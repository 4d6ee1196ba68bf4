/** fbmanager.c: the framebuffer and renderbuffer calls of OpenGL ES 2.0. */
module FbManager {
  import opened Names
  import opened ObjectChains
  import opened Framebuffers

  /** FB_AP_MAX_POINTS: color and depth/stencil. */
  const UNATTACHED := [NoSurface, NoSurface]

  lemma TopOf(list: Chains)
    requires list.k == 1 && list.Linked()
    ensures list.table.Length == 1 && (list.table[0] == null ==> list.Used() == {})
    ensures list.table[0] != null ==> var top := list.table[0];
      top.id in list.node && list.node[top.id] == top && forall x <- list.Used() :: top.id <= x
  {
    forall x: nat ensures Bucket(x, 1) == 0 { OneBucket(x); }
    hide Bucket;
    assert Points(list.node, 1, list.table[0], -1, 0);
  }

  /** Along a plain list nothing is passed over. */
  lemma NonePassed(list: Chains, p: Node?, lo: int)
    requires list.k == 1 && list.Linked() && Points(list.node, 1, p, lo, 0)
    ensures forall x <- list.node :: list.node[x].id == x && (x <= lo || (p != null && p.id <= x))
  {
    forall x: nat ensures Bucket(x, 1) == 0 { OneBucket(x); }
    hide Bucket;
  }

  /** A list without name 1 gets it at its head. */
  method AddFirst(list: Chains, att: seq<Surface>) returns (n: Node)
    requires list.k == 1 && list.Linked() && 0 !in list.Used() && 1 !in list.Used()
    modifies list`node, list.table
    ensures fresh(n) && n.id == 1 && n.att == att && list.Linked() && list.node == old(list.node)[1 := n]
    ensures n.next == old(list.table[0])
  {
    hide Bucket, Points, Chains.Linked;
    TopOf(list);
    OneBucket(1);
    list.WalkStarts(1);
    n := new Node(1);
    n.att := att;
    list.InsertAt(null, list.table[0], n);
  }

  /** glGenRenderbuffers on its list, where name 1 is the first there can be. */
  method GenFromOne(list: Chains, n: nat) returns (names: seq<nat>)
    requires list.k == 1 && list.Linked() && 0 !in list.Used()
    modifies list`node, list.table, list.node.Values`next
    ensures list.Linked() && ListGrown(list) && 0 !in list.Used()
    ensures |names| == n && Smallest(old(list.Used()), names) && list.Used() == old(list.Used()) + Elements(names)
  {
    hide Chains.Linked, Smallest, Elements;
    ghost var used := list.Used();
    TopOf(list);
    SmallestNone(used);
    names := [];
    if n == 0 { return; }
    var first := list.table[0];
    if first == null || first.id != 1 {
      first := AddFirst(list, []);
      SmallestSnoc(used, names, 1);
      assert names + [1] == [1];
      names := [1];
    }
    names := FillGaps(list, first, [], used, names, n - |names|);
    SmallestPositive(used, names);
  }

  /** The object of this name; an unknown name makes one, linked into the list. */
  method FindOrMake(list: Chains, id: nat, att: seq<Surface>) returns (n: Node)
    requires list.k == 1 && list.Linked()
    modifies (if id in list.Used() then {} else {list})`node,
      (if id in list.Used() then {} else {list.table}), (if id in list.Used() then {} else list.node.Values)`next
    ensures list.Linked() && ListGrown(list) && list.Used() == old(list.Used()) + {id}
    ensures n.id == id && id in list.node && list.node[id] == n
    ensures id !in old(list.node) ==> n.att == att
  {
    hide Chains.Linked, Chains.Walking;
    var tmp, found := list.Seek(id);
    if found != null && found.id == id { return found; }
    n := new Node(id);
    n.att := att;
    list.Link(n);
  }

  /** Unlink the object of this name, if there is one. */
  method Unlink(list: Chains, id: nat) returns (n: Node?)
    requires list.k == 1 && list.Linked()
    modifies (if id in list.Used() then {list} else {})`node,
      (if id in list.Used() then {list.table} else {}), (if id in list.Used() then list.node.Values else {})`next
    ensures list.Linked() && list.node == old(list.node) - {id}
    ensures if id in old(list.node) then n == old(list.node)[id] && n.id == id else n == null
  {
    hide Chains.Linked, Chains.Walking;
    var tmp, found := list.Seek(id);
    if found == null || found.id != id { return null; }
    list.RemoveAt(tmp, found);
    n := found;
  }

  /** Two attachment points, referring only to renderbuffers in the list. */
  predicate LiveIn(node: map<nat, Node>, att: seq<Surface>) {
    && |att| == 2
    && (att[0].OfRenderbuffer? ==> att[0].rb.id in node && node[att[0].rb.id] == att[0].rb)
    && (att[1].OfRenderbuffer? ==> att[1].rb.id in node && node[att[1].rb.id] == att[1].rb)
  }

  lemma ClearedLive(node: map<nat, Node>, att: seq<Surface>, rb: Node)
    requires LiveIn(node, att) && rb.id in node && node[rb.id] == rb
    ensures Cleared(att, OfRenderbuffer(rb)) == Without(att, {rb.id})
    ensures LiveIn(node - {rb.id}, Cleared(att, OfRenderbuffer(rb)))
  {}

  lemma LiveGrows(node: map<nat, Node>, more: map<nat, Node>, att: seq<Surface>)
    requires LiveIn(node, att) && forall x <- node :: x in more && more[x] == node[x]
    ensures LiveIn(more, att)
  {}

  lemma UntouchedOne(node: map<nat, Node>, att: seq<Surface>, id: nat)
    requires LiveIn(node, att)
    ensures id !in node ==> Without(att, {id}) == att
  {}

  lemma LivePair(node: map<nat, Node>, att: seq<Surface>)
    requires LiveIn(node, att)
    ensures |att| == 2
  {}

  class FbManager {
    const rbs: Chains
    const fbs: Chains
    var currFB: Node
    var currRB: Node?

    /** The two lists are separate; renderbuffer 0 does not exist, framebuffer 0 always does. */
    ghost predicate Lists()
      reads rbs, rbs.table, rbs.node.Values`next, fbs, fbs.table, fbs.node.Values`next
    {
      && rbs != fbs && rbs.table != fbs.table && rbs.k == fbs.k == 1 && rbs.Linked() && fbs.Linked()
      && 0 !in rbs.Used() && 0 in fbs.Used()
      && forall f <- fbs.node.Values :: f !in rbs.node.Values
    }

    /** No attachment refers to a released renderbuffer, and the current objects are in their lists. */
    ghost predicate Valid()
      reads this, rbs, rbs.table, rbs.node.Values`next, fbs, fbs.table, fbs.node.Values
    {
      && Lists() && (forall f <- fbs.node :: LiveIn(rbs.node, fbs.node[f].att))
      && currFB.id in fbs.node && fbs.node[currFB.id] == currFB
      && (currRB != null ==> currRB.id in rbs.node && rbs.node[currRB.id] == currRB)
    }

    /** __fb_initializeFBManager */
    constructor ()
      ensures Valid() && rbs.Used() == {} && fbs.Used() == {0} && currFB.id == 0 && currRB == null
      ensures fresh(rbs) && fresh(fbs) && fresh(rbs.table) && fresh(fbs.table) && fresh(fbs.node.Values)
    {
      var top := new Node(0);
      var r := new Chains(1);
      var f := new Chains(1);
      rbs, fbs, currFB, currRB := r, f, top, null;
      new;
      top.att := UNATTACHED;
      OneBucket(0);
      f.WalkStarts(0);
      f.InsertAt(null, f.table[0], top);
    }

    /** The framebuffer list always starts with framebuffer 0. */
    lemma StartsWithZero()
      requires Valid()
      ensures fbs.table[0] != null && fbs.table[0].id == 0
    {
      TopOf(fbs);
    }

    /** Gaining renderbuffers. */
    twostate lemma RbsGrew()
      requires old(Valid()) && rbs.Linked() && fbs.Linked() && 0 !in rbs.Used() && ListGrown(rbs)
      requires currFB == old(currFB) && currRB == old(currRB) && fbs.node == old(fbs.node)
      requires forall f <- fbs.node.Values :: f.att == old(f.att)
      ensures Valid()
    {
      hide LiveIn, Chains.Linked;
      forall f <- fbs.node ensures LiveIn(rbs.node, fbs.node[f].att) {
        LiveGrows(old(rbs.node), rbs.node, fbs.node[f].att);
      }
    }

    /** glGenRenderbuffers */
    method GenRenderbuffers(n: nat) returns (names: seq<nat>)
      requires Valid()
      modifies rbs`node, rbs.table, rbs.node.Values`next
      ensures Valid() && |names| == n && Smallest(old(rbs.Used()), names)
      ensures rbs.Used() == old(rbs.Used()) + Elements(names) && ListGrown(rbs)
    {
      hide Chains.Linked, Smallest, Elements, LiveIn;
      names := GenFromOne(rbs, n);
      RbsGrew();
    }

    /** Gaining framebuffers. */
    twostate lemma FbsGrew()
      requires old(Valid()) && rbs.Linked() && fbs.Linked() && ListGrown(fbs)
      requires currRB == old(currRB) && rbs.node == old(rbs.node)
      requires currFB.id in fbs.node && fbs.node[currFB.id] == currFB
      requires forall f <- old(fbs.node.Values) :: f.att == old(f.att)
      requires forall x <- fbs.node :: x !in old(fbs.node) ==> fbs.node[x].att == UNATTACHED
      ensures Valid()
    {
      hide Chains.Linked;
    }

    /** glGenFramebuffers: the list is never empty and starts with framebuffer 0. */
    method GenFramebuffers(n: nat) returns (names: seq<nat>)
      requires Valid()
      modifies fbs`node, fbs.table, fbs.node.Values`next
      ensures Valid() && |names| == n && Smallest(old(fbs.Used()), names)
      ensures fbs.Used() == old(fbs.Used()) + Elements(names) && ListGrown(fbs)
      ensures forall f <- old(fbs.node.Values) :: f.att == old(f.att)
      ensures forall x <- names :: x in fbs.node && fbs.node[x].att == [NoSurface, NoSurface]
    {
      hide Chains.Linked, Smallest, Elements, LiveIn;
      ghost var used := fbs.Used();
      TopOf(fbs);
      SmallestNone(used);
      names := [];
      if n == 0 { return; }
      names := FillGaps(fbs, fbs.table[0], UNATTACHED, used, names, n);
      FbsGrew();
      forall x <- names ensures x in fbs.Used() && x !in used { SmallestNew(used, names, x); }
    }

    /** glBindRenderbuffer: 0 unbinds, an unknown name makes a renderbuffer. */
    method BindRenderbuffer(id: nat)
      requires Valid()
      modifies this`currRB, rbs`node, rbs.table, rbs.node.Values`next
      ensures Valid() && ListGrown(rbs) && rbs.Used() == old(rbs.Used()) + (if id == 0 then {} else {id})
      ensures if id == 0 then currRB == null else currRB != null && currRB.id == id
    {
      hide Chains.Linked, LiveIn, Without;
      if currRB != null && id == currRB.id { return; }
      var rb: Node? := null;
      if id != 0 { rb := FindOrMake(rbs, id, []); }
      RbsGrew();
      currRB := rb;
    }

    /** glBindFramebuffer: an unknown name makes a framebuffer. */
    method BindFramebuffer(id: nat)
      requires Valid()
      modifies this`currFB, (if id in fbs.Used() then {} else {fbs})`node,
        (if id in fbs.Used() then {} else {fbs.table}), (if id in fbs.Used() then {} else fbs.node.Values)`next
      ensures Valid() && ListGrown(fbs) && fbs.Used() == old(fbs.Used()) + {id} && currFB.id == id
      ensures forall f <- old(fbs.node.Values) :: f.att == old(f.att)
      ensures id !in old(fbs.Used()) ==> id in fbs.node && fbs.node[id].att == [NoSurface, NoSurface]
    {
      hide Chains.Linked, LiveIn, Without;
      if id == currFB.id { return; }
      var fb := FindOrMake(fbs, id, UNATTACHED);
      currFB := fb;
      FbsGrew();
    }

    /** __fb_detachSurfaceContainer: clear every attachment of any framebuffer to this surface. */
    method Detach(s: Surface)
      requires Lists() && forall f <- fbs.node :: |fbs.node[f].att| == 2
      modifies fbs.node.Values`att
      ensures forall f <- fbs.node.Values :: f.att == Cleared(old(f.att), s)
    {
      hide Chains.Linked, Above, Cleared;
      OneBucket(0);
      fbs.WalkStarts(0);
      var fb := fbs.table[0];
      ghost var lo: int := -1;
      while fb != null
        invariant fbs.Linked() && Points(fbs.node, 1, fb, lo, 0)
        invariant forall x <- fbs.node :: x <= lo ==> fbs.node[x].att == Cleared(old(fbs.node[x].att), s)
        invariant forall x <- fbs.node :: x > lo ==> fbs.node[x].att == old(fbs.node[x].att)
        decreases Above(fbs.node, lo)
      {
        PointsAt(fbs.node, 1, fb, lo, 0);
        fbs.NextPoints(fb);
        AboveShrinks(fbs.node, lo, fb.id);
        NonePassed(fbs, fb, lo);
        DetachOne(fb, s);
        lo := fb.id;
        fb := fb.next;
      }
      NonePassed(fbs, fb, lo);
    }

    /** Both attachment points of one framebuffer. */
    method DetachOne(fb: Node, s: Surface)
      requires |fb.att| == 2
      modifies fb`att
      ensures fb.att == Cleared(old(fb.att), s)
    {
      var i := 0;
      while i < 2
        invariant i <= 2 && |fb.att| == 2
        invariant forall k :: 0 <= k < 2 ==> fb.att[k] == if k < i && old(fb.att)[k] == s then NoSurface else old(fb.att)[k]
      {
        if fb.att[i] == s { fb.att := fb.att[i := NoSurface]; }
        i := i + 1;
      }
    }

    /** What deleting one renderbuffer leaves: it is gone from the list, from the binding and from
        every attachment. */
    method DeleteRenderbuffer(id: nat)
      requires Valid()
      modifies this`currRB, rbs`node, rbs.table, rbs.node.Values`next, fbs.node.Values`att
      ensures Valid() && rbs.node == old(rbs.node) - {id}
      ensures currRB == if old(currRB) != null && old(currRB).id == id then null else old(currRB)
      ensures forall f <- fbs.node.Values :: f.att == Without(old(f.att), {id})
    {
      hide Chains.Linked, Chains.Walking, LiveIn, Without, Cleared;
      Untouched(id);
      if id == 0 { return; }
      var rb := Unlink(rbs, id);
      if rb == null { return; }
      if currRB == rb { currRB := null; }
      Detach(OfRenderbuffer(rb));
      RbsShrank(rb);
    }

    /** No attachment refers to a name that is not in use. */
    lemma Untouched(id: nat)
      requires Valid()
      ensures forall f <- fbs.node.Values :: |f.att| == 2
      ensures id !in rbs.Used() ==> forall f <- fbs.node.Values :: Without(f.att, {id}) == f.att
    {
      hide Chains.Linked, Without, LiveIn;
      forall x <- fbs.node
        ensures |fbs.node[x].att| == 2 && (id !in rbs.Used() ==> Without(fbs.node[x].att, {id}) == fbs.node[x].att)
      {
        LivePair(rbs.node, fbs.node[x].att);
        UntouchedOne(rbs.node, fbs.node[x].att, id);
      }
    }

    /** Losing a renderbuffer that nothing refers to any more. */
    twostate lemma RbsShrank(rb: Node)
      requires old(Valid()) && rbs.Linked() && fbs.Linked() && fbs.node == old(fbs.node) && currFB == old(currFB)
      requires rb.id in old(rbs.node) && old(rbs.node)[rb.id] == rb && rbs.node == old(rbs.node) - {rb.id}
      requires currRB == if old(currRB) == rb then null else old(currRB)
      requires forall f <- fbs.node.Values :: f.att == Cleared(old(f.att), OfRenderbuffer(rb))
      ensures Valid() && forall f <- fbs.node.Values :: LiveIn(old(rbs.node), old(f.att)) && f.att == Without(old(f.att), {rb.id})
    {
      hide LiveIn, Cleared, Without, Chains.Linked;
      forall f <- fbs.node ensures LiveIn(rbs.node, fbs.node[f].att) && fbs.node[f].att == Without(old(fbs.node[f].att), {rb.id}) {
        LivePair(old(rbs.node), old(fbs.node[f].att));
        ClearedLive(old(rbs.node), old(fbs.node[f].att), rb);
      }
    }

    /** glDeleteRenderbuffers */
    method DeleteRenderbuffers(ids: seq<nat>)
      requires Valid()
      modifies this`currRB, rbs`node, rbs.table, rbs.node.Values`next, fbs.node.Values`att
      ensures Valid() && rbs.node == old(rbs.node) - Elements(ids)
      ensures currRB == if old(currRB) != null && old(currRB).id in Elements(ids) then null else old(currRB)
      ensures forall f <- fbs.node.Values :: f.att == Without(old(f.att), Elements(ids))
    {
      hide Chains.Linked, LiveIn, Without;
      var i := 0;
      assert Elements(ids[..0]) == {};
      forall f <- fbs.node.Values ensures f.att == Without(f.att, {}) { WithoutNone(f.att); }
      while i < |ids|
        invariant i <= |ids| && Valid() && rbs.node == old(rbs.node) - Elements(ids[..i])
        invariant currRB == if old(currRB) != null && old(currRB).id in Elements(ids[..i]) then null else old(currRB)
        invariant forall f <- fbs.node.Values :: f.att == Without(old(f.att), Elements(ids[..i]))
      {
        assert Elements(ids[..i + 1]) == Elements(ids[..i]) + {ids[i]};
        label Before:
        DeleteRenderbuffer(ids[i]);
        forall f <- fbs.node.Values ensures f.att == Without(old(f.att), Elements(ids[..i + 1])) {
          assert f.att == Without(old@Before(f.att), {ids[i]});
          WithoutMore(old(f.att), Elements(ids[..i]), ids[i]);
        }
        i := i + 1;
      }
      assert ids[..i] == ids;
    }

    /** Losing a framebuffer that is not current. */
    twostate lemma FbsShrank(fb: Node)
      requires old(Valid()) && rbs.Linked() && fbs.Linked() && rbs.node == old(rbs.node) && currRB == old(currRB)
      requires fb.id in old(fbs.node) && fb.id != 0 && fbs.node == old(fbs.node) - {fb.id}
      requires currFB.id in fbs.node && fbs.node[currFB.id] == currFB
      requires forall f <- fbs.node.Values :: f.att == old(f.att)
      ensures Valid()
    {
      hide Chains.Linked, LiveIn;
    }

    /** One name of glDeleteFramebuffers; deleting the current framebuffer binds framebuffer 0. */
    method DeleteFramebuffer(id: nat)
      requires Valid()
      modifies this`currFB, fbs`node, fbs.table, fbs.node.Values`next
      ensures Valid() && fbs.node == old(fbs.node) - (if id == 0 then {} else {id})
      ensures currFB == if old(currFB).id == id != 0 then fbs.node[0] else old(currFB)
    {
      hide Chains.Linked, Chains.Walking, LiveIn;
      if id == 0 { return; }
      var tmp, fb := fbs.Seek(id);
      if fb == null || fb.id != id { return; }
      if currFB == fb { BindFramebuffer(0); }
      label Found:
      fbs.RemoveAt(tmp, fb);
      FbsShrank@Found(fb);
    }

    /** glDeleteFramebuffers */
    method DeleteFramebuffers(ids: seq<nat>)
      requires Valid()
      modifies this`currFB, fbs`node, fbs.table, fbs.node.Values`next
      ensures Valid() && fbs.node == old(fbs.node) - (Elements(ids) - {0})
      ensures currFB == if old(currFB).id in Elements(ids) - {0} then fbs.node[0] else old(currFB)
    {
      hide Chains.Linked, LiveIn, Without, Elements;
      var i := 0;
      NoneGone(fbs.node, ids);
      while i < |ids|
        invariant i <= |ids| && Valid() && fbs.node == old(fbs.node) - (Elements(ids[..i]) - {0})
        invariant currFB == if old(currFB).id in Elements(ids[..i]) - {0} then fbs.node[0] else old(currFB)
      {
        OneGone(old(fbs.node), ids, i);
        DeleteFramebuffer(ids[i]);
        i := i + 1;
      }
      assert ids[..i] == ids;
    }

    /** glFramebufferRenderbuffer on the current framebuffer, once the attachment point is known; 0
        detaches.  `formatOk` is the outcome of the format checks. */
    method FramebufferRenderbuffer(point: nat, id: nat, formatOk: bool) returns (ok: bool)
      requires Valid() && point < 2
      modifies currFB`att
      ensures Valid() && ok == (id == 0 || (id in rbs.Used() && formatOk))
      ensures currFB.att == if !ok then old(currFB.att) else
        old(currFB.att)[point := if id == 0 then NoSurface else OfRenderbuffer(rbs.node[id])]
    {
      hide Chains.Linked, Chains.Walking;
      var tmp, rb := rbs.Seek(id);
      if rb != null && rb.id != id { rb := null; }
      if id != 0 && (rb == null || !formatOk) { return false; }
      currFB.att := currFB.att[point := if id == 0 then NoSurface else OfRenderbuffer(rb)];
      return true;
    }
  }

  /** Attachments with those to the renderbuffers of these names cleared. */
  function Without(att: seq<Surface>, ids: set<nat>): (r: seq<Surface>)
    ensures |r| == |att|
  {
    seq(|att|, i requires 0 <= i < |att| => if att[i].OfRenderbuffer? && att[i].rb.id in ids then NoSurface else att[i])
  }

  /** Attachments with those to one surface cleared. */
  function Cleared(att: seq<Surface>, s: Surface): (r: seq<Surface>)
    ensures |r| == |att|
  {
    seq(|att|, i requires 0 <= i < |att| => if att[i] == s then NoSurface else att[i])
  }

  lemma NoneGone(node: map<nat, Node>, ids: seq<nat>)
    ensures Elements(ids[..0]) == {} && node - (Elements(ids[..0]) - {0}) == node
  {
    assert Elements(ids[..0]) == {};
  }

  lemma OneGone(node: map<nat, Node>, ids: seq<nat>, i: nat)
    requires i < |ids|
    ensures var gone, more := Elements(ids[..i]) - {0}, Elements(ids[..i + 1]) - {0};
      && more == gone + (if ids[i] == 0 then {} else {ids[i]})
      && node - gone - (if ids[i] == 0 then {} else {ids[i]}) == node - more
  {
    assert Elements(ids[..i + 1]) == Elements(ids[..i]) + {ids[i]};
  }

  lemma WithoutNone(att: seq<Surface>)
    ensures Without(att, {}) == att
  {}

  lemma WithoutMore(att: seq<Surface>, ids: set<nat>, id: nat)
    ensures Without(Without(att, ids), {id}) == Without(att, ids + {id})
  {}
}
