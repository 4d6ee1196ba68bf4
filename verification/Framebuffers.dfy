/** Framebuffer and renderbuffer objects: two sorted lists, the current objects, and attachments
    that point from framebuffers to renderbuffers. */
module Framebuffers {
  import opened Names
  import opened ObjectChains

  lemma OneBucket(id: nat)
    ensures Bucket(id, 1) == 0
  {}

  /** Where the walk along a plain list stands once it has passed p. */
  lemma PassedWalk(list: Chains, p: Node)
    requires list.k == 1 && list.Linked() && p.id in list.node && list.node[p.id] == p
    ensures p in list.node.Values && list.Walking(p, p.next, p.id + 1)
  {
    hide Bucket, Points;
    list.NextPoints(p);
    OneBucket(p.id);
    OneBucket(p.id + 1);
  }

  /** The list only gained nodes, all of them new. */
  twostate predicate ListGrown(list: Chains)
    reads list`node
  {
    && (forall x <- old(list.node) :: x in list.node && list.node[x] == old(list.node[x]))
    && forall x <- list.node :: x in old(list.node) || fresh(list.node[x])
  }

  /** Put a new object behind tmp, which has the id just below. */
  method AddNext(list: Chains, tmp: Node, id: nat, att: seq<Surface>) returns (n: Node)
    requires list.k == 1 && list.Linked() && tmp.id in list.node && list.node[tmp.id] == tmp && id == tmp.id + 1
    requires tmp.next != null ==> id < tmp.next.id
    modifies list`node, list.table, tmp`next
    ensures fresh(n) && list.Linked() && list.node == old(list.node)[id := n] && n.id == id && n.att == att
    ensures n.next == old(tmp.next) && id !in old(list.node)
  {
    hide Bucket, Chains.Linked, Points;
    PassedWalk(list, tmp);
    if tmp.next != null { list.WalkSteps(tmp, tmp.next, id); } else { list.WalkEnds(tmp, id); }
    n := new Node(id);
    n.att := att;
    ghost var next := tmp.next;
    list.InsertAt(tmp, tmp.next, n);
    assert n.next == next;
  }

  /** What the generating functions keep: the objects in the list are those there were and one,
      with attachments `att`, for each name given out. */
  twostate predicate Filling(list: Chains, used: set<nat>, names: seq<nat>, att: seq<Surface>)
    reads list`node, list.table, list.node.Values
  {
    && list.k == 1 && list.Linked() && ListGrown(list)
    && Smallest(used, names) && list.Used() == used + Elements(names)
    && forall x <- list.node :: x !in old(list.node) ==> list.node[x].att == att
  }

  /** p is in the list and every name up to its id is taken. */
  ghost predicate Full(list: Chains, p: Node)
    reads list`node
  {
    p.id in list.node && list.node[p.id] == p && forall x: nat :: 0 < x <= p.id ==> x in list.Used()
  }

  /** Give out the next m names, all behind tmp. */
  method GiveRun(list: Chains, tmp: Node, m: nat, att: seq<Surface>, ghost used: set<nat>, names: seq<nat>)
    returns (last: Node, more: seq<nat>)
    requires list.k == 1 && list.Linked() && Smallest(used, names) && list.Used() == used + Elements(names)
    requires Full(list, tmp) && (tmp.next != null ==> tmp.id + m < tmp.next.id)
    modifies list`node, list.table, list.node.Values`next
    ensures Filling(list, used, more, att) && |more| == |names| + m
    ensures Full(list, last) && last.id == tmp.id + m && last.next == old(tmp.next)
    ensures forall x <- list.node :: x in old(list.node) || x <= last.id
    ensures old(tmp.next) != null ==> old(tmp.next.next) == old(tmp.next).next
  {
    hide Chains.Linked, Smallest, Elements;
    last, more := tmp, names;
    var i := 0;
    while i < m
      invariant i <= m && Filling(list, used, more, att) && |more| == |names| + i
      invariant Full(list, last) && last.id == tmp.id + i && last.next == old(tmp.next)
      invariant forall x <- list.node :: x in old(list.node) || x <= last.id
      invariant old(tmp.next) != null ==> old(tmp.next.next) == old(tmp.next).next
    {
      ghost var id := last.id + 1;
      last := AddNext(list, last, last.id + 1, att);
      SmallestSnoc(used, more, id);
      more := more + [last.id];
      i := i + 1;
    }
  }

  /** Fill the gap between two neighbours, as far as names are still wanted. */
  method FillGap(list: Chains, tmp: Node, next: Node, n: nat, att: seq<Surface>, ghost used: set<nat>, names: seq<nat>)
    returns (more: seq<nat>, left: nat)
    requires list.k == 1 && list.Linked() && Smallest(used, names) && list.Used() == used + Elements(names)
    requires Full(list, tmp) && tmp.next == next && n > 0
    modifies list`node, list.table, list.node.Values`next
    ensures Filling(list, used, more, att) && |more| + left == |names| + n && next.next == old(next.next)
    ensures next.id in old(list.node) && tmp.id < next.id
    ensures left != 0 ==> Full(list, next) && forall x <- list.node :: x > next.id ==> x in old(list.node)
  {
    hide Chains.Linked, Smallest, Above;
    PassedWalk(list, tmp);
    list.WalkSteps(tmp, next, tmp.id + 1);
    more, left := names, n;
    var id := tmp.id + 1;
    if next.id > id {
      var m := if next.id - id < n then next.id - id else n;
      var last;
      last, more := GiveRun(list, tmp, m, att, used, names);
      left := n - m;
    }
  }

  /** The loops of glGenRenderbuffers and glGenFramebuffers over a list that starts with `top`: fill
      the gaps from the front, then append. */
  method FillGaps(list: Chains, top: Node, att: seq<Surface>, ghost used: set<nat>, given: seq<nat>, count: nat)
    returns (names: seq<nat>)
    requires list.k == 1 && list.Linked() && Smallest(used, given) && list.Used() == used + Elements(given)
    requires Full(list, top)
    modifies list`node, list.table, list.node.Values`next
    ensures Filling(list, used, names, att) && |names| == |given| + count
  {
    hide Chains.Linked, Smallest, Above, Elements, Chains.Used;
    names := given;
    var n: nat := count;
    var tmp: Node, next: Node? := top, top.next;
    while next != null && n != 0
      invariant Filling(list, used, names, att) && |names| + n == |given| + count
      invariant n != 0 ==> Full(list, tmp) && next == tmp.next
      invariant n != 0 ==> forall x <- list.node :: x > tmp.id ==> x in old(list.node)
      decreases Above(old(list.node), tmp.id), n
    {
      names, n := FillGap(list, tmp, next, n, att, used, names);
      AboveShrinks(old(list.node), tmp.id, next.id);
      tmp := next;
      next := next.next;
    }
    if n != 0 {
      var last;
      last, names := GiveRun(list, tmp, n, att, used, names);
    }
  }
}
