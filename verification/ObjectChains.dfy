/** Chained name tables: buckets of singly linked lists of objects, each sorted by id.  Every GL
    object manager keeps its objects this way; with one bucket it is a plain sorted list. */
module ObjectChains {

  function Bucket(id: nat, k: nat): (b: nat)
    requires k > 0
    ensures b < k
  {
    id % k
  }

  /** What an attachment point of a framebuffer refers to; the call that attaches a texture is not part
      of this model. */
  datatype Surface = NoSurface | OfRenderbuffer(rb: Node) | OfTexture(name: nat)

  /** A list element; `att` holds the attachments of a framebuffer and is empty for other objects. */
  class Node {
    const id: nat
    var next: Node?
    var att: seq<Surface>

    constructor (id: nat)
      ensures this.id == id && next == null && att == []
    {
      this.id, next, att := id, null, [];
    }
  }

  /** p is the first node of bucket b with an id above `lo`; null if there is none. */
  ghost predicate Points(node: map<nat, Node>, k: nat, p: Node?, lo: int, b: nat)
    requires k > 0
  {
    if p == null then
      forall id <- node :: Bucket(id, k) == b ==> id <= lo
    else
      && p.id in node && node[p.id] == p && Bucket(p.id, k) == b && lo < p.id
      && forall id <- node :: Bucket(id, k) == b ==> id <= lo || p.id <= id
  }

  /** Places a pointer can start from: -1 for a bucket's head, or a node of that bucket. */
  predicate Place(node: map<nat, Node>, k: nat, lo: int, b: nat)
    requires k > 0
  {
    lo == -1 || (lo >= 0 && lo in node && Bucket(lo, k) == b)
  }

  predicate Named(node: map<nat, Node>) { forall id <- node :: node[id].id == id }

  /** A node n linked in behind `lo`, in front of `next`. */
  lemma InsertPoints(node: map<nat, Node>, k: nat, n: Node, lo: int, next: Node?)
    requires k > 0 && Points(node, k, next, lo, Bucket(n.id, k)) && lo < n.id && n.id !in node
    requires next != null ==> n.id < next.id
    ensures Points(node[n.id := n], k, n, lo, Bucket(n.id, k)) && Points(node[n.id := n], k, next, n.id, Bucket(n.id, k))
  {
    hide Bucket;
  }

  /** Other pointers still point to the node next to them. */
  lemma InsertKeeps(node: map<nat, Node>, k: nat, n: Node, lo: int, next: Node?, p: Node?, at: int, b: nat)
    requires k > 0 && Named(node) && n.id !in node && Points(node, k, next, lo, Bucket(n.id, k)) && lo < n.id
    requires next != null ==> n.id < next.id
    requires Place(node, k, lo, Bucket(n.id, k)) && Place(node, k, at, b) && Points(node, k, p, at, b)
    requires at != lo || b != Bucket(n.id, k)
    ensures Points(node[n.id := n], k, p, at, b)
  {
    hide Bucket;
  }

  lemma RemovePoints(node: map<nat, Node>, k: nat, n: Node, lo: int, next: Node?)
    requires k > 0 && Named(node) && n.id in node && node[n.id] == n
    requires Points(node, k, n, lo, Bucket(n.id, k)) && Points(node, k, next, n.id, Bucket(n.id, k))
    ensures Points(node - {n.id}, k, next, lo, Bucket(n.id, k))
  {
    hide Bucket;
  }

  lemma RemoveKeeps(node: map<nat, Node>, k: nat, n: Node, lo: int, p: Node?, at: int, b: nat)
    requires k > 0 && Named(node) && n.id in node && node[n.id] == n && Points(node, k, n, lo, Bucket(n.id, k))
    requires Place(node, k, lo, Bucket(n.id, k)) && Place(node, k, at, b) && Points(node, k, p, at, b)
    requires at != n.id && (at != lo || b != Bucket(n.id, k))
    ensures Points(node - {n.id}, k, p, at, b)
  {
    hide Bucket;
  }

  lemma PointsAt(node: map<nat, Node>, k: nat, p: Node, lo: int, b: nat)
    requires k > 0 && Points(node, k, p, lo, b)
    ensures p.id in node && node[p.id] == p && Bucket(p.id, k) == b && lo < p.id
  {}

  /** Nothing lies between a place and what the pointer there points to. */
  lemma Absent(node: map<nat, Node>, k: nat, p: Node?, lo: int, id: nat)
    requires k > 0 && Points(node, k, p, lo, Bucket(id, k)) && lo < id && (p != null ==> id < p.id)
    ensures id !in node
  {}

  /** The names above lo: what a walk along a bucket has ahead of it. */
  ghost function Above(node: map<nat, Node>, lo: int): set<nat> { set x | x in node && x > lo }

  lemma AboveShrinks(node: map<nat, Node>, lo: int, x: nat)
    requires x in node && lo < x
    ensures Above(node, x) < Above(node, lo)
  {
    assert x in Above(node, lo) && x !in Above(node, x);
  }

  function At(p: Node?): int { if p == null then -1 else p.id }

  class Chains {
    const k: nat
    const table: array<Node?>
    ghost var node: map<nat, Node>

    ghost predicate Linked()
      reads this`node, table, node.Values`next
    {
      && 0 < k == table.Length && Named(node)
      && (forall b :: 0 <= b < k ==> Points(node, k, table[b], -1, b))
      && (forall id <- node :: Points(node, k, node[id].next, id, Bucket(id, k)))
    }

    ghost function Used(): set<nat>
      reads this`node
    {
      node.Keys
    }

    constructor (k: nat)
      requires k > 0
      ensures Linked() && fresh(table) && node == map[] && this.k == k
    {
      this.k := k;
      table := new Node?[k](_ => null);
      node := map[];
    }

    /** The pointer behind `prev`; the head of the bucket if that is null. */
    function Behind(prev: Node?, b: nat): Node?
      requires b < table.Length
      reads table, prev
    {
      if prev == null then table[b] else prev.next
    }

    ghost predicate Before(prev: Node?, id: nat)
      requires k > 0
      reads this`node
    {
      prev != null ==>
        prev in node.Values && prev.id in node && node[prev.id] == prev && Bucket(prev.id, k) == Bucket(id, k) && prev.id < id
    }

    lemma NextPoints(p: Node)
      requires Linked() && p.id in node && node[p.id] == p
      ensures p in node.Values && Points(node, k, p.next, p.id, Bucket(p.id, k))
    {}

    /** Link the node n in between prev and the node behind it. */
    method InsertBehind(prev: Node?, n: Node)
      requires Linked() && n.id !in node && Before(prev, n.id) && n !in node.Values
      requires var next := Behind(prev, Bucket(n.id, k)); next != null ==> n.id < next.id
      modifies this`node, table, n`next, (if prev == null then {} else {prev})`next
      ensures Linked() && node == old(node)[n.id := n] && n.next == old(Behind(prev, Bucket(n.id, k)))
    {
      hide Bucket, Points;
      ghost var was, lo := node, At(prev);
      var next := Behind(prev, Bucket(n.id, k));
      if prev != null { NextPoints(prev); }
      InsertPoints(was, k, n, lo, next);
      forall b | 0 <= b < k && (prev != null || b != Bucket(n.id, k)) ensures Points(was[n.id := n], k, table[b], -1, b) {
        InsertKeeps(was, k, n, lo, next, table[b], -1, b);
      }
      forall x <- was | x != lo ensures Points(was[n.id := n], k, was[x].next, x, Bucket(x, k)) {
        InsertKeeps(was, k, n, lo, next, was[x].next, x, Bucket(x, k));
      }
      n.next := next;
      if prev == null { table[Bucket(n.id, k)] := n; } else { prev.next := n; }
      node := node[n.id := n];
    }

    /** Unlink the node n behind prev. */
    method UnlinkBehind(prev: Node?, n: Node)
      requires Linked() && Before(prev, n.id) && n in node.Values && Behind(prev, Bucket(n.id, k)) == n
      modifies this`node, table, (if prev == null then {} else {prev})`next
      ensures Linked() && node == old(node) - {n.id}
    {
      hide Bucket, Points;
      ghost var was, lo := node, At(prev);
      if prev != null { NextPoints(prev); }
      NextPoints(n);
      var next := n.next;
      RemovePoints(was, k, n, lo, next);
      forall b | 0 <= b < k && (prev != null || b != Bucket(n.id, k)) ensures Points(was - {n.id}, k, table[b], -1, b) {
        RemoveKeeps(was, k, n, lo, table[b], -1, b);
      }
      forall x <- was | x != lo && x != n.id ensures Points(was - {n.id}, k, was[x].next, x, Bucket(x, k)) {
        RemoveKeeps(was, k, n, lo, was[x].next, x, Bucket(x, k));
      }
      if prev == null { table[Bucket(n.id, k)] := next; } else { prev.next := next; }
      node := node - {n.id};
    }

    /** A walk along the bucket of `id`: list is the pointer behind tmp, and tmp is before id. */
    ghost predicate Walking(tmp: Node?, list: Node?, id: nat)
      reads this`node, table, tmp, node.Values`next
    {
      Linked() && Before(tmp, id) && list == Behind(tmp, Bucket(id, k)) && Points(node, k, list, At(tmp), Bucket(id, k))
    }

    lemma WalkStarts(id: nat)
      requires Linked()
      ensures Bucket(id, k) < table.Length && Walking(null, table[Bucket(id, k)], id)
    {
      hide Bucket;
    }

    /** One step along the bucket. */
    lemma WalkSteps(tmp: Node?, list: Node, id: nat)
      requires Walking(tmp, list, id)
      ensures list.id in node && node[list.id] == list && list in node.Values && At(tmp) < list.id
      ensures list.id < id ==> Walking(list, list.next, id)
      ensures Above(node, list.id) < Above(node, At(tmp))
      ensures id < list.id ==> id !in node
    {
      hide Bucket, Points, Above;
      PointsAt(node, k, list, At(tmp), Bucket(id, k));
      NextPoints(list);
      AboveShrinks(node, At(tmp), list.id);
      if id < list.id { Absent(node, k, list, At(tmp), id); }
    }

    lemma WalkEnds(tmp: Node?, id: nat)
      requires Walking(tmp, null, id)
      ensures id !in node
    {
      hide Bucket, Points;
      Absent(node, k, null, At(tmp), id);
    }

    /** Walk to the first node whose id is not below `id`. */
    method Seek(id: nat) returns (tmp: Node?, list: Node?)
      requires Linked()
      ensures Walking(tmp, list, id) && (tmp != null ==> tmp in node.Values) && (list != null ==> list.id in node && node[list.id] == list && id <= list.id)
      ensures id in node <==> list != null && list.id == id
    {
      hide Linked, Walking, Above;
      WalkStarts(id);
      tmp, list := null, table[Bucket(id, k)];
      while list != null
        invariant Walking(tmp, list, id) && (tmp != null ==> tmp in node.Values)
        decreases Above(node, At(tmp))
      {
        WalkSteps(tmp, list, id);
        if list.id >= id { break; }
        tmp := list;
        list := list.next;
      }
      if list == null { WalkEnds(tmp, id); }
    }

    /** fb_linkRBList, fb_linkFBList, and the insertion in the bind functions. */
    method Link(n: Node)
      requires Linked() && n.id !in node && n !in node.Values
      modifies this`node, table, n`next, node.Values`next
      ensures Linked() && node == old(node)[n.id := n]
    {
      hide Linked, Walking, Above, Before;
      WalkStarts(n.id);
      var head := table[Bucket(n.id, k)];
      if head == null {
        InsertAt(null, head, n);
        return;
      }
      WalkSteps(null, head, n.id);
      if head.id > n.id {
        InsertAt(null, head, n);
      } else {
        var tmp: Node, list := head, head.next;
        while list != null
          invariant Walking(tmp, list, n.id) && tmp in node.Values && node == old(node)
          decreases Above(node, tmp.id)
        {
          WalkSteps(tmp, list, n.id);
          if list.id > n.id {
            InsertAt(tmp, list, n);
            return;
          }
          tmp := list;
          list := list.next;
        }
        InsertAt(tmp, list, n);
      }
    }

    /** Link n in where a walk has stopped. */
    method InsertAt(tmp: Node?, list: Node?, n: Node)
      requires Walking(tmp, list, n.id) && n.id !in node && n !in node.Values && (list != null ==> n.id < list.id)
      modifies this`node, table, n`next, (if tmp == null then {} else {tmp})`next
      ensures Linked() && node == old(node)[n.id := n] && n.next == list
    {
      hide Linked;
      InsertBehind(tmp, n);
    }

    /** Unlink the node a walk has found. */
    method RemoveAt(tmp: Node?, n: Node)
      requires Walking(tmp, n, n.id)
      modifies this`node, table, (if tmp == null then {} else {tmp})`next
      ensures Linked() && node == old(node) - {n.id}
    {
      hide Linked;
      WalkSteps(tmp, n, n.id);
      UnlinkBehind(tmp, n);
    }
  }
}
