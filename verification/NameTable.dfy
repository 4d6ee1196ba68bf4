/** Names of textures, buffers (512 buckets each) and command lists (32 buckets): objects chained by
    id, and a hint below which every name is taken. */
module NameTable {
  import opened Names
  import opened ObjectChains

  class NameTable {
    const chains: Chains
    var miniId: nat

    ghost function Used(): set<nat>
      reads chains`node
    {
      chains.node.Keys
    }

    /** Every name below the hint is taken. */
    ghost predicate Hinted()
      reads this, chains`node
    {
      miniId > 0 && forall x: nat :: 0 < x < miniId ==> x in Used()
    }

    ghost predicate Valid()
      reads this, chains, chains.table, chains.node.Values`next
    {
      chains.Linked() && 0 !in Used() && Hinted()
    }

    constructor (buckets: nat)
      requires buckets > 0
      ensures Valid() && fresh(chains) && fresh(chains.table) && Used() == {} && chains.k == buckets
    {
      chains := new Chains(buckets);
      miniId := 1;
    }

    /** The table only gained nodes, all of them new. */
    twostate predicate Grown()
      reads chains`node
    {
      && (forall x <- old(chains.node) :: x in chains.node && chains.node[x] == old(chains.node[x]))
      && forall x <- chains.node :: x in old(chains.node) || fresh(chains.node[x])
    }

    /** One round of the search for a free name: nothing happens if `id` is taken. */
    method TryInsert(id: nat) returns (done: bool)
      requires chains.Linked()
      modifies chains`node, chains.table, chains.node.Values`next
      ensures chains.Linked() && (done <==> id !in old(Used())) && Used() == old(Used()) + {id} && Grown()
    {
      hide Chains.Linked, Chains.Walking, Above, Bucket;
      chains.WalkStarts(id);
      var head := chains.table[Bucket(id, chains.k)];
      if head == null {
        chains.WalkEnds(null, id);
        AddAt(null, head, id);
        return true;
      }
      chains.WalkSteps(null, head, id);
      if head.id == id {
        return false;
      } else if head.id > id {
        AddAt(null, head, id);
        return true;
      }
      var tmp: Node, list := head, head.next;
      while list != null
        invariant chains.Linked() && chains.Walking(tmp, list, id) && tmp in chains.node.Values && chains.node == old(chains.node)
        decreases Above(chains.node, tmp.id)
      {
        chains.WalkSteps(tmp, list, id);
        if list.id == id {
          return false;
        } else if list.id > id {
          AddAt(tmp, list, id);
          return true;
        }
        tmp := list;
        list := list.next;
      }
      chains.WalkEnds(tmp, id);
      AddAt(tmp, list, id);
      return true;
    }

    /** A new object for `id`, linked in where the walk has stopped. */
    method AddAt(tmp: Node?, list: Node?, id: nat)
      requires chains.Walking(tmp, list, id) && id !in Used() && (list != null ==> id < list.id)
      modifies chains`node, chains.table, (if tmp == null then {} else {tmp})`next
      ensures chains.Linked() && Used() == old(Used()) + {id} && Grown()
    {
      hide Chains.Linked;
      var n := new Node(id);
      chains.InsertAt(tmp, list, n);
    }

    /** One name for glGenTextures, glGenBuffers or nngxGenCmdlists: search upwards from the hint. */
    method GenOne() returns (id: nat)
      requires Valid()
      modifies this`miniId, chains`node, chains.table, chains.node.Values`next
      ensures Valid() && Grown() && Used() == old(Used()) + {id} && miniId == id + 1
      ensures 0 < id && id !in old(Used()) && forall x: nat :: 0 < x < id ==> x in old(Used())
    {
      hide Chains.Linked;
      id := miniId;
      while true
        invariant chains.node == old(chains.node) && id > 0 && chains.Linked() && forall x: nat :: 0 < x < id ==> x in Used()
        decreases Above(chains.node, id - 1)
      {
        var done := TryInsert(id);
        if done { break; }
        AboveShrinks(old(chains.node), id - 1, id);
        id := id + 1;
      }
      miniId := id + 1;
    }

    /** glGenTextures, glGenBuffers, nngxGenCmdlists */
    method Gen(n: nat) returns (names: seq<nat>)
      requires Valid()
      modifies this`miniId, chains`node, chains.table, chains.node.Values`next
      ensures Valid() && Grown() && |names| == n && Smallest(old(Used()), names)
      ensures Used() == old(Used()) + Elements(names)
    {
      hide Chains.Linked, Smallest;
      names := [];
      SmallestNone(Used());
      while |names| < n
        invariant |names| <= n && Valid() && Grown() && Smallest(old(Used()), names)
        invariant Used() == old(Used()) + Elements(names)
      {
        var id := GenOne();
        SmallestSnoc(old(Used()), names, id);
        names := names + [id];
      }
    }

    /** The lookup of the bind functions: along the whole bucket. */
    method Find(id: nat) returns (list: Node?)
      requires chains.Linked()
      ensures list == if id in chains.node then chains.node[id] else null
    {
      hide Bucket, Points, Above;
      list := chains.table[Bucket(id, chains.k)];
      ghost var lo: int := -1;
      while list != null
        invariant Points(chains.node, chains.k, list, lo, Bucket(id, chains.k)) && (id in chains.node ==> lo < id)
        decreases Above(chains.node, lo)
      {
        PointsAt(chains.node, chains.k, list, lo, Bucket(id, chains.k));
        if list.id == id { return; }
        if lo < id < list.id { Absent(chains.node, chains.k, list, lo, id); }
        chains.NextPoints(list);
        AboveShrinks(chains.node, lo, list.id);
        lo := list.id;
        list := list.next;
      }
      if lo < id { Absent(chains.node, chains.k, list, lo, id); }
    }

    /** glBindTexture, glBindBuffer, nngxBindCmdlist on a name: make it if it is not known.  The
        hint stays as it is. */
    method Bind(id: nat)
      requires Valid() && id > 0
      modifies chains`node, chains.table, chains.node.Values`next
      ensures Valid() && Grown() && Used() == old(Used()) + {id}
    {
      hide Chains.Linked;
      var list := Find(id);
      if list == null {
        var n := new Node(id);
        chains.Link(n);
      }
    }

    /** Delete one name; 0, unknown names and the pinned one (a bound collection, the running list)
        are passed over. */
    method DeleteOne(id: nat, pinned: nat)
      requires Valid()
      modifies this`miniId, chains`node, chains.table, chains.node.Values`next
      ensures Valid() && chains.node == old(chains.node) - (if id == pinned then {} else {id})
    {
      hide Chains.Linked, Chains.Walking;
      if id == 0 { return; }
      var tmp, list := chains.Seek(id);
      if list == null || list.id != id { return; }
      if id == pinned { return; }
      if id < miniId { miniId := id; }
      chains.RemoveAt(tmp, list);
    }

    /** glDeleteTextures, glDeleteBuffers, nngxDeleteCmdlists */
    method Delete(names: seq<nat>, pinned: nat)
      requires Valid()
      modifies this`miniId, chains`node, chains.table, chains.node.Values`next
      ensures Valid() && Used() == old(Used()) - (Elements(names) - {pinned})
    {
      hide Chains.Linked;
      var i := 0;
      while i < |names|
        invariant i <= |names| && Valid() && chains.node == old(chains.node) - (Elements(names[..i]) - {pinned})
      {
        assert names[..i + 1] == names[..i] + [names[i]];
        DeleteOne(names[i], pinned);
        i := i + 1;
      }
      assert names[..i] == names;
    }
  }
}
