/** Which names a generating call has to give out. */
module Names {

  /** The |names| smallest positive names not in `used`, in increasing order. */
  ghost predicate Smallest(used: set<nat>, names: seq<nat>) {
    && (forall i, j :: 0 <= i < j < |names| ==> names[i] < names[j])
    && (forall i :: 0 <= i < |names| ==> names[i] > 0 && names[i] !in used)
    && (forall i, x: nat :: 0 <= i < |names| && 0 < x < names[i] && x !in used ==> x in names)
  }

  function Elements(names: seq<nat>): set<nat> { set x | x in names }

  lemma SmallestNone(used: set<nat>)
    ensures Smallest(used, []) && used + Elements([]) == used
  {}

  lemma SmallestPositive(used: set<nat>, names: seq<nat>)
    requires Smallest(used, names)
    ensures 0 !in Elements(names)
  {}

  lemma SmallestNew(used: set<nat>, names: seq<nat>, x: nat)
    requires Smallest(used, names) && x in names
    ensures x !in used && x in Elements(names)
  {}

  lemma SmallestSnoc(used: set<nat>, names: seq<nat>, id: nat)
    requires Smallest(used, names) && 0 < id && id !in used + Elements(names)
    requires forall x: nat :: 0 < x < id ==> x in used + Elements(names)
    ensures Smallest(used, names + [id])
    ensures used + Elements(names + [id]) == used + Elements(names) + {id}
  {
    forall i | 0 <= i < |names| ensures names[i] < id { assert names[i] in names && id !in names; }
  }

  /** The names generated are determined by the names in use: no hint, history or hash matters. */
  lemma {:induction false} SmallestUnique(used: set<nat>, a: seq<nat>, b: seq<nat>)
    requires Smallest(used, a) && Smallest(used, b) && |a| == |b|
    ensures a == b
  {
    if a != [] {
      var n := |a| - 1;
      SmallestPrefix(used, a, n);
      SmallestPrefix(used, b, n);
      SmallestUnique(used, a[..n], b[..n]);
      LastNotBelow(used, a, b);
      LastNotBelow(used, b, a);
      assert a == a[..n] + [a[n]] && b == b[..n] + [b[n]];
    }
  }

  lemma SmallestPrefix(used: set<nat>, a: seq<nat>, n: nat)
    requires Smallest(used, a) && n <= |a|
    ensures Smallest(used, a[..n])
  {
    forall i, x: nat | 0 <= i < n && 0 < x < a[i] && x !in used ensures x in a[..n] {
      var j :| 0 <= j < |a| && a[j] == x;
      assert j < i;
    }
  }

  lemma LastNotBelow(used: set<nat>, a: seq<nat>, b: seq<nat>)
    requires Smallest(used, a) && Smallest(used, b) && |a| == |b| > 0 && a[..|a| - 1] == b[..|a| - 1]
    ensures b[|b| - 1] <= a[|a| - 1]
  {
    var n := |a| - 1;
    var x := a[n];
    forall j | 0 <= j < n ensures b[j] < x { assert b[j] == b[..n][j] == a[..n][j] == a[j]; }
    assert x in b || b[n] <= x;
  }

  /** Generating in one call or in two gives the same names. */
  lemma SmallestSplit(used: set<nat>, a: seq<nat>, b: seq<nat>)
    requires Smallest(used, a) && Smallest(used + Elements(a), b)
    ensures Smallest(used, a + b)
  {
    var c := a + b;
    forall i, j | 0 <= i < |a| && 0 <= j < |b| ensures a[i] < b[j] {
      assert a[i] in Elements(a);
      assert b[j] !in used + Elements(a) && b[j] !in a;
    }
    forall i, x: nat | 0 <= i < |c| && 0 < x < c[i] && x !in used ensures x in c {
      if x !in a && i >= |a| { assert x !in used + Elements(a); assert x in b; }
      if i < |a| { assert c[i] == a[i]; assert x in a; }
    }
  }

  /** A freed name is given out again before any larger one. */
  lemma FreedIsNext(used: set<nat>, id: nat, a: seq<nat>)
    requires 0 < id && id in used && Smallest(used - {id}, a) && a != []
    ensures a[0] <= id
  {
    if id < a[0] {
      var j :| 0 <= j < |a| && a[j] == id;
    }
  }
}
