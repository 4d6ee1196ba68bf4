/** The key-value storage of a ROM image: buckets of chained entries, found by hashing the key. */
module RomTable {
  import opened Wrappers

  /** STORAGE_FREEENTRY ends a chain. */
  const FREE: nat := 0xffff_ffff

  /** An entry: its key is the position of the parent directory and a name. */
  datatype Entry<V> = Entry(parent: nat, name: string, value: V, next: nat)
  {
    predicate Matches(p: nat, n: string) { parent == p && name == n }
  }

  datatype Table<V> = Table(buckets: seq<nat>, entries: map<nat, Entry<V>>)

  function Rotate(v: bv32): bv32 { (v >> 5) | (v << 27) }

  /** A rotation: the low five bits become the high ones. */
  lemma RotateIs(v: bv32)
    ensures Rotate(v) == v / 32 + v % 32 * 0x800_0000
  {}

  /** The binary digits of a value, as far as they go into 32 bits. */
  function Word(n: nat): bv32 {
    if n == 0 then 0 else Word(n / 2) * 2 + (if n % 2 == 1 then 1 else 0)
  }

  /** EntryKey::Hash over the first n characters. */
  function HashOf(parent: nat, name: string, n: nat): bv32
    requires n <= |name|
  {
    if n == 0 then 123456789 ^ Word(parent) else Rotate(HashOf(parent, name, n - 1)) ^ Word(name[n - 1] as int)
  }

  lemma SomeWords()
    ensures Word(0xC) == 0xC && Word('a' as int) == 97 && Word('b' as int) == 98
  {
    assert Word(97) == 97 && Word(98) == 98;
    assert 'a' as int == 97 && 'b' as int == 98;
  }

  lemma HashStep(parent: nat, name: string, n: nat, h: bv32, c: bv32)
    requires 0 < n <= |name| && HashOf(parent, name, n - 1) == h && Word(name[n - 1] as int) == c
    ensures HashOf(parent, name, n) == (h / 32 + h % 32 * 0x800_0000) ^ c
  {
    hide Rotate, Word;
    RotateIs(h);
  }

  /** The root's key, and that of a file "ab" in it: each character is taken in after a rotation. */
  lemma HashExamples()
    ensures HashOf(0xC, "", 0) == 123456793
    ensures HashOf(0xC, "ab", 2) == 1312937618
  {
    hide Rotate, Word;
    SomeWords();
    HashStep(0xC, "ab", 1, 123456793, 97);
    HashStep(0xC, "ab", 2, 3359301129, 98);
  }

  method Hash(parent: nat, name: string) returns (v: bv32)
    ensures v == HashOf(parent, name, |name|)
  {
    hide Rotate, Word;
    v := 123456789 ^ Word(parent);
    var i := 0;
    while i < |name|
      invariant i <= |name| && v == HashOf(parent, name, i)
    {
      v := Rotate(v) ^ Word(name[i] as int);
      i := i + 1;
    }
  }

  function BucketOf(parent: nat, name: string, count: nat): (b: nat)
    requires count > 0
    ensures b < count
  {
    HashOf(parent, name, |name|) as nat % count
  }

  /** Position i of a chain; FREE behind its end. */
  function Link(chain: seq<nat>, i: nat): nat { if i < |chain| then chain[i] else FREE }

  /** Following the next links of `chain`. */
  ghost predicate ChainAt<V>(t: Table<V>, chain: seq<nat>) {
    forall i :: 0 <= i < |chain| ==>
      chain[i] in t.entries && chain[i] != FREE && t.entries[chain[i]].next == Link(chain, i + 1)
  }

  /** A well-formed image: every bucket heads a finite chain, every entry is in the chain of its
      hash, and no two entries have the same key. */
  ghost predicate WellFormed<V>(t: Table<V>, chains: seq<seq<nat>>) {
    && 0 < |t.buckets| == |chains|
    && (forall b :: 0 <= b < |chains| ==> t.buckets[b] == Link(chains[b], 0) && ChainAt(t, chains[b]))
    && (forall p <- t.entries :: p in chains[BucketOf(t.entries[p].parent, t.entries[p].name, |t.buckets|)])
    && (forall p, q :: p in t.entries && q in t.entries && t.entries[q].Matches(t.entries[p].parent, t.entries[p].name) ==> p == q)
  }

  /** The entry with a key, looked for among all entries. */
  ghost function Scan<V>(t: Table<V>, parent: nat, name: string): (r: Option<nat>)
    ensures r.Some? ==> r.value in t.entries && t.entries[r.value].Matches(parent, name)
    ensures r.None? ==> forall p <- t.entries :: !t.entries[p].Matches(parent, name)
  {
    if exists p :: p in t.entries && t.entries[p].Matches(parent, name) then
      var p :| p in t.entries && t.entries[p].Matches(parent, name);
      Some(p)
    else
      None
  }

  lemma ChainOf<V>(t: Table<V>, chains: seq<seq<nat>>, b: nat)
    requires WellFormed(t, chains) && b < |t.buckets|
    ensures b < |chains| && t.buckets[b] == Link(chains[b], 0) && ChainAt(t, chains[b])
  {}

  lemma FoundIsScan<V>(t: Table<V>, chains: seq<seq<nat>>, parent: nat, name: string, p: nat)
    requires WellFormed(t, chains) && p in t.entries && t.entries[p].Matches(parent, name)
    ensures Scan(t, parent, name) == Some(p)
  {
    hide BucketOf, ChainAt;
  }

  lemma NoneIsScan<V>(t: Table<V>, chains: seq<seq<nat>>, parent: nat, name: string)
    requires WellFormed(t, chains)
    requires forall p <- t.entries :: p in chains[BucketOf(parent, name, |t.buckets|)] ==> !t.entries[p].Matches(parent, name)
    ensures Scan(t, parent, name) == None
  {
    hide BucketOf, ChainAt;
  }

  /** FindInternal: the chain walk ends, and finds what a scan of all entries finds. */
  method FindInternal<V>(t: Table<V>, parent: nat, name: string, ghost chains: seq<seq<nat>>) returns (r: Option<nat>)
    requires WellFormed(t, chains)
    ensures r == Scan(t, parent, name)
  {
    hide HashOf, WellFormed, Scan;
    BucketsExist(t, chains);
    var v := Hash(parent, name);
    var bucket := v as nat % |t.buckets|;
    assert bucket == BucketOf(parent, name, |t.buckets|);
    ChainOf(t, chains, bucket);
    ghost var chain := chains[bucket];
    hide BucketOf;
    var pos := t.buckets[bucket];
    ghost var i := 0;
    while pos != FREE
      invariant i <= |chain| && pos == Link(chain, i)
      invariant forall k :: 0 <= k < i ==> !t.entries[chain[k]].Matches(parent, name)
      decreases |chain| - i
    {
      var e := t.entries[pos];
      if e.parent == parent && e.name == name {
        FoundIsScan(t, chains, parent, name, pos);
        return Some(pos);
      }
      pos := e.next;
      i := i + 1;
    }
    assert i == |chain|;
    NoneIsScan(t, chains, parent, name);
    return None;
  }

  lemma BucketsExist<V>(t: Table<V>, chains: seq<seq<nat>>)
    requires WellFormed(t, chains)
    ensures 0 < |t.buckets|
  {}
}
