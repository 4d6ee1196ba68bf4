/** Where the levels of a mip pyramid lie: computed when a surface is sized (surface.c), when its
    levels are copied and when they are generated (texmanager.c). */
module MipLevels {
  import opened Arithmetic

  /** An edge after k halvings. */
  function Edge(w: nat, k: nat): nat { if k == 0 then w else Edge(w, k - 1) / 2 }

  /** The bytes of level k; `bits` is the size of a texel. */
  function LevelBytes(w: nat, h: nat, bits: nat, k: nat): nat { MulNat(MulNat(Edge(w, k), Edge(h, k)), bits) / 8 }

  function LevelOffset(w: nat, h: nat, bits: nat, k: nat): nat {
    if k == 0 then 0 else LevelOffset(w, h, bits, k - 1) + LevelBytes(w, h, bits, k - 1)
  }

  lemma NextLevel(w: nat, h: nat, bits: nat, k: nat)
    ensures Edge(w, k + 1) == Edge(w, k) / 2 && Edge(h, k + 1) == Edge(h, k) / 2
    ensures LevelOffset(w, h, bits, k + 1) == LevelOffset(w, h, bits, k) + MulNat(MulNat(Edge(w, k), Edge(h, k)), bits) / 8
  {}

  lemma FirstLevel(w: nat, h: nat, bits: nat)
    ensures Edge(w, 0) == w && Edge(h, 0) == h && LevelOffset(w, h, bits, 0) == 0
  {}

  predicate Big(w: nat, h: nat, k: nat) { Edge(w, k) >= 8 && Edge(h, k) >= 8 }

  /** How many of n levels are at least 8x8, looking from level i on. */
  function Counted(w: nat, h: nat, n: nat, i: nat): (k: nat)
    requires i <= n
    ensures i <= k <= n
    decreases n - i
  {
    if i < n && Big(w, h, i) then Counted(w, h, n, i + 1) else i
  }

  /** The size loop of __srf_initSurface. */
  method SurfaceSize(width: nat, height: nat, bits: nat, numLevels: nat) returns (size: nat)
    ensures size == LevelOffset(width, height, bits, Counted(width, height, numLevels, 0))
  {
    hide Edge, LevelOffset, MulNat;
    FirstLevel(width, height, bits);
    size := 0;
    var i, w, h := 0, width, height;
    while i < numLevels && w >= 8 && h >= 8
      invariant i <= numLevels && w == Edge(width, i) && h == Edge(height, i)
      invariant size == LevelOffset(width, height, bits, i)
      invariant Counted(width, height, numLevels, i) == Counted(width, height, numLevels, 0)
      decreases numLevels - i
    {
      NextLevel(width, height, bits, i);
      size := size + MulNat(MulNat(w, h), bits) / 8;
      i, w, h := i + 1, w / 2, h / 2;
    }
  }

  /** The level loop of tx_texImage: the offset each level is copied to. */
  method CopyOffsets(width: nat, height: nat, bits: nat, levels: nat) returns (offsets: seq<nat>)
    ensures |offsets| == levels && forall k :: 0 <= k < levels ==> offsets[k] == LevelOffset(width, height, bits, k)
  {
    hide Edge, LevelOffset, MulNat;
    FirstLevel(width, height, bits);
    offsets := [];
    var w, h, offset := width, height, 0;
    var level := 0;
    while level < levels
      invariant level <= levels == |offsets| + (levels - level) && w == Edge(width, level) && h == Edge(height, level)
      invariant offset == LevelOffset(width, height, bits, level)
      invariant forall k :: 0 <= k < level ==> offsets[k] == LevelOffset(width, height, bits, k)
    {
      NextLevel(width, height, bits, level);
      offsets := offsets + [offset];
      offset := offset + MulNat(MulNat(w, h), bits) / 8;
      w, h := w / 2, h / 2;
      level := level + 1;
    }
  }

  /** The request that makes level k + 1 from level k. */
  function Halving(base: nat, w: nat, h: nat, bits: nat, k: nat): Reduction {
    Reduction(base + LevelOffset(w, h, bits, k), base + LevelOffset(w, h, bits, k + 1), Edge(w, k), Edge(h, k))
  }

  /** A block copy request that halves a level. */
  datatype Reduction = Reduction(src: nat, dst: nat, w: nat, h: nat)

  /** tx_generateMipmap: each level is made from the one before. */
  method GenerateMipmap(base: nat, width: nat, height: nat, bits: nat, numLevels: nat) returns (requests: seq<Reduction>)
    requires numLevels > 0
    ensures |requests| == numLevels - 1
    ensures forall k :: 0 <= k < numLevels - 1 ==> requests[k] == Halving(base, width, height, bits, k)
  {
    hide Edge, LevelOffset, MulNat;
    FirstLevel(width, height, bits);
    requests := [];
    var src, w, h := base, width, height;
    var level := 1;
    while level < numLevels
      invariant 1 <= level <= numLevels && |requests| == level - 1
      invariant w == Edge(width, level - 1) && h == Edge(height, level - 1)
      invariant src == base + LevelOffset(width, height, bits, level - 1)
      invariant forall k :: 0 <= k < level - 1 ==> requests[k] == Halving(base, width, height, bits, k)
    {
      NextLevel(width, height, bits, level - 1);
      var dst := src + MulNat(MulNat(w, h), bits) / 8;
      requests := requests + [Reduction(src, dst, w, h)];
      src := dst;
      w, h := w / 2, h / 2;
      level := level + 1;
    }
  }

  /** A byte of level k. */
  predicate InLevel(w: nat, h: nat, bits: nat, k: nat, b: nat) {
    LevelOffset(w, h, bits, k) <= b < LevelOffset(w, h, bits, k + 1)
  }

  lemma {:induction false} OffsetsGrow(w: nat, h: nat, bits: nat, j: nat, k: nat)
    requires j <= k
    ensures LevelOffset(w, h, bits, j) <= LevelOffset(w, h, bits, k)
    decreases k
  {
    if j < k { OffsetsGrow(w, h, bits, j, k - 1); }
  }

  lemma {:induction false} LevelOf(w: nat, h: nat, bits: nat, n: nat, b: nat) returns (k: nat)
    requires b < LevelOffset(w, h, bits, n)
    ensures k < n && InLevel(w, h, bits, k, b)
    decreases n
  {
    if b >= LevelOffset(w, h, bits, n - 1) { k := n - 1; } else { k := LevelOf(w, h, bits, n - 1, b); }
  }

  /** Every byte of the surface belongs to exactly one level, and the levels fill the surface. */
  lemma LevelsFill(w: nat, h: nat, bits: nat, n: nat, b: nat)
    ensures b < LevelOffset(w, h, bits, n) <==> exists k :: 0 <= k < n && InLevel(w, h, bits, k, b)
    ensures forall j: nat, k: nat :: j < n && k < n && InLevel(w, h, bits, j, b) && InLevel(w, h, bits, k, b) ==> j == k
  {
    hide LevelOffset, InLevel;
    if b < LevelOffset(w, h, bits, n) { var k := LevelOf(w, h, bits, n, b); }
    forall k | 0 <= k < n && InLevel(w, h, bits, k, b) ensures b < LevelOffset(w, h, bits, n) {
      Within(w, h, bits, k, n, b);
    }
    forall j: nat, k: nat | j < n && k < n && InLevel(w, h, bits, j, b) && InLevel(w, h, bits, k, b) ensures j == k {
      if j < k { Apart(w, h, bits, j, k, b); }
      if k < j { Apart(w, h, bits, k, j, b); }
    }
  }

  lemma Within(w: nat, h: nat, bits: nat, k: nat, n: nat, b: nat)
    requires k < n && InLevel(w, h, bits, k, b)
    ensures b < LevelOffset(w, h, bits, n)
  {
    hide LevelOffset;
    OffsetsGrow(w, h, bits, k + 1, n);
  }

  lemma Apart(w: nat, h: nat, bits: nat, j: nat, k: nat, b: nat)
    requires j < k && InLevel(w, h, bits, j, b)
    ensures !InLevel(w, h, bits, k, b)
  {
    hide LevelOffset;
    OffsetsGrow(w, h, bits, j + 1, k);
  }

  /** Halving k times is dividing by 2^k. */
  function Pow2(k: nat): (p: nat)
    ensures p >= 1
  {
    if k == 0 then 1 else 2 * Pow2(k - 1)
  }

  lemma {:induction false} EdgeIs(w: nat, k: nat)
    ensures Edge(w, k) == w / Pow2(k)
  {
    if k > 0 {
      EdgeIs(w, k - 1);
      HalfQuotient(w, Pow2(k - 1));
    }
  }

  lemma HalfQuotient(w: nat, p: nat)
    requires p >= 1
    ensures w / p / 2 == w / (2 * p)
  {
    var q := w / p;
    var r, h := w % p, q / 2;
    assert w == p * q + r;
    assert q == 2 * h + q % 2;
    assert p * q == 2 * p * h + p * (q % 2) by { assert p * (2 * h + q % 2) == 2 * p * h + p * (q % 2); }
    var rest := p * (q % 2) + r;
    assert 0 <= rest < 2 * p by { if q % 2 == 0 { assert p * 0 == 0; } else { assert p * 1 == p; } }
    assert w == rest + h * (2 * p);
    RowColumn(rest, h, 2 * p);
  }

  /** The bytes a request reads, and those it writes: half the edges, a quarter of the texels. */
  predicate ReadsByte(r: Reduction, bits: nat, b: nat) { r.src <= b < r.src + MulNat(MulNat(r.w, r.h), bits) / 8 }

  predicate WritesByte(r: Reduction, bits: nat, b: nat) {
    r.dst <= b < r.dst + MulNat(MulNat(r.w / 2, r.h / 2), bits) / 8
  }

  /** Request k reads exactly the bytes of level k, of edges w / 2^k and h / 2^k, and writes exactly those of
      level k + 1. */
  lemma HalvingReaches(base: nat, w: nat, h: nat, bits: nat, k: nat, b: nat)
    ensures var r := Halving(base, w, h, bits, k);
      && (ReadsByte(r, bits, base + b) <==> InLevel(w, h, bits, k, b))
      && (WritesByte(r, bits, base + b) <==> InLevel(w, h, bits, k + 1, b))
      && r.w == w / Pow2(k) && r.h == h / Pow2(k)
  {
    hide Edge, LevelOffset, MulNat, Pow2;
    NextLevel(w, h, bits, k);
    NextLevel(w, h, bits, k + 1);
    EdgeIs(w, k);
    EdgeIs(h, k);
  }

  /** No request writes a byte that it or an earlier one reads. */
  lemma NeverOverwritten(base: nat, w: nat, h: nat, bits: nat, i: nat, j: nat, b: nat)
    requires i <= j
    ensures !(ReadsByte(Halving(base, w, h, bits, i), bits, base + b) && WritesByte(Halving(base, w, h, bits, j), bits, base + b))
  {
    hide Halving, ReadsByte, WritesByte, InLevel;
    HalvingReaches(base, w, h, bits, i, b);
    HalvingReaches(base, w, h, bits, j, b);
    if InLevel(w, h, bits, i, b) { Apart(w, h, bits, i, j + 1, b); }
  }

  lemma {:induction false} EdgesShrink(w: nat, j: nat, k: nat)
    requires j <= k
    ensures Edge(w, k) <= Edge(w, j)
    decreases k
  {
    if j < k { EdgesShrink(w, j, k - 1); }
  }

  /** The size loop counts all n levels exactly when the smallest one is still 8x8. */
  lemma {:induction false} CountsAll(w: nat, h: nat, n: nat, i: nat)
    requires i <= n && forall k: nat :: k < i ==> Big(w, h, k)
    ensures Counted(w, h, n, i) == n <==> (n == 0 || Big(w, h, n - 1))
    decreases n - i
  {
    hide Edge;
    if i < n && Big(w, h, i) {
      CountsAll(w, h, n, i + 1);
    } else if i < n {
      EdgesShrink(w, i, n - 1);
      EdgesShrink(h, i, n - 1);
    }
  }

  /** Where the size loop stops: all levels before it are at least 8x8, that one is not. */
  lemma {:induction false} CountedStops(w: nat, h: nat, n: nat, i: nat)
    requires i <= n
    ensures var c := Counted(w, h, n, i);
      (c > i ==> Big(w, h, c - 1)) && (c < n ==> !Big(w, h, c))
    decreases n - i
  {
    hide Big;
    if i < n && Big(w, h, i) { CountedStops(w, h, n, i + 1); }
  }

  lemma {:induction false} MulMonotone(a: nat, b: nat, c: nat, d: nat)
    requires a <= c && b <= d
    ensures MulNat(a, b) <= MulNat(c, d)
  {
    assert c * d == a * b + a * (d - b) + (c - a) * d;
    NonNegative(a, d - b);
    NonNegative(c - a, d);
  }

  /** A level an 8x8 level was halved into still has bytes. */
  lemma HalvedHasBytes(w: nat, h: nat, bits: nat, k: nat)
    requires k > 0 && Big(w, h, k - 1) && bits >= 4
    ensures LevelBytes(w, h, bits, k) > 0
  {
    hide MulNat;
    MulMonotone(4, 4, Edge(w, k), Edge(h, k));
    MulMonotone(16, 4, MulNat(Edge(w, k), Edge(h, k)), bits);
    assert MulNat(4, 4) == 4 * 4 && MulNat(16, 4) == 16 * 4;
  }

  /** From a level without bytes on, no level has any. */
  lemma {:induction false} NoBytesBeyond(w: nat, h: nat, bits: nat, j: nat, k: nat)
    requires j <= k && LevelBytes(w, h, bits, j) == 0
    ensures LevelOffset(w, h, bits, k) == LevelOffset(w, h, bits, j)
    decreases k
  {
    hide Edge, MulNat;
    if j < k {
      NoBytesBeyond(w, h, bits, j, k - 1);
      EdgesShrink(w, j, k - 1);
      EdgesShrink(h, j, k - 1);
      MulMonotone(Edge(w, k - 1), Edge(h, k - 1), Edge(w, j), Edge(h, j));
      MulMonotone(MulNat(Edge(w, k - 1), Edge(h, k - 1)), bits, MulNat(Edge(w, j), Edge(h, j)), bits);
    }
  }

  /** The surface ends where the copying and generating loops stop if and only if the smallest level
      is still 8x8, or not even the first one is and it has no bytes.  In every other case those
      loops go beyond the surface. */
  lemma SizesAgree(w: nat, h: nat, bits: nat, n: nat)
    requires bits >= 4
    ensures LevelOffset(w, h, bits, Counted(w, h, n, 0)) <= LevelOffset(w, h, bits, n)
    ensures LevelOffset(w, h, bits, Counted(w, h, n, 0)) == LevelOffset(w, h, bits, n)
       <==> n == 0 || Big(w, h, n - 1) || (!Big(w, h, 0) && LevelBytes(w, h, bits, 0) == 0)
  {
    hide Edge, LevelOffset, LevelBytes, Big, Counted;
    var c := Counted(w, h, n, 0);
    CountsAll(w, h, n, 0);
    CountedStops(w, h, n, 0);
    OffsetsGrow(w, h, bits, c, n);
    if c < n {
      if c == 0 {
        if LevelBytes(w, h, bits, 0) == 0 { NoBytesBeyond(w, h, bits, 0, n); }
      } else {
        HalvedHasBytes(w, h, bits, c);
        BigEarlier(w, h, c - 1);
      }
      NextOffset(w, h, bits, c);
      OffsetsGrow(w, h, bits, c + 1, n);
    }
  }

  lemma BigEarlier(w: nat, h: nat, k: nat)
    requires Big(w, h, k)
    ensures Big(w, h, 0)
  {
    EdgesShrink(w, 0, k);
    EdgesShrink(h, 0, k);
  }

  lemma NextOffset(w: nat, h: nat, bits: nat, k: nat)
    ensures LevelOffset(w, h, bits, k + 1) == LevelOffset(w, h, bits, k) + LevelBytes(w, h, bits, k)
  {}

  /** Two levels from 8x8 at four bits: 32 bytes of surface, 40 bytes of levels. */
  lemma LevelsBeyond()
    ensures LevelOffset(8, 8, 4, Counted(8, 8, 2, 0)) == 32 < 40 == LevelOffset(8, 8, 4, 2)
  {
    assert Edge(8, 1) == 4;
    assert Counted(8, 8, 2, 0) == 1;
    assert MulNat(MulNat(8, 8), 4) == 256 && MulNat(MulNat(4, 4), 4) == 64;
    assert LevelOffset(8, 8, 4, 1) == 32;
  }
}
