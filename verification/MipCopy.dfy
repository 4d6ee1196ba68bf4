/** Copying a whole mip pyramid: the level loop of tx_texImage around tx_blockConvCopy, in texels. */
module MipCopy {
  import opened Arithmetic
  import opened MipLevels
  import opened TextureTiling

  /** Where level k starts, in texels. */
  function Start(w: nat, h: nat, k: nat): nat { LevelOffset(w, h, 8, k) }

  /** Level k consists of whole tiles. */
  predicate Tileable(w: nat, h: nat, k: nat) { Edge(w, k) % 8 == 0 && Edge(h, k) % 8 == 0 }

  lemma LevelTexels(w: nat, h: nat, k: nat)
    requires Tileable(w, h, k)
    ensures Start(w, h, k + 1) == Start(w, h, k) + 64 * (Edge(w, k) / 8 * (Edge(h, k) / 8))
  {
    hide Edge, LevelOffset;
    NextLevel(w, h, 8, k);
    var a, b := Edge(w, k) / 8, Edge(h, k) / 8;
    assert Edge(w, k) == 8 * a && Edge(h, k) == 8 * b;
    Area(a, b);
  }

  /** Level k of the texture holds level k of the source, tiled and upside down. */
  ghost predicate LevelTiled(dst: seq<int>, src: seq<int>, w: nat, h: nat, k: nat) {
    var at, tiles, rows := Start(w, h, k), Edge(w, k) / 8, Edge(h, k) / 8;
    && at + 64 * (tiles * rows) <= |dst| && at + 64 * (tiles * rows) <= |src|
    && Tiled(dst[at..], src[at..], tiles, rows)
  }

  lemma TiledSame(d: seq<int>, e: seq<int>, s: seq<int>, tiles: nat, rows: nat)
    requires |d| >= 64 * (tiles * rows) && |e| >= 64 * (tiles * rows) && |s| >= 64 * (tiles * rows)
    requires Tiled(d, s, tiles, rows) && forall i :: 0 <= i < 64 * (tiles * rows) ==> e[i] == d[i]
    ensures Tiled(e, s, tiles, rows)
  {
    hide OffsetX, OffsetY, Linear;
  }

  /** Writing behind a level leaves it as it is. */
  lemma LevelStays(d: seq<int>, e: seq<int>, src: seq<int>, w: nat, h: nat, k: nat)
    requires Tileable(w, h, k) && LevelTiled(d, src, w, h, k) && |e| == |d|
    requires forall i :: 0 <= i < Start(w, h, k + 1) && i < |d| ==> e[i] == d[i]
    ensures LevelTiled(e, src, w, h, k)
  {
    hide Tiled, Edge, LevelOffset, Start;
    LevelTexels(w, h, k);
    var at := Start(w, h, k);
    TiledSame(d[at..], e[at..], src[at..], Edge(w, k) / 8, Edge(h, k) / 8);
  }

  /** The level loop of tx_texImage: every level lands at its own offset, from the source level at the
      same offset, and nothing behind the last one is touched.  LevelsFill says that the levels
      are disjoint and leave no gap. */
  method CopyPyramid(src: array<int>, dst: array<int>, width: nat, height: nat, levels: nat)
    requires src != dst && forall k: nat :: k < levels ==> Tileable(width, height, k)
    requires src.Length >= Start(width, height, levels) && dst.Length >= Start(width, height, levels)
    modifies dst
    ensures forall k: nat :: k < levels ==> LevelTiled(dst[..], src[..], width, height, k)
    ensures forall i :: Start(width, height, levels) <= i < dst.Length ==> dst[i] == old(dst[i])
  {
    hide Edge, LevelOffset, Start, Tiled, LevelTiled, Tileable;
    StartNone(width, height);
    var w, h, offset, level := width, height, 0, 0;
    while level < levels
      invariant level <= levels && w == Edge(width, level) && h == Edge(height, level)
      invariant offset == Start(width, height, level)
      invariant forall k: nat :: k < level ==> LevelTiled(dst[..], src[..], width, height, k)
      invariant forall i :: offset <= i < dst.Length ==> dst[i] == old(dst[i])
    {
      CopyLevel(src, dst, offset, w, h, width, height, level, levels);
      NextLevel(width, height, 8, level);
      NextStart(width, height, level);
      offset := offset + MulNat(w, h);
      w, h := w / 2, h / 2;
      level := level + 1;
    }
  }

  lemma StartNone(w: nat, h: nat)
    ensures Edge(w, 0) == w && Edge(h, 0) == h && Start(w, h, 0) == 0
  {}

  lemma NextStart(w: nat, h: nat, k: nat)
    ensures Start(w, h, k + 1) == Start(w, h, k) + MulNat(Edge(w, k), Edge(h, k))
  {
    hide Edge;
  }

  lemma StartsGrow(w: nat, h: nat, j: nat, k: nat)
    requires j <= k
    ensures Start(w, h, j) <= Start(w, h, k)
  {
    OffsetsGrow(w, h, 8, j, k);
  }

  /** One round of the loop. */
  method CopyLevel(src: array<int>, dst: array<int>, offset: nat, w: nat, h: nat,
      ghost width: nat, ghost height: nat, ghost k: nat, ghost levels: nat)
    requires src != dst && k < levels && forall j: nat :: j < levels ==> Tileable(width, height, j)
    requires src.Length >= Start(width, height, levels) && dst.Length >= Start(width, height, levels)
    requires offset == Start(width, height, k) && w == Edge(width, k) && h == Edge(height, k)
    requires forall j: nat :: j < k ==> LevelTiled(dst[..], src[..], width, height, j)
    modifies dst
    ensures forall j: nat :: j <= k ==> LevelTiled(dst[..], src[..], width, height, j)
    ensures forall i :: Start(width, height, k + 1) <= i < dst.Length ==> dst[i] == old(dst[i])
  {
    hide Edge, LevelOffset, Start, Tiled, Tileable;
    LevelTexels(width, height, k);
    StartsGrow(width, height, k + 1, levels);
    ghost var before := dst[..];
    BlockCopy(src, offset, dst, offset, w / 8, h / 8);
    forall j: nat | j < k ensures LevelTiled(dst[..], src[..], width, height, j) {
      StartsGrow(width, height, j + 1, k);
      LevelStays(before, dst[..], src[..], width, height, j);
    }
  }
}
