/** Texture layout in texmanager.c: rows of texels into 8x8 tiles in Morton order, upside down. */
module TextureTiling {
  import opened Arithmetic

  // ---------- where a texel goes ----------

  /** x & j for a power of two j. */
  function Bit(x: nat, j: nat): nat
    requires j > 0
  {
    x / j % 2 * j
  }

  lemma AndIsBit(x: bv32)
    ensures x & 1 == x % 2 && x & 2 == x / 2 % 2 * 2 && x & 4 == x / 4 % 2 * 4
  {}

  /** Morton order in a tile: the bits of x and y interleaved. */
  function Swizzle(x: nat, y: nat): (t: nat)
    ensures t < 64
  {
    x % 2 + y % 2 * 2 + x / 2 % 2 * 4 + y / 2 % 2 * 8 + x / 4 % 2 * 16 + y / 4 % 2 * 32
  }

  function SwizzleX(t: nat): (x: nat)
    ensures x < 8
  {
    t % 2 + t / 4 % 2 * 2 + t / 16 % 2 * 4
  }

  function SwizzleY(t: nat): (y: nat)
    ensures y < 8
  {
    t / 2 % 2 + t / 8 % 2 * 2 + t / 32 % 2 * 4
  }

  lemma DivIs(a: nat, k: nat, q: nat, r: nat)
    requires k == 2 || k == 4 || k == 8 || k == 16 || k == 32
    requires r < k && a == k * q + r
    ensures a / k == q && a % k == r
  {
    if k == 2 { assert a == 2 * q + r; }
    else if k == 4 { assert a == 4 * q + r; }
    else if k == 8 { assert a == 8 * q + r; }
    else if k == 16 { assert a == 16 * q + r; }
    else { assert a == 32 * q + r; }
  }

  lemma Bits3(x: nat)
    requires x < 8
    ensures x == x % 2 + x / 2 % 2 * 2 + x / 4 % 2 * 4
  {}

  lemma Bits6(a: nat, b: nat, c: nat, d: nat, e: nat, f: nat)
    requires a < 2 && b < 2 && c < 2 && d < 2 && e < 2 && f < 2
    ensures var t := a + 2 * b + 4 * c + 8 * d + 16 * e + 32 * f;
      t % 2 == a && t / 2 % 2 == b && t / 4 % 2 == c && t / 8 % 2 == d && t / 16 % 2 == e && t / 32 % 2 == f
  {
    var t := a + 2 * b + 4 * c + 8 * d + 16 * e + 32 * f;
    DivIs(t, 2, b + 2 * c + 4 * d + 8 * e + 16 * f, a);
    DivIs(t, 4, c + 2 * d + 4 * e + 8 * f, a + 2 * b);
    DivIs(t, 8, d + 2 * e + 4 * f, a + 2 * b + 4 * c);
    DivIs(t, 16, e + 2 * f, a + 2 * b + 4 * c + 8 * d);
    DivIs(t, 32, f, a + 2 * b + 4 * c + 8 * d + 16 * e);
  }

  lemma SwizzleInverse(x: nat, y: nat)
    ensures SwizzleX(Swizzle(x, y)) == x % 8 && SwizzleY(Swizzle(x, y)) == y % 8
  {
    Bits6(x % 2, y % 2, x / 2 % 2, y / 2 % 2, x / 4 % 2, y / 4 % 2);
    LowBits(x);
    LowBits(y);
  }

  lemma LowBits(x: nat)
    ensures x % 8 == x % 2 + x / 2 % 2 * 2 + x / 4 % 2 * 4
  {
    var h := x / 2;
    var g := h / 2;
    DivIs(x, 4, g, h % 2 * 2 + x % 2);
    DivIs(x, 8, g / 2, g % 2 * 4 + h % 2 * 2 + x % 2);
  }

  lemma SwizzleOnto(t: nat)
    requires t < 64
    ensures Swizzle(SwizzleX(t), SwizzleY(t)) == t
  {
    var a, b, c, d, e, f := t % 2, t / 2 % 2, t / 4 % 2, t / 8 % 2, t / 16 % 2, t / 32 % 2;
    SixBits(t);
    Bits3Of(a, c, e);
    Bits3Of(b, d, f);
  }

  lemma SixBits(t: nat)
    requires t < 64
    ensures t == t % 2 + 2 * (t / 2 % 2) + 4 * (t / 4 % 2) + 8 * (t / 8 % 2) + 16 * (t / 16 % 2) + 32 * (t / 32 % 2)
  {
    var u := t / 8;
    LowBits(t);
    Bits3(u);
    Halved(u, t);
    assert t == 8 * u + t % 8;
  }

  lemma Halved(u: nat, t: nat)
    requires u == t / 8
    ensures u / 2 == t / 16 && u / 4 == t / 32
  {
    DivIs(t, 16, u / 2, u % 2 * 8 + t % 8);
    DivIs(t, 32, u / 4, u % 4 * 8 + t % 8);
  }

  lemma Bits3Of(a: nat, b: nat, c: nat)
    requires a < 2 && b < 2 && c < 2
    ensures var x := a + 2 * b + 4 * c; x % 2 == a && x / 2 % 2 == b && x / 4 % 2 == c
  {}

  /** The tile of a texel, counted row by row; `tiles` tiles make a row. */
  function Tile(tiles: nat, x: nat, y: nat): nat { x / 8 + y / 8 * tiles }

  function Offset(tiles: nat, x: nat, y: nat): nat { Tile(tiles, x, y) * 64 + Swizzle(x, y) }

  function TileRow(tile: nat, tiles: nat): nat
    requires tiles > 0
  {
    tile / tiles
  }

  function OffsetX(tiles: nat, o: nat): nat
    requires tiles > 0
  {
    o / 64 % tiles * 8 + SwizzleX(o % 64)
  }

  function OffsetY(tiles: nat, o: nat): nat
    requires tiles > 0
  {
    TileRow(o / 64, tiles) * 8 + SwizzleY(o % 64)
  }

  /** The tile of a coordinate and its place in it, in binary. */
  predicate Digits(x: nat, q: nat, a: nat, b: nat, c: nat) {
    x / 8 == q && x % 2 == a && x / 2 % 2 == b && x / 4 % 2 == c
  }

  lemma DigitsOf(q: nat, a: nat, b: nat, c: nat)
    requires a < 2 && b < 2 && c < 2
    ensures Digits(8 * q + 4 * c + 2 * b + a, q, a, b, c)
  {
    var x := 8 * q + 4 * c + 2 * b + a;
    DivIs(x, 2, 4 * q + 2 * c + b, a);
    DivIs(4 * q + 2 * c + b, 2, 2 * q + c, b);
    DivIs(x, 4, 2 * q + c, 2 * b + a);
    DivIs(2 * q + c, 2, q, c);
    DivIs(x, 8, q, 4 * c + 2 * b + a);
  }

  lemma StepDigits(x: nat)
    ensures var q, b, c := x / 8, x / 2 % 2, x / 4 % 2;
      && (x % 2 == 0 ==> Digits(x, q, 0, b, c) && Digits(x + 1, q, 1, b, c))
      && (x % 4 == 0 ==> Digits(x, q, 0, 0, c) && Digits(x + 2, q, 0, 1, c))
      && (x % 8 == 0 ==> Digits(x, q, 0, 0, 0) && Digits(x + 4, q, 0, 0, 1) && Digits(x + 8, q + 1, 0, 0, 0))
  {
    hide Digits;
    var q, a, b, c := x / 8, x % 2, x / 2 % 2, x / 4 % 2;
    LowBits(x);
    assert x == 8 * q + 4 * c + 2 * b + a;
    DigitsOf(q, a, b, c);
    if a == 0 { DigitsOf(q, 1, b, c); }
    if x % 4 == 0 {
      DivIs(x, 4, 2 * q + c, 2 * b + a);
      DigitsOf(q, 0, 1, c);
    }
    if x % 8 == 0 {
      DigitsOf(q, 0, 0, 1);
      DigitsOf(q + 1, 0, 0, 0);
    }
  }

  lemma SwizzleDigits(x: nat, q: nat, a: nat, b: nat, c: nat, y: nat, r: nat, d: nat, e: nat, f: nat, tiles: nat)
    requires Digits(x, q, a, b, c) && Digits(y, r, d, e, f)
    ensures Offset(tiles, x, y) == (q + r * tiles) * 64 + a + 2 * d + 4 * b + 8 * e + 16 * c + 32 * f
  {}

  /** Z order: from the corner of a block of two, four or eight texels, a step of one, two or four to the
      right is 1, 4 or 16 places on; the next tile of the row is 64 on. */
  lemma ZOrderRight(tiles: nat, x: nat, y: nat)
    ensures x % 2 == 0 ==> Offset(tiles, x + 1, y) == Offset(tiles, x, y) + 1
    ensures x % 4 == 0 ==> Offset(tiles, x + 2, y) == Offset(tiles, x, y) + 4
    ensures x % 8 == 0 ==> Offset(tiles, x + 4, y) == Offset(tiles, x, y) + 16
    ensures x % 8 == 0 ==> Offset(tiles, x + 8, y) == Offset(tiles, x, y) + 64
  {
    hide Offset;
    var q, b, c, r, d, e, f := x / 8, x / 2 % 2, x / 4 % 2, y / 8, y % 2, y / 2 % 2, y / 4 % 2;
    StepDigits(x);
    hide Digits;
    assert Digits(y, r, d, e, f) by { YDigits(y); }
    if x % 2 == 0 { SwizzleDigits(x, q, 0, b, c, y, r, d, e, f, tiles); SwizzleDigits(x + 1, q, 1, b, c, y, r, d, e, f, tiles); }
    if x % 4 == 0 { SwizzleDigits(x, q, 0, 0, c, y, r, d, e, f, tiles); SwizzleDigits(x + 2, q, 0, 1, c, y, r, d, e, f, tiles); }
    if x % 8 == 0 {
      SwizzleDigits(x, q, 0, 0, 0, y, r, d, e, f, tiles);
      SwizzleDigits(x + 4, q, 0, 0, 1, y, r, d, e, f, tiles);
      SwizzleDigits(x + 8, q + 1, 0, 0, 0, y, r, d, e, f, tiles);
    }
  }

  lemma YDigits(y: nat)
    ensures Digits(y, y / 8, y % 2, y / 2 % 2, y / 4 % 2)
  {}

  /** A step down is 2, 8 or 32 places on; the next row of tiles follows the whole row. */
  lemma ZOrderDown(tiles: nat, x: nat, y: nat)
    ensures y % 2 == 0 ==> Offset(tiles, x, y + 1) == Offset(tiles, x, y) + 2
    ensures y % 4 == 0 ==> Offset(tiles, x, y + 2) == Offset(tiles, x, y) + 8
    ensures y % 8 == 0 ==> Offset(tiles, x, y + 4) == Offset(tiles, x, y) + 32
    ensures y % 8 == 0 ==> Offset(tiles, x, y + 8) == Offset(tiles, x, y) + 64 * tiles
    ensures Offset(tiles, 0, 0) == 0
  {
    hide Offset, Digits;
    var q, a, b, c, r, e, f := x / 8, x % 2, x / 2 % 2, x / 4 % 2, y / 8, y / 2 % 2, y / 4 % 2;
    StepDigits(y);
    YDigits(x);
    StepDigits(0);
    SwizzleDigits(0, 0, 0, 0, 0, 0, 0, 0, 0, 0, tiles);
    if y % 2 == 0 { SwizzleDigits(x, q, a, b, c, y, r, 0, e, f, tiles); SwizzleDigits(x, q, a, b, c, y + 1, r, 1, e, f, tiles); }
    if y % 4 == 0 { SwizzleDigits(x, q, a, b, c, y, r, 0, 0, f, tiles); SwizzleDigits(x, q, a, b, c, y + 2, r, 0, 1, f, tiles); }
    if y % 8 == 0 {
      SwizzleDigits(x, q, a, b, c, y, r, 0, 0, 0, tiles);
      SwizzleDigits(x, q, a, b, c, y + 4, r, 0, 0, 1, tiles);
      SwizzleDigits(x, q, a, b, c, y + 8, r + 1, 0, 0, 0, tiles);
      assert (r + 1) * tiles == r * tiles + tiles;
    }
  }

  /** The layout is one to one: a texel's place gives its coordinates back. */
  lemma OffsetInverse(tiles: nat, x: nat, y: nat)
    requires x < 8 * tiles
    ensures OffsetX(tiles, Offset(tiles, x, y)) == x && OffsetY(tiles, Offset(tiles, x, y)) == y
  {
    hide Swizzle, SwizzleX, SwizzleY;
    var o := Offset(tiles, x, y);
    assert o / 64 == Tile(tiles, x, y) && o % 64 == Swizzle(x, y);
    RowColumn(x / 8, y / 8, tiles);
    SwizzleInverse(x, y);
  }

  /** And onto: every place of a texture of 8*tiles by 8*rows texels is some texel's. */
  lemma OffsetOnto(tiles: nat, rows: nat, o: nat)
    requires o < 64 * (tiles * rows)
    ensures tiles > 0
    ensures var x, y := OffsetX(tiles, o), OffsetY(tiles, o); x < 8 * tiles && y < 8 * rows && Offset(tiles, x, y) == o
  {
    hide Swizzle, SwizzleX, SwizzleY;
    var tile := o / 64;
    PositiveFactor(tiles, rows);
    var a, b := tile % tiles, tile / tiles;
    assert tile == a + b * tiles by { assert tile == tiles * b + a; }
    assert b < rows by { if b >= rows { RowsBelow(b, rows, tiles); } }
    var x, y := OffsetX(tiles, o), OffsetY(tiles, o);
    SwizzleOnto(o % 64);
    SwizzleLow(x, SwizzleX(o % 64), a, y, SwizzleY(o % 64), b);
  }

  lemma PositiveFactor(a: nat, b: nat)
    requires a * b > 0
    ensures a > 0
  {}

  lemma RowsBelow(b: nat, rows: nat, tiles: nat)
    requires b >= rows
    ensures b * tiles >= tiles * rows
  {
    assert b * tiles == rows * tiles + (b - rows) * tiles;
    if b > rows { MulGrows(b - rows, tiles); }
  }

  lemma SwizzleLow(x: nat, u: nat, a: nat, y: nat, v: nat, b: nat)
    requires u < 8 && v < 8 && x == a * 8 + u && y == b * 8 + v
    ensures Swizzle(x, y) == Swizzle(u, v) && x / 8 == a && y / 8 == b
  {
    LowAgree(a, u);
    LowAgree(b, v);
  }

  lemma LowAgree(a: nat, u: nat)
    requires u < 8
    ensures var x := a * 8 + u; x % 2 == u % 2 && x / 2 % 2 == u / 2 % 2 && x / 4 % 2 == u / 4 % 2 && x / 8 == a
  {
    var x := a * 8 + u;
    DivIs(x, 8, a, u);
    DivIs(x, 2, 4 * a + u / 2, u % 2);
    DivIs(x, 4, 2 * a + u / 4, u % 4);
    DivIs(4 * a + u / 2, 2, 2 * a + u / 2 / 2, u / 2 % 2);
    DivIs(2 * a + u / 4, 2, a + u / 4 / 2, u / 4 % 2);
  }

  lemma OffsetBelow(tiles: nat, rows: nat, x: nat, y: nat)
    requires x < 8 * tiles && y < 8 * rows
    ensures Offset(tiles, x, y) < 64 * (tiles * rows)
  {
    hide Swizzle;
    TileBelow(tiles, rows, x / 8, y / 8);
  }

  lemma TileBelow(tiles: nat, rows: nat, a: nat, b: nat)
    requires a < tiles && b < rows
    ensures a + b * tiles < tiles * rows
  {
    RowsBelow(rows, b + 1, tiles);
    assert tiles * (b + 1) == b * tiles + tiles;
  }

  // ---------- tx_blockConvCopy ----------

  /** The loop over the three bits of a tile coordinate. */
  method Morton(x: nat, y: nat, tiles: nat) returns (offset: nat)
    ensures offset == Offset(tiles, x, y)
  {
    offset := (x / 8 + y / 8 * tiles) * 8 * 8;
    ghost var tile := offset;
    assert tile == Tile(tiles, x, y) * 64;
    var j := 1;
    while j < 8
      invariant j == 1 || j == 2 || j == 4 || j == 8
      invariant offset == tile + (if j > 1 then x % 2 + y % 2 * 2 else 0)
        + (if j > 2 then x / 2 % 2 * 4 + y / 2 % 2 * 8 else 0) + (if j > 4 then x / 4 % 2 * 16 + y / 4 % 2 * 32 else 0)
      decreases 8 - j
    {
      offset := offset + (Bit(x, j) + Bit(y, j) * 2) * j;
      j := 2 * j;
    }
  }

  /** The index of a texel in linear data. */
  function Linear(w: nat, x: nat, y: nat): nat {
    NonNegative(y, w);
    x + y * w
  }

  /** Texel (x, v) of the tiled texture is texel x of source row h - 1 - v: row 0 is at the bottom. */
  ghost predicate Placed(dst: seq<int>, src: seq<int>, tiles: nat, h: nat, x: nat, v: nat)
    requires v < h
  {
    && Offset(tiles, x, v) < |dst| && Linear(8 * tiles, x, h - 1 - v) < |src|
    && dst[Offset(tiles, x, v)] == src[Linear(8 * tiles, x, h - 1 - v)]
  }

  lemma PlacedStays(dst: seq<int>, src: seq<int>, tiles: nat, h: nat, x: nat, v: nat, a: nat, b: nat, t: int)
    requires v < h && b < h && a < 8 * tiles && x < 8 * tiles && (a != x || b != v)
    requires Placed(dst, src, tiles, h, x, v) && Offset(tiles, a, b) < |dst|
    ensures Placed(dst[Offset(tiles, a, b) := t], src, tiles, h, x, v)
  {
    hide Offset, OffsetX, OffsetY, Linear;
    OffsetInverse(tiles, x, v);
    OffsetInverse(tiles, a, b);
  }

  lemma LinearBelow(tiles: nat, rows: nat, x: nat, y: nat)
    requires x < 8 * tiles && y < 8 * rows
    ensures Linear(8 * tiles, x, y) < 64 * (tiles * rows)
  {
    RowsBelow(8 * rows, y + 1, 8 * tiles);
    assert 8 * tiles * (y + 1) == y * (8 * tiles) + 8 * tiles;
    assert 8 * rows * (8 * tiles) == 64 * (tiles * rows);
  }

  ghost predicate RowsPlaced(dst: seq<int>, src: seq<int>, tiles: nat, h: nat, lo: nat) {
    forall x: nat, v: nat :: x < 8 * tiles && lo <= v < h ==> Placed(dst, src, tiles, h, x, v)
  }

  ghost predicate RowPlaced(dst: seq<int>, src: seq<int>, tiles: nat, h: nat, v: nat, n: nat)
    requires v < h
  {
    forall x: nat :: x < n ==> Placed(dst, src, tiles, h, x, v)
  }

  lemma PlaceNext(dst: seq<int>, src: seq<int>, tiles: nat, rows: nat, x: nat, v: nat)
    requires x < 8 * tiles && v < 8 * rows && |dst| >= 64 * (tiles * rows) && |src| >= 64 * (tiles * rows)
    requires RowsPlaced(dst, src, tiles, 8 * rows, v + 1) && RowPlaced(dst, src, tiles, 8 * rows, v, x)
    ensures Offset(tiles, x, v) < 64 * (tiles * rows) && Linear(8 * tiles, x, 8 * rows - 1 - v) < 64 * (tiles * rows)
    ensures var next := dst[Offset(tiles, x, v) := src[Linear(8 * tiles, x, 8 * rows - 1 - v)]];
      RowsPlaced(next, src, tiles, 8 * rows, v + 1) && RowPlaced(next, src, tiles, 8 * rows, v, x + 1)
  {
    hide Offset, Linear;
    var h := 8 * rows;
    OffsetBelow(tiles, rows, x, v);
    LinearBelow(tiles, rows, x, h - 1 - v);
    var t := src[Linear(8 * tiles, x, h - 1 - v)];
    var next := dst[Offset(tiles, x, v) := t];
    forall a: nat, b: nat | a < 8 * tiles && v + 1 <= b < h ensures Placed(next, src, tiles, h, a, b) {
      PlacedStays(dst, src, tiles, h, a, b, x, v, t);
    }
    forall a: nat | a < x ensures Placed(next, src, tiles, h, a, v) {
      PlacedStays(dst, src, tiles, h, a, v, x, v, t);
    }
  }

  /** What every place of the tiled texture holds. */
  ghost predicate Tiled(dst: seq<int>, src: seq<int>, tiles: nat, rows: nat)
    requires |dst| >= 64 * (tiles * rows) && |src| >= 64 * (tiles * rows)
  {
    forall o: nat :: o < 64 * (tiles * rows) ==>
      tiles > 0 && OffsetY(tiles, o) < 8 * rows && Source(tiles, rows, o) < |src| && dst[o] == src[Source(tiles, rows, o)]
  }

  /** The source index of the texel at place o. */
  function Source(tiles: nat, rows: nat, o: nat): nat
    requires tiles > 0 && OffsetY(tiles, o) < 8 * rows
  {
    Linear(8 * tiles, OffsetX(tiles, o), 8 * rows - 1 - OffsetY(tiles, o))
  }

  lemma AllPlaced(dst: seq<int>, src: seq<int>, tiles: nat, rows: nat)
    requires |dst| >= 64 * (tiles * rows) && |src| >= 64 * (tiles * rows) && RowsPlaced(dst, src, tiles, 8 * rows, 0)
    ensures Tiled(dst, src, tiles, rows)
  {
    hide Offset, OffsetX, OffsetY, Linear;
    forall o: nat | o < 64 * (tiles * rows)
      ensures tiles > 0 && OffsetY(tiles, o) < 8 * rows && Source(tiles, rows, o) < |src| && dst[o] == src[Source(tiles, rows, o)]
    {
      OffsetOnto(tiles, rows, o);
      assert Placed(dst, src, tiles, 8 * rows, OffsetX(tiles, o), OffsetY(tiles, o));
      LinearBelow(tiles, rows, OffsetX(tiles, o), 8 * rows - 1 - OffsetY(tiles, o));
    }
  }

  /** Told from the texels: column x of the row v from the bottom of the source lands at the offset of (x, v). */
  lemma TexelLands(dst: seq<int>, src: seq<int>, tiles: nat, rows: nat, x: nat, v: nat)
    requires |dst| >= 64 * (tiles * rows) && |src| >= 64 * (tiles * rows) && Tiled(dst, src, tiles, rows)
    requires x < 8 * tiles && v < 8 * rows
    ensures var o, i := Offset(tiles, x, v), x + (8 * rows - 1 - v) * (8 * tiles);
      o < |dst| && 0 <= i < |src| && dst[o] == src[i]
  {
    hide Offset, OffsetX, OffsetY;
    OffsetBelow(tiles, rows, x, v);
    OffsetInverse(tiles, x, v);
    LinearBelow(tiles, rows, x, 8 * rows - 1 - v);
  }

  lemma PatchBehind(s: seq<int>, at: nat, o: nat, t: int)
    requires at + o < |s|
    ensures s[at + o := t][at..] == s[at..][o := t]
  {}

  lemma Area(tiles: nat, rows: nat)
    ensures 8 * tiles * (8 * rows) == 64 * (tiles * rows)
  {}

  /** The innermost step: one texel of source row y, unless a range guard skips it. */
  method PlaceTexel(src: array<int>, from: nat, dst: array<int>, at: nat, tiles: nat, rows: nat, x: nat, y: nat)
    requires src != dst && src.Length >= from + 64 * (tiles * rows) && dst.Length >= at + 64 * (tiles * rows)
    requires x < 8 * tiles && y < 8 * rows
    requires RowsPlaced(dst[at..], src[from..], tiles, 8 * rows, 8 * rows - y)
    requires RowPlaced(dst[at..], src[from..], tiles, 8 * rows, 8 * rows - y - 1, x)
    modifies dst
    ensures RowsPlaced(dst[at..], src[from..], tiles, 8 * rows, 8 * rows - y)
    ensures RowPlaced(dst[at..], src[from..], tiles, 8 * rows, 8 * rows - y - 1, x + 1)
    ensures forall k :: 0 <= k < at || at + 64 * (tiles * rows) <= k < dst.Length ==> dst[k] == old(dst[k])
  {
    hide Offset, Linear, RowsPlaced, RowPlaced;
    Area(tiles, rows);
    var v := 8 * rows - y - 1;
    var offset := Morton(x, v, tiles);
    var locate := Linear(8 * tiles, x, y);
    PlaceNext(dst[at..], src[from..], tiles, rows, x, v);
    if offset < 8 * tiles * (8 * rows) && locate < 8 * tiles * (8 * rows) {
      PatchBehind(dst[..], at, offset, src[from + locate]);
      dst[at + offset] := src[from + locate];
    }
  }

  /** tx_blockConvCopy from linear data, unscaled, for formats of whole bytes: from texel `from` of one
      buffer to the texture at texel `at` of the other. */
  method BlockCopy(src: array<int>, from: nat, dst: array<int>, at: nat, tiles: nat, rows: nat)
    requires src != dst && src.Length >= from + 64 * (tiles * rows) && dst.Length >= at + 64 * (tiles * rows)
    modifies dst
    ensures Tiled(dst[at..], src[from..], tiles, rows)
    ensures forall k :: 0 <= k < at || at + 64 * (tiles * rows) <= k < dst.Length ==> dst[k] == old(dst[k])
  {
    hide Offset, Placed, Tiled, Linear, RowsPlaced, RowPlaced;
    var w, h := 8 * tiles, 8 * rows;
    ghost var size := 64 * (tiles * rows);
    var y := 0;
    NoRows(dst[at..], src[from..], tiles, h);
    while y < h
      invariant y <= h && RowsPlaced(dst[at..], src[from..], tiles, h, h - y)
      invariant forall k :: 0 <= k < at || at + size <= k < dst.Length ==> dst[k] == old(dst[k])
    {
      var v := h - y - 1;
      var x := 0;
      NoTexels(dst[at..], src[from..], tiles, h, v);
      while x < w
        invariant x <= w && RowsPlaced(dst[at..], src[from..], tiles, h, v + 1)
        invariant RowPlaced(dst[at..], src[from..], tiles, h, v, x)
        invariant forall k :: 0 <= k < at || at + size <= k < dst.Length ==> dst[k] == old(dst[k])
      {
        PlaceTexel(src, from, dst, at, tiles, rows, x, y);
        x := x + 1;
      }
      RowDone(dst[at..], src[from..], tiles, h, v);
      y := y + 1;
    }
    AllPlaced(dst[at..], src[from..], tiles, rows);
  }

  lemma NoRows(dst: seq<int>, src: seq<int>, tiles: nat, h: nat)
    ensures RowsPlaced(dst, src, tiles, h, h)
  {}

  lemma NoTexels(dst: seq<int>, src: seq<int>, tiles: nat, h: nat, v: nat)
    requires v < h
    ensures RowPlaced(dst, src, tiles, h, v, 0)
  {}

  lemma RowDone(dst: seq<int>, src: seq<int>, tiles: nat, h: nat, v: nat)
    requires v < h && RowsPlaced(dst, src, tiles, h, v + 1) && RowPlaced(dst, src, tiles, h, v, 8 * tiles)
    ensures RowsPlaced(dst, src, tiles, h, v)
  {
    hide Placed;
  }

  // ---------- formats of four bits ----------

  /** The nibbles of a byte buffer, low nibble first. */
  function Nibbles(s: seq<int>): (r: seq<int>)
    ensures |r| == 2 * |s|
  {
    seq(2 * |s|, o requires 0 <= o < 2 * |s| => Half(s[o / 2], o % 2 == 1))
  }

  function Half(b: int, high: bool): int { if high then b / 16 else b % 16 }

  predicate Bytes(s: seq<int>) { forall i :: 0 <= i < |s| ==> 0 <= s[i] < 256 }

  /** `(dest & 0x0f) | (src & 0xf0)` for a high nibble, the other way round for a low one. */
  function Merge(dest: int, source: int, high: bool): int {
    if high then dest % 16 + source / 16 * 16 else dest / 16 * 16 + source % 16
  }

  lemma MergeHalves(dest: int, source: int, high: bool)
    requires 0 <= dest < 256 && 0 <= source < 256
    ensures var m := Merge(dest, source, high);
      0 <= m < 256 && Half(m, high) == Half(source, high) && Half(m, !high) == Half(dest, !high)
  {}

  lemma SameByte(k: nat, o: nat)
    requires k / 2 == o / 2 && k != o
    ensures (k % 2 == 1) == !(o % 2 == 1)
  {}

  lemma MergeNibble(dst: seq<int>, src: seq<int>, o: nat, l: nat)
    requires Bytes(dst) && Bytes(src) && o < 2 * |dst| && l < 2 * |src| && o % 2 == l % 2
    ensures var next := dst[o / 2 := Merge(dst[o / 2], src[l / 2], o % 2 == 1)];
      Bytes(next) && Nibbles(next) == Nibbles(dst)[o := Nibbles(src)[l]]
  {
    hide Half, Merge;
    MergeHalves(dst[o / 2], src[l / 2], o % 2 == 1);
    var next := dst[o / 2 := Merge(dst[o / 2], src[l / 2], o % 2 == 1)];
    forall k | 0 <= k < 2 * |dst| ensures Nibbles(next)[k] == Nibbles(dst)[o := Nibbles(src)[l]][k] {
      if k / 2 == o / 2 && k != o { SameByte(k, o); }
    }
  }

  lemma Parity(tiles: nat, x: nat, y: nat)
    ensures Offset(tiles, x, y) % 2 == x % 2 && Linear(8 * tiles, x, y) % 2 == x % 2
  {
    hide Tile;
    EvenPlus(32 * Tile(tiles, x, y) + (y % 2 + x / 2 % 2 * 2 + y / 2 % 2 * 4 + x / 4 % 2 * 8 + y / 4 % 2 * 16), x % 2);
    EvenRows(y, tiles);
    EvenPlus(MulNat(y, 4 * tiles), x);
  }

  lemma EvenRows(y: nat, tiles: nat)
    ensures y * (8 * tiles) == 2 * MulNat(y, 4 * tiles)
  {}

  lemma EvenPlus(k: nat, x: nat)
    ensures (2 * k + x) % 2 == x % 2
  {}

  lemma PatchByteBehind(s: seq<int>, at: nat, o: nat, t: int)
    requires at + o < |s|
    ensures s[at + o := t][at..] == s[at..][o := t] && s[at + o] == s[at..][o]
  {}

  lemma HalfFits(o: nat, n: nat, len: nat, at: nat)
    requires o < 64 * n && 2 * len >= 2 * at + 64 * n
    ensures at + o / 2 < len && o / 2 < 32 * n
  {}

  /** Half a byte from one buffer to the other. */
  method StoreNibble(src: array<int>, from: nat, dst: array<int>, at: nat, o: nat, l: nat, high: bool)
    requires src != dst && from + l / 2 < src.Length && at + o / 2 < dst.Length && o % 2 == l % 2 && high == (o % 2 == 1)
    requires Bytes(src[from..]) && Bytes(dst[at..])
    modifies dst
    ensures Bytes(dst[at..]) && Nibbles(dst[at..]) == Nibbles(old(dst[at..]))[o := Nibbles(src[from..])[l]]
    ensures forall k :: 0 <= k < dst.Length && k != at + o / 2 ==> dst[k] == old(dst[k])
  {
    hide Nibbles, Merge, Bytes;
    MergeNibble(dst[at..], src[from..], o, l);
    var t := Merge(dst[at + o / 2], src[from + l / 2], high);
    PatchByteBehind(dst[..], at, o / 2, t);
    dst[at + o / 2] := t;
  }

  /** The innermost step for L4 and A4: two texels share a byte, and x says which half. */
  method PlaceNibble(src: array<int>, from: nat, dst: array<int>, at: nat, tiles: nat, rows: nat, x: nat, y: nat)
    requires src != dst && 2 * src.Length >= 2 * from + 64 * (tiles * rows) && 2 * dst.Length >= 2 * at + 64 * (tiles * rows)
    requires x < 8 * tiles && y < 8 * rows && Bytes(src[from..]) && Bytes(dst[at..])
    requires RowsPlaced(Nibbles(dst[at..]), Nibbles(src[from..]), tiles, 8 * rows, 8 * rows - y)
    requires RowPlaced(Nibbles(dst[at..]), Nibbles(src[from..]), tiles, 8 * rows, 8 * rows - y - 1, x)
    modifies dst
    ensures Bytes(dst[at..])
    ensures RowsPlaced(Nibbles(dst[at..]), Nibbles(src[from..]), tiles, 8 * rows, 8 * rows - y)
    ensures RowPlaced(Nibbles(dst[at..]), Nibbles(src[from..]), tiles, 8 * rows, 8 * rows - y - 1, x + 1)
    ensures forall k :: 0 <= k < at || at + 32 * (tiles * rows) <= k < dst.Length ==> dst[k] == old(dst[k])
  {
    hide Offset, Linear, RowsPlaced, RowPlaced, Nibbles, Bytes;
    Area(tiles, rows);
    var v := 8 * rows - y - 1;
    var offset := Morton(x, v, tiles);
    var locate := Linear(8 * tiles, x, y);
    PlaceNext(Nibbles(dst[at..]), Nibbles(src[from..]), tiles, rows, x, v);
    Parity(tiles, x, v);
    Parity(tiles, x, y);
    if offset < 8 * tiles * (8 * rows) && locate < 8 * tiles * (8 * rows) {
      HalfFits(offset, tiles * rows, dst.Length, at);
      HalfFits(locate, tiles * rows, src.Length, from);
      StoreNibble(src, from, dst, at, offset, locate, x % 2 == 1);
    }
  }

  /** tx_blockConvCopy for L4 and A4, from byte `from` to byte `at`. */
  method BlockCopyNibbles(src: array<int>, from: nat, dst: array<int>, at: nat, tiles: nat, rows: nat)
    requires src != dst && 2 * src.Length >= 2 * from + 64 * (tiles * rows) && 2 * dst.Length >= 2 * at + 64 * (tiles * rows)
    requires Bytes(src[from..]) && Bytes(dst[at..])
    modifies dst
    ensures Bytes(dst[at..]) && Tiled(Nibbles(dst[at..]), Nibbles(src[from..]), tiles, rows)
    ensures forall k :: 0 <= k < at || at + 32 * (tiles * rows) <= k < dst.Length ==> dst[k] == old(dst[k])
  {
    hide Tiled, Nibbles, Bytes, RowsPlaced, RowPlaced;
    var w, h := 8 * tiles, 8 * rows;
    ghost var size := 32 * (tiles * rows);
    var y := 0;
    NoRows(Nibbles(dst[at..]), Nibbles(src[from..]), tiles, h);
    while y < h
      invariant y <= h && Bytes(dst[at..]) && RowsPlaced(Nibbles(dst[at..]), Nibbles(src[from..]), tiles, h, h - y)
      invariant forall k :: 0 <= k < at || at + size <= k < dst.Length ==> dst[k] == old(dst[k])
    {
      var v := h - y - 1;
      var x := 0;
      NoTexels(Nibbles(dst[at..]), Nibbles(src[from..]), tiles, h, v);
      while x < w
        invariant x <= w && Bytes(dst[at..]) && RowsPlaced(Nibbles(dst[at..]), Nibbles(src[from..]), tiles, h, v + 1)
        invariant RowPlaced(Nibbles(dst[at..]), Nibbles(src[from..]), tiles, h, v, x)
        invariant forall k :: 0 <= k < at || at + size <= k < dst.Length ==> dst[k] == old(dst[k])
      {
        PlaceNibble(src, from, dst, at, tiles, rows, x, y);
        x := x + 1;
      }
      RowDone(Nibbles(dst[at..]), Nibbles(src[from..]), tiles, h, v);
      y := y + 1;
    }
    AllPlaced(Nibbles(dst[at..]), Nibbles(src[from..]), tiles, rows);
  }
}
