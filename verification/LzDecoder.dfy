/** The streaming LZ10/LZ11 decoder of cx_StreamingUncompression.cpp, seen as a machine that takes
    one byte at a time: every place where the source may return and be called again is a state. */
module LzDecoder {
  import opened Arithmetic

  /** UncompContextLZ.  `out` is the memory up to the write pointer: what has been written so far
      behind whatever lay below the destination buffer. */
  datatype Ctx = Ctx(
    out: seq<int>, destCount: int, force: int, length: nat, lengthFlg: nat,
    flags: nat, flagIndex: nat, headerSize: nat, exFormat: nat)
  {
    /** The longest back reference reaches 4096 bytes below the write pointer. */
    predicate Valid() {
      && |out| >= 4096 && headerSize <= 8 && lengthFlg <= 3 && exFormat <= 1
      && (headerSize > 0 ==> 0 <= destCount < HeaderBound(headerSize))
    }

    predicate Done() { headerSize == 0 && destCount <= 0 }
  }

  datatype Result = Ok(ctx: Ctx) | Err(code: int)

  predicate Byte(b: int) { 0 <= b < 256 }

  predicate Bytes(s: seq<int>) { forall i :: 0 <= i < |s| ==> Byte(s[i]) }

  /** What can have been read of the size while h header bytes are missing. */
  function HeaderBound(h: nat): nat {
    if h == 6 || h == 3 then 0x100 else if h == 5 || h == 2 then 0x1_0000 else if h == 1 then 0x100_0000 else 1
  }

  /** InitUncompContextLZ */
  function Init(memory: seq<int>): Ctx { Ctx(memory, 0, 0, 0, 3, 0, 0, 8, 0) }

  // ---------- one byte ----------

  /** `d |= b << 8 * k` on an s32: the bits are disjoint (OrIsSum), the top byte carries the sign. */
  function OrByte(d: int, b: int, k: nat): int {
    if k == 0 then d + b
    else if k == 1 then d + 0x100 * b
    else if k == 2 then d + 0x1_0000 * b
    else if b < 128 then d + 0x100_0000 * b
    else d + 0x100_0000 * (b - 256)
  }

  lemma OrIsSum(d: bv32, b: bv32)
    requires b < 256
    ensures d < 0x100 ==> d | (b << 8) == d + b * 0x100
    ensures d < 0x1_0000 ==> d | (b << 16) == d + b * 0x1_0000
    ensures d < 0x100_0000 ==> d | (b << 24) == d + b * 0x100_0000
  {}

  /** ReadHeader: byte 0 is the format, bytes 1 to 3 the size, bytes 4 to 7 the size if it was 0. */
  function HeaderStep(c: Ctx, b: int): Result
    requires c.headerSize > 0
  {
    if c.headerSize == 8 && (b / 16 != 1 || b % 16 > 1) then
      Err(-1)
    else
      var ex := if c.headerSize == 8 then b % 16 else c.exFormat;
      var h := c.headerSize - 1;
      var d := if h <= 3 then OrByte(c.destCount, b, 3 - h) else if h <= 6 then OrByte(c.destCount, b, 6 - h) else c.destCount;
      var rest := if h == 4 && d > 0 then 0 else h;
      Ok(c.(exFormat := ex, headerSize := rest, destCount := if rest == 0 && 0 < c.force < d then c.force else d))
  }

  /** A byte of a length field. */
  function LengthStep(c: Ctx, b: int): Ctx
    requires c.lengthFlg > 0 && Byte(b)
  {
    if c.exFormat == 0 then
      c.(length := b + 0x30, lengthFlg := 0)
    else if c.lengthFlg == 3 then
      if b / 16 == 1 then c.(length := b % 16 * 0x1_0000 + 0x1110, lengthFlg := 2)
      else if b / 16 == 0 then c.(length := b % 16 * 0x100 + 0x110, lengthFlg := 1)
      else c.(length := b + 0x10, lengthFlg := 0)
    else if c.lengthFlg == 2 then
      c.(length := c.length + b * 0x100, lengthFlg := 1)
    else
      c.(length := c.length + b, lengthFlg := 0)
  }

  /** The copying loop: one byte at a time, so that a copy may overlap what it writes. */
  function CopyMatch(out: seq<int>, n: nat, dist: nat): (r: seq<int>)
    requires 1 <= dist <= |out|
    ensures |r| == |out| + n && r[..|out|] == out
  {
    if n == 0 then out else
      var last := CopyMatch(out, n - 1, dist);
      last + [last[|last| - dist]]
  }

  /** After a literal or a match: the next flag, unless everything has been written. */
  function NextFlag(c: Ctx): Ctx {
    if c.destCount == 0 || c.flagIndex == 0 then c
    else c.(flags := c.flags * 2 % 256, flagIndex := c.flagIndex - 1)
  }

  /** The match that the offset byte b completes does not fit. */
  predicate Overlong(c: Ctx) { c.length / 16 > c.destCount && c.force == 0 }

  /** The copy of the match that the offset byte b completes. */
  function MatchCopy(c: Ctx, b: int): Ctx
    requires |c.out| >= 4096 && Byte(b) && c.destCount > 0
  {
    var offset, n := c.length % 16 * 256 + b + 1, c.length / 16;
    var m := if n > c.destCount then c.destCount else n;
    c.(out := CopyMatch(c.out, m, offset), destCount := c.destCount - m, length := 0, lengthFlg := 3)
  }

  function MatchStep(c: Ctx, b: int): Result
    requires |c.out| >= 4096 && Byte(b) && c.destCount > 0
  {
    if Overlong(c) then Err(-4) else Ok(NextFlag(MatchCopy(c, b)))
  }

  function Step(c: Ctx, b: int): (r: Result)
    requires c.Valid() && Byte(b)
  {
    if c.headerSize > 0 then HeaderStep(c, b)
    else if c.destCount <= 0 then Ok(c)
    else if c.flagIndex == 0 then Ok(c.(flags := b, flagIndex := 8))
    else if c.flags / 128 % 2 == 0 then Ok(NextFlag(c.(out := c.out + [b], destCount := c.destCount - 1)))
    else if c.lengthFlg > 0 then Ok(LengthStep(c, b))
    else MatchStep(c, b)
  }

  lemma StepValid(c: Ctx, b: int)
    requires c.Valid() && Byte(b)
    ensures Step(c, b).Ok? ==> Step(c, b).ctx.Valid()
  {}

  // ---------- a stream ----------

  /** Everything a stream does to a context, up to the first error. */
  function Feed(c: Ctx, data: seq<int>): (r: Result)
    requires c.Valid() && Bytes(data)
    ensures r.Ok? ==> r.ctx.Valid()
    decreases |data|
  {
    if data == [] then
      Ok(c)
    else
      StepValid(c, data[0]);
      var r := Step(c, data[0]);
      if r.Err? then r else Feed(r.ctx, data[1..])
  }

  /** Chunk invariance: cutting a stream anywhere, in the header, in a length field, before an offset
      byte, changes neither the context reached nor the bytes written. */
  lemma {:induction false} FeedConcat(c: Ctx, a: seq<int>, b: seq<int>)
    requires c.Valid() && Bytes(a) && Bytes(b)
    ensures Bytes(a + b)
    ensures Feed(c, a + b) == if Feed(c, a).Err? then Feed(c, a) else Feed(Feed(c, a).ctx, b)
    decreases |a|
  {
    hide Step, Ctx.Valid;
    if a == [] {
      assert a + b == b;
    } else {
      StepValid(c, a[0]);
      assert (a + b)[1..] == a[1..] + b;
      if Step(c, a[0]).Ok? { FeedConcat(Step(c, a[0]).ctx, a[1..], b); }
    }
  }

  /** A stream delivered in chunks. */
  function Concat(chunks: seq<seq<int>>): seq<int> { if chunks == [] then [] else chunks[0] + Concat(chunks[1..]) }

  function FeedAll(c: Ctx, chunks: seq<seq<int>>): (r: Result)
    requires c.Valid() && forall i :: 0 <= i < |chunks| ==> Bytes(chunks[i])
    decreases |chunks|
  {
    if chunks == [] then
      Ok(c)
    else
      var r := Feed(c, chunks[0]);
      if r.Err? then r else FeedAll(r.ctx, chunks[1..])
  }

  lemma {:induction false} ChunkInvariance(c: Ctx, chunks: seq<seq<int>>)
    requires c.Valid() && forall i :: 0 <= i < |chunks| ==> Bytes(chunks[i])
    ensures Bytes(Concat(chunks)) && FeedAll(c, chunks) == Feed(c, Concat(chunks))
    decreases |chunks|
  {
    hide Feed, Ctx.Valid;
    if chunks == [] {
      FeedNone(c);
    } else {
      ConcatBytes(chunks[1..]);
      FeedConcat(c, chunks[0], Concat(chunks[1..]));
      if Feed(c, chunks[0]).Ok? { ChunkInvariance(Feed(c, chunks[0]).ctx, chunks[1..]); }
    }
  }

  lemma {:induction false} ConcatBytes(chunks: seq<seq<int>>)
    requires forall i :: 0 <= i < |chunks| ==> Bytes(chunks[i])
    ensures Bytes(Concat(chunks))
  {
    if chunks != [] { ConcatBytes(chunks[1..]); }
  }

  lemma FeedNone(c: Ctx)
    requires c.Valid()
    ensures Feed(c, []) == Ok(c)
  {}

  lemma FeedOne(c: Ctx, b: int)
    requires c.Valid() && Byte(b)
    ensures Feed(c, [b]) == Step(c, b)
  {
    if Step(c, b).Ok? { assert [b][1..] == []; }
  }

  lemma {:induction false} FeedDone(c: Ctx, data: seq<int>)
    requires c.Valid() && c.Done() && Bytes(data)
    ensures Feed(c, data) == Ok(c)
    decreases |data|
  {
    if data != [] { FeedDone(c, data[1..]); }
  }

  // ---------- what every stream keeps ----------

  lemma StepConserves(c: Ctx, b: int)
    requires c.Valid() && c.headerSize == 0 && Byte(b) && Step(c, b).Ok?
    ensures var d := Step(c, b).ctx;
      && d.headerSize == 0 && d.force == c.force && |d.out| + d.destCount == |c.out| + c.destCount
      && |c.out| <= |d.out| && d.out[..|c.out|] == c.out && (0 <= c.destCount ==> 0 <= d.destCount)
  {}

  /** Whatever the stream holds: bytes written plus bytes missing stay the declared size, nothing
      already in memory changes, and no byte beyond the declared size is written. */
  lemma {:induction false} Conserved(c: Ctx, data: seq<int>)
    requires c.Valid() && c.headerSize == 0 && Bytes(data) && Feed(c, data).Ok?
    ensures var d := Feed(c, data).ctx;
      && d.headerSize == 0 && d.force == c.force && |d.out| + d.destCount == |c.out| + c.destCount
      && |c.out| <= |d.out| && d.out[..|c.out|] == c.out && (0 <= c.destCount ==> 0 <= d.destCount)
    decreases |data|
  {
    hide Step, Ctx.Valid;
    if data != [] {
      StepValid(c, data[0]);
      StepConserves(c, data[0]);
      var d := Step(c, data[0]).ctx;
      Conserved(d, data[1..]);
      assert Feed(d, data[1..]).ctx.out[..|c.out|] == Feed(d, data[1..]).ctx.out[..|d.out|][..|c.out|];
    }
  }

  lemma StepForced(c: Ctx, b: int)
    requires c.Valid() && Byte(b) && c.force != 0
    ensures Step(c, b).Err? ==> c.headerSize == 8 && Step(c, b).code == -1
    ensures Step(c, b).Ok? ==> Step(c, b).ctx.force == c.force && (c.headerSize < 8 ==> Step(c, b).ctx.headerSize < 8)
  {}

  /** With a forced size only a bad first byte is an error: overlong matches are cut instead. */
  lemma {:induction false} ForcedNeverFails(c: Ctx, data: seq<int>)
    requires c.Valid() && Bytes(data) && c.force != 0 && c.headerSize < 8
    ensures Feed(c, data).Ok?
    decreases |data|
  {
    hide Step, Ctx.Valid;
    if data != [] {
      StepForced(c, data[0]);
      StepValid(c, data[0]);
      ForcedNeverFails(Step(c, data[0]).ctx, data[1..]);
    }
  }

  /** Where byte i of a copy over distance d comes from, counted from the start of its period. */
  function Phase(i: nat, d: nat): (r: nat)
    requires d >= 1
    ensures r < d
  {
    i % d
  }

  /** Overlapping copies: the match repeats the last `dist` bytes with period `dist`. */
  lemma {:induction false} PeriodicExtension(out: seq<int>, n: nat, dist: nat, i: nat)
    requires 1 <= dist <= |out| && i < n
    ensures CopyMatch(out, n, dist)[|out| + i] == out[|out| - dist + Phase(i, dist)]
    decreases n, i
  {
    hide Phase;
    var last := CopyMatch(out, n - 1, dist);
    if i < n - 1 {
      PeriodicExtension(out, n - 1, dist, i);
    } else if i < dist {
      assert last[|out| - dist + i] == last[..|out|][|out| - dist + i];
      SmallPhase(i, dist);
    } else {
      PeriodicExtension(out, n - 1, dist, i - dist);
      PhaseStep(i, dist);
    }
  }

  lemma SmallPhase(i: nat, d: nat)
    requires i < d
    ensures Phase(i, d) == i
  {}

  lemma PhaseStep(i: nat, d: nat)
    requires 1 <= d <= i
    ensures Phase(i - d, d) == Phase(i, d)
  {
    var k := i / d - 1 - (i - d) / d;
    assert k * d == (i - d) % d - i % d by {
      assert i == i / d * d + i % d && i - d == (i - d) / d * d + (i - d) % d;
      assert k * d == i / d * d - d - (i - d) / d * d;
    }
    if k != 0 { MulGap(k, d); }
  }

  lemma MulGap(k: int, d: int)
    requires d >= 1 && k != 0
    ensures k * d >= d || k * d <= -d
  {
    if k > 1 {
      MulGrows(k, d);
    } else if k < -1 {
      MulGrows(-k, d);
      assert k * d == -((-k) * d);
    }
  }
}
