/** Streams in LZ10 (format 0) and LZ11 (format 1), and what decoding them gives back. */
module LzEncoding {
  import opened LzDecoder

  /** A literal byte, or a copy of `len` bytes from `dist` bytes back. */
  datatype Token = Literal(b: int) | Match(len: nat, dist: nat)

  predicate ValidToken(fmt: nat, t: Token) {
    match t
    case Literal(b) => Byte(b)
    case Match(len, dist) => 1 <= dist <= 4096 && 3 <= len <= if fmt == 0 then 18 else 65808
  }

  predicate ValidTokens(fmt: nat, ts: seq<Token>) { forall i :: 0 <= i < |ts| ==> ValidToken(fmt, ts[i]) }

  // ---------- the meaning of a token list ----------

  function Size(t: Token): nat { if t.Literal? then 1 else t.len }

  function Total(ts: seq<Token>): nat { if ts == [] then 0 else Size(ts[0]) + Total(ts[1..]) }

  function Emit(out: seq<int>, t: Token): (r: seq<int>)
    requires t.Match? ==> 1 <= t.dist <= |out|
    ensures |r| == |out| + Size(t) && r[..|out|] == out
  {
    if t.Literal? then out + [t.b] else CopyMatch(out, t.len, t.dist)
  }

  function Expand(fmt: nat, out: seq<int>, ts: seq<Token>): (r: seq<int>)
    requires |out| >= 4096 && ValidTokens(fmt, ts)
    ensures |r| == |out| + Total(ts)
    decreases |ts|
  {
    if ts == [] then out else Expand(fmt, Emit(out, ts[0]), ts[1..])
  }

  // ---------- the encoding ----------

  function TokenBytes(fmt: nat, t: Token): seq<int>
    requires ValidToken(fmt, t)
  {
    if t.Literal? then
      [t.b]
    else
      var hi, lo := (t.dist - 1) / 256, (t.dist - 1) % 256;
      if fmt == 0 then [(t.len - 3) * 16 + hi, lo]
      else if t.len <= 16 then [(t.len - 1) * 16 + hi, lo]
      else if t.len <= 272 then
        var x := t.len - 17; [x / 16, x % 16 * 16 + hi, lo]
      else
        var x := t.len - 273; [0x10 + x / 4096, x / 16 % 256, x % 16 * 16 + hi, lo]
  }

  /** The shortest and the longest match of each form. */
  lemma TokenExtremes()
    ensures TokenBytes(0, Match(3, 1)) == [0x00, 0x00] && TokenBytes(0, Match(18, 4096)) == [0xFF, 0xFF]
    ensures TokenBytes(1, Match(3, 1)) == [0x20, 0x00] && TokenBytes(1, Match(16, 4096)) == [0xFF, 0xFF]
    ensures TokenBytes(1, Match(17, 1)) == [0x00, 0x00, 0x00] && TokenBytes(1, Match(272, 4096)) == [0x0F, 0xFF, 0xFF]
    ensures TokenBytes(1, Match(273, 1)) == [0x10, 0x00, 0x00, 0x00]
    ensures TokenBytes(1, Match(65808, 4096)) == [0x1F, 0xFF, 0xFF, 0xFF]
  {}

  function GroupBytes(fmt: nat, ts: seq<Token>): seq<int>
    requires ValidTokens(fmt, ts)
    decreases |ts|
  {
    if ts == [] then [] else TokenBytes(fmt, ts[0]) + GroupBytes(fmt, ts[1..])
  }

  function Bit(ts: seq<Token>, i: nat): nat { if i < |ts| && ts[i].Match? then 1 else 0 }

  /** The flag byte of a group once its first i flags have been shifted out. */
  function FlagsFrom(ts: seq<Token>, i: nat): nat {
    128 * Bit(ts, i) + 64 * Bit(ts, i + 1) + 32 * Bit(ts, i + 2) + 16 * Bit(ts, i + 3)
    + 8 * Bit(ts, i + 4) + 4 * Bit(ts, i + 5) + 2 * Bit(ts, i + 6) + Bit(ts, i + 7)
  }

  /** Groups of up to eight tokens, each behind its flag byte. */
  function Encode(fmt: nat, ts: seq<Token>): seq<int>
    requires ValidTokens(fmt, ts)
    decreases |ts|
  {
    if ts == [] then [] else
      var k := if |ts| < 8 then |ts| else 8;
      [FlagsFrom(ts[..k], 0)] + GroupBytes(fmt, ts[..k]) + Encode(fmt, ts[k..])
  }

  function HeaderBytes(fmt: nat, n: nat): seq<int> {
    if 0 < n < 0x100_0000 then
      [0x10 + fmt, n % 256, n / 0x100 % 256, n / 0x1_0000]
    else
      [0x10 + fmt, 0, 0, 0, n % 256, n / 0x100 % 256, n / 0x1_0000 % 256, n / 0x100_0000]
  }

  function Stream(fmt: nat, ts: seq<Token>): seq<int>
    requires ValidTokens(fmt, ts)
  {
    HeaderBytes(fmt, Total(ts)) + Encode(fmt, ts)
  }

  /** A literal and a match over it: header, flags from the high bit down, tokens. */
  lemma StreamExample()
    ensures Stream(0, [Literal(7), Match(3, 1)]) == [0x10, 4, 0, 0, 0x40, 7, 0x00, 0x00]
  {
    var ts := [Literal(7), Match(3, 1)];
    assert ts[..2] == ts && ts[2..] == [] && ts[1..] == [Match(3, 1)] && ts[1..][1..] == [];
    assert Total(ts) == 4;
    assert FlagsFrom(ts, 0) == 0x40;
    assert GroupBytes(0, ts) == [7] + (TokenBytes(0, Match(3, 1)) + []);
  }

  // ---------- one token ----------

  /** A context inside a stream, between two tokens. */
  predicate Between(c: Ctx, fmt: nat) {
    c.Valid() && c.headerSize == 0 && c.exFormat == fmt && c.lengthFlg == 3 && c.destCount > 0
  }

  lemma FeedCons(c: Ctx, b: int, rest: seq<int>)
    requires c.Valid() && Byte(b) && Bytes(rest)
    ensures Bytes([b] + rest)
    ensures Feed(c, [b] + rest) == if Step(c, b).Err? then Step(c, b) else (StepValid(c, b); Feed(Step(c, b).ctx, rest))
  {
    assert ([b] + rest)[1..] == rest;
  }

  lemma TokenIsBytes(fmt: nat, t: Token)
    requires fmt <= 1 && ValidToken(fmt, t)
    ensures Bytes(TokenBytes(fmt, t))
  {}

  /** A context that awaits a byte of a length field. */
  predicate InLength(c: Ctx) {
    c.Valid() && c.headerSize == 0 && c.destCount > 0 && c.flagIndex > 0 && c.flags / 128 % 2 == 1 && c.lengthFlg > 0
  }

  lemma StepLength(c: Ctx, b: int)
    requires InLength(c) && Byte(b)
    ensures Step(c, b) == Ok(LengthStep(c, b)) && LengthStep(c, b).Valid()
    ensures LengthStep(c, b).lengthFlg > 0 ==> InLength(LengthStep(c, b))
  {}

  lemma LengthNibble(x: nat, hi: nat)
    requires x < 16 && hi < 16
    ensures (x * 16 + hi) / 16 == x && (x * 16 + hi) % 16 == hi && Byte(x * 16 + hi)
  {}

  lemma LengthShort(c: Ctx, fmt: nat, t: Token)
    requires fmt <= 1 && Between(c, fmt) && InLength(c) && ValidToken(fmt, t) && t.Match? && (fmt == 0 || t.len <= 16)
    ensures var bs := TokenBytes(fmt, t);
      Byte(bs[0]) && Step(c, bs[0]) == Ok(c.(length := t.len * 16 + (t.dist - 1) / 256, lengthFlg := 0))
  {
    LengthNibble(if fmt == 0 then t.len - 3 else t.len - 1, (t.dist - 1) / 256);
    StepLength(c, TokenBytes(fmt, t)[0]);
  }

  lemma LengthMiddle(c: Ctx, t: Token)
    requires Between(c, 1) && InLength(c) && ValidToken(1, t) && t.Match? && 17 <= t.len <= 272
    ensures var bs, x := TokenBytes(1, t), t.len - 17;
      Byte(bs[0]) && Byte(bs[1])
      && Step(c, bs[0]) == Ok(c.(length := x / 16 * 0x100 + 0x110, lengthFlg := 1))
      && LengthStep(Step(c, bs[0]).ctx, bs[1]) == c.(length := t.len * 16 + (t.dist - 1) / 256, lengthFlg := 0)
  {
    var x := t.len - 17;
    LengthNibble(0, x / 16);
    LengthNibble(x % 16, (t.dist - 1) / 256);
    StepLength(c, TokenBytes(1, t)[0]);
  }

  lemma LengthLong(c: Ctx, t: Token)
    requires Between(c, 1) && InLength(c) && ValidToken(1, t) && t.Match? && 273 <= t.len
    ensures var bs, x := TokenBytes(1, t), t.len - 273;
      Byte(bs[0]) && Byte(bs[1]) && Byte(bs[2])
      && Step(c, bs[0]) == Ok(c.(length := x / 4096 * 0x1_0000 + 0x1110, lengthFlg := 2))
      && LengthStep(Step(c, bs[0]).ctx, bs[1])
           == c.(length := x / 4096 * 0x1_0000 + 0x1110 + x / 16 % 256 * 0x100, lengthFlg := 1)
      && LengthStep(LengthStep(Step(c, bs[0]).ctx, bs[1]), bs[2])
           == c.(length := t.len * 16 + (t.dist - 1) / 256, lengthFlg := 0)
  {
    var x := t.len - 273;
    LengthNibble(1, x / 4096);
    LengthNibble(x % 16, (t.dist - 1) / 256);
    Digits(x);
    StepLength(c, TokenBytes(1, t)[0]);
  }

  lemma Digits(x: nat)
    requires x < 0x1_0000
    ensures x == 4096 * (x / 4096) + 16 * (x / 16 % 256) + x % 16 && x / 4096 < 16 && Byte(x / 16 % 256)
  {
    assert x / 16 == 256 * (x / 4096) + x / 16 % 256 by { assert x / 16 / 256 == x / 4096; }
  }

  /** Reading the length field of a match leaves its length and the high bits of its distance. */
  lemma FeedLength(c: Ctx, fmt: nat, t: Token)
    requires fmt <= 1 && Between(c, fmt) && InLength(c) && ValidToken(fmt, t) && t.Match?
    ensures var bs := TokenBytes(fmt, t); var k := |bs| - 1;
      Bytes(bs) && bs[k] == (t.dist - 1) % 256
      && Feed(c, bs[..k]) == Ok(c.(length := t.len * 16 + (t.dist - 1) / 256, lengthFlg := 0))
  {
    hide Ctx.Valid, Step, LengthStep, Feed;
    TokenIsBytes(fmt, t);
    var bs := TokenBytes(fmt, t);
    if fmt == 0 || t.len <= 16 {
      LengthShort(c, fmt, t);
      FeedOne(c, bs[0]);
      assert bs[..1] == [bs[0]];
    } else if t.len <= 272 {
      LengthMiddle(c, t);
      StepLength(c, bs[0]);
      StepLength(Step(c, bs[0]).ctx, bs[1]);
      FeedTwo(c, bs[0], bs[1]);
      assert bs[..2] == [bs[0], bs[1]];
    } else {
      LengthLong(c, t);
      StepLength(c, bs[0]);
      StepLength(Step(c, bs[0]).ctx, bs[1]);
      StepLength(LengthStep(Step(c, bs[0]).ctx, bs[1]), bs[2]);
      FeedThree(c, bs[0], bs[1], bs[2]);
      assert bs[..3] == [bs[0], bs[1], bs[2]];
    }
  }

  lemma FeedTwo(c: Ctx, a: int, b: int)
    requires c.Valid() && Byte(a) && Byte(b) && Step(c, a).Ok?
    ensures Step(c, a).ctx.Valid() && Feed(c, [a, b]) == Step(Step(c, a).ctx, b)
  {
    hide Step, Ctx.Valid;
    StepValid(c, a);
    FeedOne(Step(c, a).ctx, b);
    FeedCons(c, a, [b]);
    assert [a] + [b] == [a, b];
  }

  lemma FeedThree(c: Ctx, a: int, b: int, d: int)
    requires c.Valid() && Byte(a) && Byte(b) && Byte(d) && Step(c, a).Ok?
    requires (StepValid(c, a); Step(Step(c, a).ctx, b).Ok?)
    ensures Step(c, a).ctx.Valid() && Step(Step(c, a).ctx, b).ctx.Valid()
    ensures Feed(c, [a, b, d]) == Step(Step(Step(c, a).ctx, b).ctx, d)
  {
    hide Step, Ctx.Valid;
    StepValid(c, a);
    StepValid(Step(c, a).ctx, b);
    FeedTwo(Step(c, a).ctx, b, d);
    FeedCons(c, a, [b, d]);
    assert [a] + [b, d] == [a, b, d];
  }

  lemma {:induction false} CopyPrefix(out: seq<int>, m: nat, n: nat, dist: nat)
    requires 1 <= dist <= |out| && m <= n
    ensures CopyMatch(out, m, dist) == CopyMatch(out, n, dist)[..|out| + m]
    decreases n
  {
    if m < n { CopyPrefix(out, m, n - 1, dist); }
  }

  function Min(a: int, b: int): int { if a < b then a else b }

  /** The context behind a token of which only `n` bytes may have been wanted. */
  function After(c: Ctx, t: Token, n: nat): Ctx
    requires (t.Match? ==> 1 <= t.dist <= |c.out|) && n <= Size(t)
  {
    NextFlag(c.(out := Emit(c.out, t)[..|c.out| + n], destCount := c.destCount - n,
                length := if t.Match? then 0 else c.length))
  }

  /** Decoding an encoded token emits it, cut at the bytes still wanted. */
  lemma FeedToken(c: Ctx, fmt: nat, t: Token)
    requires fmt <= 1 && Between(c, fmt) && 0 < c.flagIndex && ValidToken(fmt, t)
    requires c.flags / 128 % 2 == if t.Match? then 1 else 0
    requires Size(t) <= c.destCount || c.force != 0
    ensures Bytes(TokenBytes(fmt, t))
    ensures Feed(c, TokenBytes(fmt, t)) == Ok(After(c, t, Min(Size(t), c.destCount)))
  {
    hide Step, Feed, LengthStep, MatchStep, NextFlag;
    TokenIsBytes(fmt, t);
    if t.Literal? {
      FeedOne(c, t.b);
      StepLiteral(c, t.b);
    } else {
      var bs := TokenBytes(fmt, t);
      var k := |bs| - 1;
      FeedLength(c, fmt, t);
      assert bs == bs[..k] + [bs[k]];
      FeedConcat(c, bs[..k], [bs[k]]);
      FeedOffset(c, t);
    }
  }

  lemma StepLiteral(c: Ctx, b: int)
    requires Between(c, c.exFormat) && 0 < c.flagIndex && c.flags / 128 % 2 == 0 && Byte(b)
    ensures Step(c, b) == Ok(After(c, Literal(b), 1))
  {
    hide NextFlag;
    assert (c.out + [b])[..|c.out| + 1] == c.out + [b];
  }

  lemma StepOffset(c: Ctx, b: int)
    requires c.Valid() && c.headerSize == 0 && c.destCount > 0 && c.flagIndex > 0 && c.flags / 128 % 2 == 1
    requires c.lengthFlg == 0 && Byte(b)
    ensures Step(c, b) == MatchStep(c, b)
  {
    hide MatchStep;
  }

  lemma Unpack(len: nat, dist: nat)
    requires 1 <= dist <= 4096
    ensures var n := len * 16 + (dist - 1) / 256; n / 16 == len && n % 16 * 256 + (dist - 1) % 256 + 1 == dist
  {
    assert (dist - 1) / 256 < 16;
  }

  lemma FeedOffset(c: Ctx, t: Token)
    requires Between(c, c.exFormat) && 0 < c.flagIndex && c.flags / 128 % 2 == 1
    requires t.Match? && 1 <= t.dist <= 4096 && (t.len <= c.destCount || c.force != 0)
    ensures var d := c.(length := t.len * 16 + (t.dist - 1) / 256, lengthFlg := 0);
      Feed(d, [(t.dist - 1) % 256]) == Ok(After(c, t, Min(Size(t), c.destCount)))
  {
    hide Step, Feed, NextFlag, CopyMatch;
    var d := c.(length := t.len * 16 + (t.dist - 1) / 256, lengthFlg := 0);
    FeedOne(d, (t.dist - 1) % 256);
    StepOffset(d, (t.dist - 1) % 256);
    Unpack(t.len, t.dist);
    CopyPrefix(c.out, Min(t.len, c.destCount), t.len, t.dist);
    assert d.(lengthFlg := 3, length := 0) == c.(length := 0);
  }

  // ---------- a group of tokens ----------

  lemma FlagsShift(g: seq<Token>, i: nat)
    requires |g| <= 8 && i < |g|
    ensures FlagsFrom(g, i) < 256 && FlagsFrom(g, i) / 128 % 2 == Bit(g, i)
    ensures FlagsFrom(g, i) * 2 % 256 == FlagsFrom(g, i + 1)
  {
    TopBit(Bit(g, i), FlagsFrom(g, i) - 128 * Bit(g, i));
  }

  lemma TopBit(b: nat, rest: nat)
    requires b <= 1 && rest < 128
    ensures (128 * b + rest) / 128 % 2 == b && (128 * b + rest) * 2 % 256 == 2 * rest
  {}

  lemma ExpandGrows(fmt: nat, out: seq<int>, ts: seq<Token>)
    requires |out| >= 4096 && ValidTokens(fmt, ts)
    ensures Expand(fmt, out, ts)[..|out|] == out
    decreases |ts|
  {
    if ts != [] {
      var next := Emit(out, ts[0]);
      ExpandGrows(fmt, next, ts[1..]);
      assert Expand(fmt, next, ts[1..])[..|out|] == Expand(fmt, next, ts[1..])[..|next|][..|out|];
    }
  }

  lemma ExpandFirst(fmt: nat, out: seq<int>, ts: seq<Token>, n: nat)
    requires |out| >= 4096 && ValidTokens(fmt, ts) && ts != [] && n <= Size(ts[0])
    ensures Expand(fmt, out, ts)[..|out| + n] == Emit(out, ts[0])[..|out| + n]
  {
    var next := Emit(out, ts[0]);
    ExpandGrows(fmt, next, ts[1..]);
    var all := Expand(fmt, next, ts[1..]);
    assert all[..|out| + n] == all[..|next|][..|out| + n];
  }

  lemma {:induction false} GroupIsBytes(fmt: nat, ts: seq<Token>)
    requires fmt <= 1 && ValidTokens(fmt, ts)
    ensures Bytes(GroupBytes(fmt, ts))
    decreases |ts|
  {
    if ts != [] {
      TokenIsBytes(fmt, ts[0]);
      GroupIsBytes(fmt, ts[1..]);
    }
  }

  /** The context reached from c by the tokens ts, of which D bytes were wanted. */
  ghost predicate Emitted(c: Ctx, d: Ctx, fmt: nat, ts: seq<Token>)
    requires |c.out| >= 4096 && ValidTokens(fmt, ts) && c.destCount >= 0
  {
    var n := Min(Total(ts), c.destCount);
    && d.Valid() && d.headerSize == 0 && d.exFormat == c.exFormat && d.force == c.force && d.lengthFlg == c.lengthFlg
    && d.destCount == c.destCount - n && d.out == Expand(fmt, c.out, ts)[..|c.out| + n]
  }

  /** A context about to decode token i of group g. */
  predicate InGroup(c: Ctx, fmt: nat, g: seq<Token>, i: nat) {
    Between(c, fmt) && i <= |g| <= 8 && c.flagIndex == 8 - i && c.flags == FlagsFrom(g, i)
  }

  lemma AfterInGroup(c: Ctx, fmt: nat, g: seq<Token>, i: nat)
    requires fmt <= 1 && InGroup(c, fmt, g, i) && i < |g| && ValidToken(fmt, g[i])
    ensures var n := Min(Size(g[i]), c.destCount); var d := After(c, g[i], n);
      d.Valid() && d.destCount == c.destCount - n && d.out == Emit(c.out, g[i])[..|c.out| + n] && d.headerSize == 0
      && d.force == c.force && d.exFormat == c.exFormat && d.lengthFlg == 3
      && (d.destCount > 0 ==> InGroup(d, fmt, g, i + 1))
  {
    hide FlagsFrom, Emit;
    FlagsShift(g, i);
  }

  lemma {:induction false} FeedGroup(c: Ctx, fmt: nat, g: seq<Token>, i: nat)
    requires fmt <= 1 && InGroup(c, fmt, g, i) && ValidTokens(fmt, g)
    requires c.force != 0 || Total(g[i..]) <= c.destCount
    ensures Bytes(GroupBytes(fmt, g[i..]))
    ensures var r := Feed(c, GroupBytes(fmt, g[i..]));
      r.Ok? && Emitted(c, r.ctx, fmt, g[i..]) && (r.ctx.destCount > 0 ==> r.ctx.flagIndex == 8 - |g|)
    decreases |g| - i
  {
    hide Step, Feed, Emit, After, FlagsFrom, TokenBytes;
    GroupIsBytes(fmt, g[i..]);
    if i == |g| {
      GroupEnd(c, fmt, g);
    } else {
      GroupNext(c, fmt, g, i);
      var n := Min(Size(g[i]), c.destCount);
      var d := After(c, g[i], n);
      AfterInGroup(c, fmt, g, i);
      assert g[i..][0] == g[i] && g[i..][1..] == g[i + 1..];
      GroupIsBytes(fmt, g[i + 1..]);
      if d.destCount > 0 {
        FeedGroup(d, fmt, g, i + 1);
        EmittedMore(c, d, Feed(d, GroupBytes(fmt, g[i + 1..])).ctx, fmt, g[i..]);
      } else {
        FeedDone(d, GroupBytes(fmt, g[i + 1..]));
        EmittedLast(c, d, fmt, g[i..]);
      }
    }
  }

  lemma GroupEnd(c: Ctx, fmt: nat, g: seq<Token>)
    requires InGroup(c, fmt, g, |g|)
    ensures Feed(c, GroupBytes(fmt, g[|g|..])) == Ok(c) && Emitted(c, c, fmt, g[|g|..]) && c.flagIndex == 8 - |g|
  {
    assert g[|g|..] == [];
    assert c.out[..|c.out|] == c.out;
  }

  lemma GroupNext(c: Ctx, fmt: nat, g: seq<Token>, i: nat)
    requires fmt <= 1 && InGroup(c, fmt, g, i) && i < |g| && ValidTokens(fmt, g)
    requires c.force != 0 || Size(g[i]) <= c.destCount
    ensures After(c, g[i], Min(Size(g[i]), c.destCount)).Valid() && Bytes(GroupBytes(fmt, g[i..])) && Bytes(GroupBytes(fmt, g[i + 1..]))
    ensures Feed(c, GroupBytes(fmt, g[i..])) == Feed(After(c, g[i], Min(Size(g[i]), c.destCount)), GroupBytes(fmt, g[i + 1..]))
  {
    hide Step, Feed, Emit, After, FlagsFrom, TokenBytes;
    assert g[i..][0] == g[i] && g[i..][1..] == g[i + 1..];
    FlagsShift(g, i);
    FeedToken(c, fmt, g[i]);
    AfterInGroup(c, fmt, g, i);
    GroupIsBytes(fmt, g[i..]);
    GroupIsBytes(fmt, g[i + 1..]);
    FeedConcat(c, TokenBytes(fmt, g[i]), GroupBytes(fmt, g[i + 1..]));
  }

  lemma EmittedMore(c: Ctx, d: Ctx, e: Ctx, fmt: nat, ts: seq<Token>)
    requires |c.out| >= 4096 && ValidTokens(fmt, ts) && ts != [] && Size(ts[0]) < c.destCount && c.lengthFlg == 3
    requires d.out == Emit(c.out, ts[0])[..|c.out| + Size(ts[0])] && d.destCount == c.destCount - Size(ts[0])
    requires d.exFormat == c.exFormat && d.force == c.force && d.lengthFlg == 3 && Emitted(d, e, fmt, ts[1..])
    ensures Emitted(c, e, fmt, ts)
  {
    hide Emit, Ctx.Valid;
    assert d.out == Emit(c.out, ts[0]);
  }

  lemma EmittedLast(c: Ctx, d: Ctx, fmt: nat, ts: seq<Token>)
    requires |c.out| >= 4096 && ValidTokens(fmt, ts) && ts != [] && 0 < c.destCount <= Size(ts[0]) && c.lengthFlg == 3
    requires d.Valid() && d.headerSize == 0 && d.out == Emit(c.out, ts[0])[..|c.out| + c.destCount] && d.destCount == 0
    requires d.exFormat == c.exFormat && d.force == c.force && d.lengthFlg == 3
    ensures Emitted(c, d, fmt, ts)
  {
    hide Emit, Expand, Ctx.Valid;
    ExpandFirst(fmt, c.out, ts, c.destCount);
  }

  // ---------- whole streams ----------

  lemma {:induction false} EncodeIsBytes(fmt: nat, ts: seq<Token>)
    requires fmt <= 1 && ValidTokens(fmt, ts)
    ensures Bytes(Encode(fmt, ts))
    decreases |ts|
  {
    if ts != [] {
      var k := if |ts| < 8 then |ts| else 8;
      FlagsShift(ts[..k], 0);
      GroupIsBytes(fmt, ts[..k]);
      EncodeIsBytes(fmt, ts[k..]);
    }
  }

  lemma {:induction false} TotalConcat(a: seq<Token>, b: seq<Token>)
    ensures Total(a + b) == Total(a) + Total(b)
  {
    if a == [] { assert a + b == b; } else {
      assert (a + b)[1..] == a[1..] + b;
      TotalConcat(a[1..], b);
    }
  }

  lemma {:induction false} ExpandConcat(fmt: nat, out: seq<int>, a: seq<Token>, b: seq<Token>)
    requires |out| >= 4096 && ValidTokens(fmt, a) && ValidTokens(fmt, b)
    ensures Expand(fmt, out, a + b) == Expand(fmt, Expand(fmt, out, a), b)
    decreases |a|
  {
    if a == [] { assert a + b == b; } else {
      assert (a + b)[1..] == a[1..] + b;
      ExpandConcat(fmt, Emit(out, a[0]), a[1..], b);
    }
  }

  lemma {:induction false} TotalAtLeast(fmt: nat, ts: seq<Token>)
    requires ValidTokens(fmt, ts)
    ensures Total(ts) >= |ts|
  {
    if ts != [] { TotalAtLeast(fmt, ts[1..]); }
  }

  /** The flag byte and the tokens of the first group. */
  lemma FeedFirst(c: Ctx, fmt: nat, g: seq<Token>)
    requires fmt <= 1 && Between(c, fmt) && c.flagIndex == 0 && ValidTokens(fmt, g) && 0 < |g| <= 8
    requires c.force != 0 || Total(g) <= c.destCount
    ensures Bytes([FlagsFrom(g, 0)] + GroupBytes(fmt, g))
    ensures var r := Feed(c, [FlagsFrom(g, 0)] + GroupBytes(fmt, g));
      r.Ok? && Emitted(c, r.ctx, fmt, g) && (r.ctx.destCount > 0 ==> r.ctx.flagIndex == 8 - |g|)
  {
    hide Feed, FlagsFrom, GroupBytes, Expand, Total;
    FlagsShift(g, 0);
    GroupIsBytes(fmt, g);
    FeedCons(c, FlagsFrom(g, 0), GroupBytes(fmt, g));
    assert g[0..] == g;
    FeedGroup(Step(c, FlagsFrom(g, 0)).ctx, fmt, g, 0);
  }

  lemma {:induction false} FeedTokens(c: Ctx, fmt: nat, ts: seq<Token>)
    requires fmt <= 1 && Between(c, fmt) && c.flagIndex == 0 && ValidTokens(fmt, ts)
    requires c.destCount <= Total(ts) && (c.force != 0 || Total(ts) == c.destCount)
    ensures Bytes(Encode(fmt, ts)) && Feed(c, Encode(fmt, ts)).Ok? && Emitted(c, Feed(c, Encode(fmt, ts)).ctx, fmt, ts)
    decreases |ts|
  {
    hide Feed, FlagsFrom, GroupBytes, Expand;
    var k := if |ts| < 8 then |ts| else 8;
    var g, rest := ts[..k], ts[k..];
    assert ts == g + rest;
    TotalConcat(g, rest);
    ExpandConcat(fmt, c.out, g, rest);
    FeedFirst(c, fmt, g);
    EncodeIsBytes(fmt, rest);
    FeedConcat(c, [FlagsFrom(g, 0)] + GroupBytes(fmt, g), Encode(fmt, rest));
    var d := Feed(c, [FlagsFrom(g, 0)] + GroupBytes(fmt, g)).ctx;
    if d.destCount > 0 {
      assert d.out == Expand(fmt, c.out, g);
      FeedTokens(d, fmt, rest);
    } else {
      FeedDone(d, Encode(fmt, rest));
      ExpandGrows(fmt, Expand(fmt, c.out, g), rest);
      var all, part := Expand(fmt, c.out, ts), Expand(fmt, c.out, g);
      assert all[..|c.out| + c.destCount] == all[..|part|][..|c.out| + c.destCount];
    }
  }

  // ---------- the header ----------

  function Read32Le(p: seq<int>, i: nat): int
    requires i + 4 <= |p|
  {
    p[i] + 0x100 * p[i + 1] + 0x1_0000 * p[i + 2] + 0x100_0000 * p[i + 3]
  }

  /** GetUncompressedSize of cx_Uncompression.cpp: a u32.  It reads past the fourth byte only if it must. */
  function GetUncompressedSize(p: seq<int>): int
    requires |p| >= 4 && (Read32Le(p, 0) / 0x100 == 0 ==> |p| >= 8)
  {
    var size := Read32Le(p, 0) / 0x100;
    if size == 0 then Read32Le(p, 4) else size
  }

  function ToS32(n: int): int { if n < 0x8000_0000 then n else n - 0x1_0000_0000 }

  predicate GoodFormat(b: int) { b / 16 == 1 && b % 16 <= 1 }

  /** How many bytes the header takes. */
  function HeaderLength(p: seq<int>): nat
    requires |p| >= 4
  {
    if Read32Le(p, 0) / 0x100 == 0 then 8 else 4
  }

  function Forced(force: int, n: int): int { if 0 < force < n then force else n }

  lemma SizeBytes(p: seq<int>)
    requires |p| >= 4 && Bytes(p)
    ensures Read32Le(p, 0) / 0x100 == p[1] + 0x100 * p[2] + 0x1_0000 * p[3]
  {}

  /** The first four header bytes. */
  lemma FeedShortHeader(c: Ctx, p: seq<int>)
    requires c.Valid() && c.headerSize == 8 && |p| == 4 && Bytes(p) && GoodFormat(p[0])
    ensures var n := p[1] + 0x100 * p[2] + 0x1_0000 * p[3];
      Feed(c, p) == Ok(c.(exFormat := p[0] % 16, headerSize := if n > 0 then 0 else 4,
                          destCount := if n > 0 then Forced(c.force, n) else 0))
  {
    hide Feed, Ctx.Valid;
    var n := p[1] + 0x100 * p[2] + 0x1_0000 * p[3];
    var d := c.(exFormat := p[0] % 16, headerSize := 7);
    HeaderFirst(c, p[0]);
    HeaderByte(d, p[1]);
    HeaderByte(d.(headerSize := 6, destCount := p[1]), p[2]);
    HeaderByte(d.(headerSize := 5, destCount := p[1] + 0x100 * p[2]), p[3]);
    FeedThree(d, p[1], p[2], p[3]);
    FeedCons(c, p[0], [p[1], p[2], p[3]]);
    assert [p[0]] + [p[1], p[2], p[3]] == p;
  }

  lemma HeaderFirst(c: Ctx, b: int)
    requires c.Valid() && c.headerSize == 8 && Byte(b) && GoodFormat(b)
    ensures Step(c, b) == Ok(c.(exFormat := b % 16, headerSize := 7)) && c.destCount == 0
    ensures c.(exFormat := b % 16, headerSize := 7).Valid()
  {}

  /** Where a header byte after the first goes. */
  lemma HeaderByte(c: Ctx, b: int)
    requires c.Valid() && 1 <= c.headerSize <= 7 && Byte(b)
    ensures var h, k := c.headerSize - 1, if c.headerSize <= 4 then 4 - c.headerSize else 7 - c.headerSize;
      var d := OrByte(c.destCount, b, k);
      var rest := if h == 4 && d > 0 then 0 else h;
      Step(c, b) == Ok(c.(headerSize := rest, destCount := if rest == 0 then Forced(c.force, d) else d))
      && Step(c, b).ctx.Valid()
  {
    StepValid(c, b);
  }

  /** The four bytes of a size that did not fit in three. */
  lemma FeedLongHeader(c: Ctx, p: seq<int>)
    requires c.Valid() && c.headerSize == 4 && |p| == 4 && Bytes(p)
    ensures Feed(c, p) == Ok(c.(headerSize := 0, destCount := Forced(c.force, ToS32(Read32Le(p, 0)))))
  {
    hide Feed, Ctx.Valid;
    assert c.destCount == 0 by { HeaderZero(c); }
    var d := c.(headerSize := 3, destCount := p[0]);
    HeaderByte(c, p[0]);
    HeaderByte(d, p[1]);
    HeaderByte(d.(headerSize := 2, destCount := p[0] + 0x100 * p[1]), p[2]);
    HeaderByte(d.(headerSize := 1, destCount := p[0] + 0x100 * p[1] + 0x1_0000 * p[2]), p[3]);
    FeedThree(d, p[1], p[2], p[3]);
    FeedCons(c, p[0], [p[1], p[2], p[3]]);
    assert [p[0]] + [p[1], p[2], p[3]] == p;
  }

  lemma HeaderZero(c: Ctx)
    requires c.Valid() && c.headerSize == 4
    ensures c.destCount == 0
  {}

  /** For every input with a known format, the size the decoder reads is the one GetUncompressedSize
      reports, as an s32. */
  lemma HeaderAgrees(c: Ctx, p: seq<int>)
    requires c.Valid() && c.headerSize == 8 && Bytes(p) && |p| >= 4 && GoodFormat(p[0]) && |p| >= HeaderLength(p)
    ensures Feed(c, p[..HeaderLength(p)]) ==
      Ok(c.(exFormat := p[0] % 16, headerSize := 0, destCount := Forced(c.force, ToS32(GetUncompressedSize(p)))))
  {
    hide Feed;
    SizeBytes(p);
    FeedShortHeader(c, p[..4]);
    if HeaderLength(p) == 8 {
      var d := c.(exFormat := p[0] % 16, headerSize := 4, destCount := 0);
      FeedLongHeader(d, p[4..8]);
      FeedConcat(c, p[..4], p[4..8]);
      assert p[..4] + p[4..8] == p[..8];
    }
  }

  lemma HeaderSays(fmt: nat, n: nat, rest: seq<int>)
    requires fmt <= 1 && n < 0x8000_0000 && Bytes(rest)
    ensures var p := HeaderBytes(fmt, n) + rest;
      Bytes(p) && |p| >= 4 && GoodFormat(p[0]) && p[0] % 16 == fmt
      && HeaderLength(p) == |HeaderBytes(fmt, n)| && GetUncompressedSize(p) == n
  {
    DigitsLe(n);
    var p := HeaderBytes(fmt, n) + rest;
    assert forall i :: 0 <= i < |HeaderBytes(fmt, n)| ==> p[i] == HeaderBytes(fmt, n)[i];
    SizeBytes(HeaderBytes(fmt, n)[..4]);
  }

  lemma DigitsLe(n: nat)
    requires n < 0x8000_0000
    ensures n == n % 256 + 0x100 * (n / 0x100 % 256) + 0x1_0000 * (n / 0x1_0000 % 256) + 0x100_0000 * (n / 0x100_0000)
    ensures n < 0x100_0000 ==> n / 0x1_0000 % 256 == n / 0x1_0000 && n / 0x100_0000 == 0
    ensures n / 0x100_0000 < 128
  {
    assert n / 0x1_0000 == n / 0x100 / 256 && n / 0x100_0000 == n / 0x1_0000 / 256;
  }

  // ---------- the round trip ----------

  /** Decoding the stream of a token list writes exactly its expansion behind the memory that was
      there; with a forced size, exactly the beginning of it. */
  lemma RoundTrip(memory: seq<int>, fmt: nat, ts: seq<Token>, force: nat)
    requires |memory| >= 4096 && fmt <= 1 && ValidTokens(fmt, ts) && Total(ts) < 0x8000_0000
    ensures Bytes(Stream(fmt, ts)) && GetUncompressedSize(Stream(fmt, ts) + [0, 0, 0, 0]) == Total(ts)
    ensures var r, n := Feed(Init(memory).(force := force), Stream(fmt, ts)), Forced(force, Total(ts));
      r.Ok? && r.ctx.Done() && r.ctx.destCount == 0 && r.ctx.out == Expand(fmt, memory, ts)[..|memory| + n]
  {
    hide Feed, Encode, HeaderBytes, GetUncompressedSize, Step, Expand;
    var header, body := HeaderBytes(fmt, Total(ts)), Encode(fmt, ts);
    EncodeIsBytes(fmt, ts);
    HeaderSays(fmt, Total(ts), body);
    assert header + body + [0, 0, 0, 0] == header + (body + [0, 0, 0, 0]);
    HeaderSays(fmt, Total(ts), body + [0, 0, 0, 0]);
    var c := Init(memory).(force := force);
    HeaderAgrees(c, header + body);
    assert (header + body)[..|header|] == header;
    FeedConcat(c, header, body);
    var d := Feed(c, header).ctx;
    if d.destCount > 0 {
      FeedTokens(d, fmt, ts);
    } else {
      FeedDone(d, body);
      ExpandGrows(fmt, memory, ts);
    }
  }

  /** The same however the stream is cut into chunks. */
  lemma ChunkedRoundTrip(memory: seq<int>, fmt: nat, ts: seq<Token>, chunks: seq<seq<int>>)
    requires |memory| >= 4096 && fmt <= 1 && ValidTokens(fmt, ts) && Total(ts) < 0x8000_0000
    requires (forall i :: 0 <= i < |chunks| ==> Bytes(chunks[i])) && Concat(chunks) == Stream(fmt, ts)
    ensures var r := FeedAll(Init(memory), chunks); r.Ok? && r.ctx.Done() && r.ctx.out == Expand(fmt, memory, ts)
  {
    hide Feed, FeedAll, Expand, Stream;
    ChunkInvariance(Init(memory), chunks);
    RoundTrip(memory, fmt, ts, 0);
    assert Init(memory).(force := 0) == Init(memory);
    assert Expand(fmt, memory, ts)[..|memory| + Total(ts)] == Expand(fmt, memory, ts);
  }

  // ---------- without memory below ----------

  /** Every back reference stays within what has been written, `n` bytes so far. */
  predicate Backed(ts: seq<Token>, n: nat) {
    ts == [] || ((ts[0].Match? ==> 1 <= ts[0].dist <= n) && Backed(ts[1..], n + Size(ts[0])))
  }

  /** What a backed token list says by itself, behind `text`. */
  function Text(text: seq<int>, ts: seq<Token>): seq<int>
    requires Backed(ts, |text|)
    decreases |ts|
  {
    if ts == [] then text else Text(Emit(text, ts[0]), ts[1..])
  }

  lemma {:induction false} CopyLocal(memory: seq<int>, text: seq<int>, n: nat, dist: nat)
    requires 1 <= dist <= |text|
    ensures CopyMatch(memory + text, n, dist) == memory + CopyMatch(text, n, dist)
  {
    if n > 0 { CopyLocal(memory, text, n - 1, dist); }
  }

  /** The expansion of a backed token list does not look at the memory below. */
  lemma {:induction false} ExpandLocal(fmt: nat, memory: seq<int>, text: seq<int>, ts: seq<Token>)
    requires |memory| >= 4096 && ValidTokens(fmt, ts) && Backed(ts, |text|)
    ensures Expand(fmt, memory + text, ts) == memory + Text(text, ts)
    decreases |ts|
  {
    hide CopyMatch;
    if ts != [] {
      if ts[0].Match? {
        CopyLocal(memory, text, ts[0].len, ts[0].dist);
      } else {
        assert (memory + text) + [ts[0].b] == memory + (text + [ts[0].b]);
      }
      ExpandLocal(fmt, memory, Emit(text, ts[0]), ts[1..]);
    }
  }

  /** The bytes written for a backed token list are its text, whatever lies below the destination: the
      round trip needs no memory there, and holds at the start of an array. */
  lemma RoundTripAlone(memory: seq<int>, fmt: nat, ts: seq<Token>)
    requires |memory| >= 4096 && fmt <= 1 && ValidTokens(fmt, ts) && Total(ts) < 0x8000_0000 && Backed(ts, 0)
    ensures Bytes(Stream(fmt, ts))
    ensures var r := Feed(Init(memory), Stream(fmt, ts)); r.Ok? && r.ctx.Done() && r.ctx.out == memory + Text([], ts)
  {
    hide Feed, Expand, Stream, Text;
    RoundTrip(memory, fmt, ts, 0);
    assert Init(memory).(force := 0) == Init(memory) && memory + [] == memory;
    ExpandLocal(fmt, memory, [], ts);
    assert Expand(fmt, memory, ts)[..|memory| + Total(ts)] == Expand(fmt, memory, ts);
  }
}
