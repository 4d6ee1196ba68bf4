/** What ReadUncompLZ returns while a valid stream comes in. */
module LzCodes {
  import opened LzDecoder
  import opened LzEncoding
  import opened LzContext

  // ---------- a valid stream has no byte to spare ----------

  lemma LeftOne(c: Ctx, b: int)
    requires c.Valid() && Byte(b) && !c.Done()
    ensures Left(c, [b]) == 0
  {
    StepValid(c, b);
  }

  lemma LeftUnfinished(c: Ctx, a: seq<int>)
    requires c.Valid() && Bytes(a) && Feed(c, a).Ok? && !Feed(c, a).ctx.Done()
    ensures Left(c, a) == 0
  {
    hide Feed;
    LeftConcat(c, a, []);
    assert a + [] == a;
  }

  /** Where the front ends unfinished, or nothing follows it, what is left of both is left of the rest. */
  lemma LeftBoth(c: Ctx, a: seq<int>, b: seq<int>)
    requires c.Valid() && Bytes(a) && Bytes(b) && Feed(c, a).Ok?
    requires if Feed(c, a).ctx.Done() then Left(c, a) == 0 && b == [] else Left(Feed(c, a).ctx, b) == 0
    ensures Bytes(a + b) && Left(c, a + b) == 0
  {
    hide Feed, Left;
    LeftConcat(c, a, b);
  }

  lemma LeftToken(c: Ctx, fmt: nat, t: Token)
    requires fmt <= 1 && Between(c, fmt) && 0 < c.flagIndex && ValidToken(fmt, t)
    requires c.flags / 128 % 2 == if t.Match? then 1 else 0
    ensures Bytes(TokenBytes(fmt, t)) && Left(c, TokenBytes(fmt, t)) == 0
  {
    hide Feed, Left, Step;
    TokenIsBytes(fmt, t);
    var bs := TokenBytes(fmt, t);
    if t.Literal? {
      LeftOne(c, t.b);
    } else {
      FeedLength(c, fmt, t);
      var k := |bs| - 1;
      assert bs == bs[..k] + [bs[k]];
      LeftOne(Feed(c, bs[..k]).ctx, bs[k]);
      LeftBoth(c, bs[..k], [bs[k]]);
    }
  }

  lemma {:induction false} LeftGroup(c: Ctx, fmt: nat, g: seq<Token>, i: nat)
    requires fmt <= 1 && InGroup(c, fmt, g, i) && ValidTokens(fmt, g) && Total(g[i..]) <= c.destCount
    ensures Bytes(GroupBytes(fmt, g[i..])) && Left(c, GroupBytes(fmt, g[i..])) == 0
    decreases |g| - i
  {
    hide Step, Feed, Left, Emit, After, FlagsFrom, TokenBytes;
    GroupIsBytes(fmt, g[i..]);
    if i == |g| {
      assert g[i..] == [];
      LeftNone(c);
    } else {
      assert g[i..][0] == g[i] && g[i..][1..] == g[i + 1..];
      FlagsShift(g, i);
      LeftToken(c, fmt, g[i]);
      FeedToken(c, fmt, g[i]);
      AfterInGroup(c, fmt, g, i);
      GroupIsBytes(fmt, g[i + 1..]);
      var d := After(c, g[i], Min(Size(g[i]), c.destCount));
      if d.destCount > 0 {
        LeftGroup(d, fmt, g, i + 1);
      } else {
        TotalAtLeast(fmt, g[i + 1..]);
        assert g[i + 1..] == [];
      }
      LeftBoth(c, TokenBytes(fmt, g[i]), GroupBytes(fmt, g[i + 1..]));
    }
  }

  lemma LeftNone(c: Ctx)
    requires c.Valid()
    ensures Left(c, []) == 0
  {}

  /** The flag byte and the tokens of one group. */
  lemma LeftFirst(c: Ctx, fmt: nat, g: seq<Token>)
    requires fmt <= 1 && Between(c, fmt) && c.flagIndex == 0 && ValidTokens(fmt, g) && 0 < |g| <= 8 && Total(g) <= c.destCount
    ensures Bytes([FlagsFrom(g, 0)] + GroupBytes(fmt, g)) && Left(c, [FlagsFrom(g, 0)] + GroupBytes(fmt, g)) == 0
  {
    hide Feed, Left, FlagsFrom, GroupBytes, Total;
    FlagsShift(g, 0);
    GroupIsBytes(fmt, g);
    FeedOne(c, FlagsFrom(g, 0));
    assert g[0..] == g;
    LeftGroup(Step(c, FlagsFrom(g, 0)).ctx, fmt, g, 0);
    LeftBoth(c, [FlagsFrom(g, 0)], GroupBytes(fmt, g));
  }

  lemma {:induction false} LeftTokens(c: Ctx, fmt: nat, ts: seq<Token>)
    requires fmt <= 1 && Between(c, fmt) && c.flagIndex == 0 && ValidTokens(fmt, ts) && Total(ts) == c.destCount
    ensures Bytes(Encode(fmt, ts)) && Left(c, Encode(fmt, ts)) == 0
    decreases |ts|
  {
    hide Feed, Left, FlagsFrom, GroupBytes, Expand;
    var k := if |ts| < 8 then |ts| else 8;
    var g, rest := ts[..k], ts[k..];
    assert ts == g + rest;
    TotalConcat(g, rest);
    LeftFirst(c, fmt, g);
    FeedFirst(c, fmt, g);
    EncodeIsBytes(fmt, rest);
    TotalAtLeast(fmt, rest);
    var d := Feed(c, [FlagsFrom(g, 0)] + GroupBytes(fmt, g)).ctx;
    if d.destCount > 0 { LeftTokens(d, fmt, rest); }
    LeftBoth(c, [FlagsFrom(g, 0)] + GroupBytes(fmt, g), Encode(fmt, rest));
  }

  // ---------- the header ----------

  /** A header byte counts down by one, or ends the header at four. */
  lemma HeaderCounts(c: Ctx, b: int)
    requires c.Valid() && 0 < c.headerSize && Byte(b) && Step(c, b).Ok?
    ensures var d := Step(c, b).ctx;
      !c.Done() && d.force == c.force && d.out == c.out
      && (d.headerSize == c.headerSize - 1 || (c.headerSize == 5 && d.headerSize == 0))
  {}

  /** Before its last byte a header is not complete. */
  lemma {:induction false} HeaderOpen(c: Ctx, p: seq<int>, h: nat)
    requires c.Valid() && Bytes(p) && Feed(c, p).Ok? && |p| < h
    requires h <= if c.headerSize > 4 then c.headerSize - 4 else c.headerSize
    ensures var d := Feed(c, p).ctx; d.headerSize == c.headerSize - |p| && d.out == c.out && d.force == c.force
    decreases |p|
  {
    hide Step;
    if p != [] {
      HeaderCounts(c, p[0]);
      StepValid(c, p[0]);
      HeaderOpen(Step(c, p[0]).ctx, p[1..], h - 1);
    }
  }

  lemma {:induction false} FeedPrefix(c: Ctx, p: seq<int>, k: nat)
    requires c.Valid() && Bytes(p) && Feed(c, p).Ok? && k <= |p|
    ensures Feed(c, p[..k]).Ok? && Feed(Feed(c, p[..k]).ctx, p[k..]) == Feed(c, p)
  {
    hide Feed;
    FeedConcat(c, p[..k], p[k..]);
    assert p[..k] + p[k..] == p;
  }

  /** A proper beginning of a header leaves it open. */
  lemma HeaderPrefix(c: Ctx, p: seq<int>, k: nat)
    requires c.Valid() && c.headerSize == 8 && Bytes(p) && |p| >= 4 && GoodFormat(p[0])
    requires |p| == HeaderLength(p) && k < |p|
    ensures Feed(c, p[..k]).Ok? && Feed(c, p[..k]).ctx.headerSize > 0
  {
    hide Feed, Step;
    HeaderAgrees(c, p);
    assert p[..HeaderLength(p)] == p;
    FeedPrefix(c, p, k);
    if k < 4 {
      HeaderOpen(c, p[..k], 4);
    } else {
      FeedShortHeader(c, p[..4]);
      SizeBytes(p[..4]);
      var d := Feed(c, p[..4]).ctx;
      FeedConcat(c, p[..4], p[4..k]);
      assert p[..4] + p[4..k] == p[..k];
      HeaderOpen(d, p[4..k], 4);
    }
  }

  // ---------- the codes of a stream ----------

  /** The size a stream declares, as far as it is wanted. */
  function Wanted(force: int, ts: seq<Token>): int {
    if 0 < force < Total(ts) then force else Total(ts)
  }

  /** The header of a stream, delivered whole or in part. */
  lemma StreamHeader(c: Ctx, fmt: nat, ts: seq<Token>, k: nat)
    requires c.Valid() && c.headerSize == 8 && fmt <= 1 && Total(ts) < 0x8000_0000 && k <= |HeaderBytes(fmt, Total(ts))|
    ensures var p := HeaderBytes(fmt, Total(ts));
      && Bytes(p) && Feed(c, p[..k]).Ok?
      && (k < |p| ==> Feed(c, p[..k]).ctx.headerSize > 0)
      && Feed(c, p) == Ok(c.(exFormat := fmt, headerSize := 0, destCount := Wanted(c.force, ts)))
  {
    hide Feed, Total, GetUncompressedSize, HeaderLength, HeaderBytes;
    var p := HeaderBytes(fmt, Total(ts));
    HeaderSays(fmt, Total(ts), []);
    assert p + [] == p && p[..HeaderLength(p)] == p;
    HeaderAgrees(c, p);
    FeedPrefix(c, p, k);
    if k < |p| { HeaderPrefix(c, p, k); }
  }

  /** A valid stream, unforced, ends with the byte that finishes it. */
  lemma StreamLeft(memory: seq<int>, fmt: nat, ts: seq<Token>)
    requires |memory| >= 4096 && fmt <= 1 && ValidTokens(fmt, ts) && Total(ts) < 0x8000_0000
    ensures Bytes(Stream(fmt, ts)) && Left(Init(memory), Stream(fmt, ts)) == 0
  {
    hide Feed, Left, Encode, HeaderBytes, Total;
    var c, p := Init(memory), HeaderBytes(fmt, Total(ts));
    HeaderNonempty(fmt, Total(ts));
    StreamHeader(c, fmt, ts, |p| - 1);
    var k := |p| - 1;
    assert p == p[..k] + [p[k]];
    LeftUnfinished(c, p[..k]);
    LeftOne(Feed(c, p[..k]).ctx, p[k]);
    LeftBoth(c, p[..k], [p[k]]);
    EncodeIsBytes(fmt, ts);
    TotalAtLeast(fmt, ts);
    var d := Feed(c, p).ctx;
    if d.destCount > 0 { LeftTokens(d, fmt, ts); } else { EncodeNone(fmt); }
    LeftBoth(c, p, Encode(fmt, ts));
  }

  lemma HeaderNonempty(fmt: nat, n: nat)
    ensures |HeaderBytes(fmt, n)| >= 4
  {}

  lemma EncodeNone(fmt: nat)
    ensures Encode(fmt, []) == []
  {}

  /** Any part of a stream is decoded without an error, and behind the header what has been written and
      what is missing make up the wanted size. */
  lemma StreamPart(memory: seq<int>, fmt: nat, ts: seq<Token>, force: int, k: nat)
    requires |memory| >= 4096 && fmt <= 1 && ValidTokens(fmt, ts) && Total(ts) < 0x8000_0000
    requires 0 <= force && k <= |Stream(fmt, ts)|
    ensures Bytes(Stream(fmt, ts))
    ensures var r := Feed(Init(memory).(force := force), Stream(fmt, ts)[..k]);
      && r.Ok? && r.ctx.force == force
      && if k < |HeaderBytes(fmt, Total(ts))| then r.ctx.headerSize > 0 else
           r.ctx.headerSize == 0 && 0 <= r.ctx.destCount == Wanted(force, ts) - (|r.ctx.out| - |memory|)
  {
    hide Feed, Encode, HeaderBytes, Total;
    var c, p, body := Init(memory).(force := force), HeaderBytes(fmt, Total(ts)), Encode(fmt, ts);
    RoundTrip(memory, fmt, ts, force);
    FeedPrefix(c, p + body, k);
    if k < |p| {
      StreamHeader(c, fmt, ts, k);
      assert (p + body)[..k] == p[..k];
      PartForce(c, p[..k]);
    } else {
      StreamHeader(c, fmt, ts, |p|);
      EncodeIsBytes(fmt, ts);
      assert (p + body)[..k] == p + body[..k - |p|];
      FeedConcat(c, p, body[..k - |p|]);
      Conserved(Feed(c, p).ctx, body[..k - |p|]);
    }
  }

  lemma {:induction false} PartForce(c: Ctx, a: seq<int>)
    requires c.Valid() && Bytes(a) && Feed(c, a).Ok?
    ensures Feed(c, a).ctx.force == c.force
  {
    LeftConcat(c, a, []);
  }

  /** The return value at any byte of a stream: -1 while the header is incomplete, then what is still
      missing of the wanted size. */
  lemma StreamCode(memory: seq<int>, fmt: nat, ts: seq<Token>, force: nat, k: nat)
    requires |memory| >= 4096 && fmt <= 1 && ValidTokens(fmt, ts) && Total(ts) < 0x8000_0000
    requires 0 < k <= |Stream(fmt, ts)|
    ensures Bytes(Stream(fmt, ts))
    ensures var c, a := Init(memory).(force := force), Stream(fmt, ts)[..k];
      && Feed(c, a).Ok?
      && Code(c, a) ==
           if k < |HeaderBytes(fmt, Total(ts))| then -1 else Wanted(force, ts) - (|Feed(c, a).ctx.out| - |memory|)
  {
    hide Feed, Left, Stream, HeaderBytes, Total, Wanted;
    StreamPart(memory, fmt, ts, force, k);
    var c, a := Init(memory).(force := force), Stream(fmt, ts)[..k];
    var d := Feed(c, a).ctx;
    if d.headerSize == 0 && d.destCount == 0 && force == 0 {
      PartLeft(memory, fmt, ts, k);
      assert Init(memory) == c;
    }
  }

  /** No part of a valid stream, unforced, has bytes left over. */
  lemma PartLeft(memory: seq<int>, fmt: nat, ts: seq<Token>, k: nat)
    requires |memory| >= 4096 && fmt <= 1 && ValidTokens(fmt, ts) && Total(ts) < 0x8000_0000 && k <= |Stream(fmt, ts)|
    ensures Bytes(Stream(fmt, ts)) && Left(Init(memory), Stream(fmt, ts)[..k]) == 0
    ensures Feed(Init(memory), Stream(fmt, ts)[..k]).Ok?
    ensures Feed(Init(memory), Stream(fmt, ts)[..k]).ctx.Done() ==> k == |Stream(fmt, ts)|
  {
    hide Feed, Left, Stream, HeaderBytes, Total, Ctx.Done;
    var c, s := Init(memory), Stream(fmt, ts);
    StreamLeft(memory, fmt, ts);
    StreamPart(memory, fmt, ts, 0, k);
    assert c.(force := 0) == c && s[..k] + s[k..] == s;
    LeftConcat(c, s[..k], s[k..]);
    if !Feed(c, s[..k]).ctx.Done() { LeftUnfinished(c, s[..k]); }
  }

  /** The whole stream and what follows it: 0, or -3 for more than 32 surplus bytes without a forced
      size. */
  lemma SurplusCode(memory: seq<int>, fmt: nat, ts: seq<Token>, force: nat, surplus: seq<int>)
    requires |memory| >= 4096 && fmt <= 1 && ValidTokens(fmt, ts) && Total(ts) < 0x8000_0000 && Bytes(surplus)
    ensures Bytes(Stream(fmt, ts) + surplus)
    ensures Code(Init(memory).(force := force), Stream(fmt, ts) + surplus) ==
      if force == 0 && |surplus| > 32 then -3 else 0
  {
    hide Feed, Left, Stream, Total, Expand;
    var c, s := Init(memory).(force := force), Stream(fmt, ts);
    RoundTrip(memory, fmt, ts, force);
    var d := Feed(c, s).ctx;
    FeedConcat(c, s, surplus);
    FeedDone(d, surplus);
    if force == 0 {
      assert c == Init(memory) && s[..|s|] == s;
      PartLeft(memory, fmt, ts, |s|);
      LeftConcat(c, s, surplus);
    }
  }

  /** The same however the stream came so far: a call that continues at byte j returns what one call on
      everything up to byte k would. */
  lemma ContinuedCode(memory: seq<int>, fmt: nat, ts: seq<Token>, force: nat, j: nat, k: nat)
    requires |memory| >= 4096 && fmt <= 1 && ValidTokens(fmt, ts) && Total(ts) < 0x8000_0000
    requires j < k <= |Stream(fmt, ts)|
    ensures Bytes(Stream(fmt, ts))
    ensures var c, s := Init(memory).(force := force), Stream(fmt, ts);
      && Feed(c, s[..j]).Ok? && Feed(c, s[..k]).Ok?
      && Code(Feed(c, s[..j]).ctx, s[j..k]) ==
           if k < |HeaderBytes(fmt, Total(ts))| then -1 else Wanted(force, ts) - (|Feed(c, s[..k]).ctx.out| - |memory|)
  {
    hide Feed, Left, Code, Stream, HeaderBytes, Total, Wanted, Ctx.Done;
    var c, s := Init(memory).(force := force), Stream(fmt, ts);
    StreamPart(memory, fmt, ts, force, j);
    StreamCode(memory, fmt, ts, force, k);
    assert s[..j] + s[j..k] == s[..k];
    SplitCodes(c, s[..j], s[j..k]);
    if force == 0 {
      assert c == Init(memory);
      PartLeft(memory, fmt, ts, j);
    }
  }
}
