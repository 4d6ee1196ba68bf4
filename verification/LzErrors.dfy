/** What the decoder does with a stream that says more than its header declares, or starts wrongly. */
module LzErrors {
  import opened LzDecoder
  import opened LzEncoding
  import opened LzContext

  // ---------- where a token list can end ----------

  /** The first n bytes of the expansion end with a token. */
  predicate Meets(ts: seq<Token>, n: int) {
    n == 0 || (ts != [] && Size(ts[0]) <= n && Meets(ts[1..], n - Size(ts[0])))
  }

  /** That is, some front part of the list expands to exactly n bytes. */
  lemma {:induction false} MeetsExactly(ts: seq<Token>, n: nat)
    ensures Meets(ts, n) <==> exists k :: 0 <= k <= |ts| && Total(ts[..k]) == n
    decreases |ts|
  {
    hide Total;
    TotalNone();
    assert ts[..0] == [];
    if ts != [] && 0 < n {
      forall k | 1 <= k <= |ts| ensures Total(ts[..k]) == Size(ts[0]) + Total(ts[1..][..k - 1]) {
        assert ts[..k][1..] == ts[1..][..k - 1];
        TotalFirst(ts[..k]);
      }
      if Size(ts[0]) <= n {
        MeetsExactly(ts[1..], n - Size(ts[0]));
        if Meets(ts, n) {
          var j :| 0 <= j <= |ts[1..]| && Total(ts[1..][..j]) == n - Size(ts[0]);
          assert Total(ts[..j + 1]) == n;
        }
        forall k | 1 <= k <= |ts| && Total(ts[..k]) == n ensures Meets(ts[1..], n - Size(ts[0])) {
          assert Total(ts[1..][..k - 1]) == n - Size(ts[0]);
        }
      }
    }
  }

  lemma TotalNone()
    ensures Total([]) == 0
  {}

  lemma TotalFirst(ts: seq<Token>)
    requires ts != []
    ensures Total(ts) == Size(ts[0]) + Total(ts[1..])
  {}

  lemma {:induction false} MeetsConcat(fmt: nat, a: seq<Token>, b: seq<Token>, n: nat)
    requires ValidTokens(fmt, a)
    ensures Total(a) <= n ==> Meets(a + b, n) == Meets(b, n - Total(a))
    ensures n < Total(a) ==> Meets(a + b, n) == Meets(a, n)
    decreases |a|
  {
    if a == [] {
      assert a + b == b;
    } else {
      assert (a + b)[0] == a[0] && (a + b)[1..] == a[1..] + b;
      if Size(a[0]) <= n { MeetsConcat(fmt, a[1..], b, n - Size(a[0])); }
    }
  }

  // ---------- a match that does not fit ----------

  lemma FeedOverlong(c: Ctx, fmt: nat, t: Token)
    requires fmt <= 1 && Between(c, fmt) && 0 < c.flagIndex && ValidToken(fmt, t) && c.force == 0
    requires t.Match? && c.flags / 128 % 2 == 1 && c.destCount < t.len
    ensures Bytes(TokenBytes(fmt, t)) && Feed(c, TokenBytes(fmt, t)) == Err(-4)
  {
    hide Step, Feed, LengthStep;
    TokenIsBytes(fmt, t);
    FeedLength(c, fmt, t);
    var bs := TokenBytes(fmt, t);
    var k := |bs| - 1;
    var d := Feed(c, bs[..k]).ctx;
    assert bs == bs[..k] + [bs[k]];
    FeedConcat(c, bs[..k], [bs[k]]);
    FeedOne(d, bs[k]);
    StepOffset(d, bs[k]);
    Unpack(t.len, t.dist);
  }

  /** A group that says more than is wanted: decoded up to the wanted byte if a token ends there, else
      refused. */
  lemma {:induction false} FeedSurplus(c: Ctx, fmt: nat, g: seq<Token>, i: nat)
    requires fmt <= 1 && InGroup(c, fmt, g, i) && ValidTokens(fmt, g) && c.force == 0 && c.destCount < Total(g[i..])
    ensures Bytes(GroupBytes(fmt, g[i..]))
    ensures var r := Feed(c, GroupBytes(fmt, g[i..]));
      if Meets(g[i..], c.destCount) then r.Ok? && Emitted(c, r.ctx, fmt, g[i..]) else r == Err(-4)
    decreases |g| - i
  {
    hide Step, Feed, Emit, After, FlagsFrom, TokenBytes;
    GroupIsBytes(fmt, g[i..]);
    assert g[|g|..] == [];
    assert g[i..][0] == g[i] && g[i..][1..] == g[i + 1..];
    GroupIsBytes(fmt, g[i + 1..]);
    FlagsShift(g, i);
    if Size(g[i]) <= c.destCount {
      GroupNext(c, fmt, g, i);
      AfterInGroup(c, fmt, g, i);
      var d := After(c, g[i], Min(Size(g[i]), c.destCount));
      if d.destCount > 0 {
        FeedSurplus(d, fmt, g, i + 1);
        if Meets(g[i + 1..], d.destCount) {
          EmittedMore(c, d, Feed(d, GroupBytes(fmt, g[i + 1..])).ctx, fmt, g[i..]);
        }
      } else {
        MeetsNone(g[i + 1..]);
        FeedDone(d, GroupBytes(fmt, g[i + 1..]));
        EmittedLast(c, d, fmt, g[i..]);
      }
    } else {
      FeedOverlong(c, fmt, g[i]);
      FeedConcat(c, TokenBytes(fmt, g[i]), GroupBytes(fmt, g[i + 1..]));
    }
  }

  lemma FirstSurplus(c: Ctx, fmt: nat, g: seq<Token>)
    requires fmt <= 1 && Between(c, fmt) && c.flagIndex == 0 && ValidTokens(fmt, g) && 0 < |g| <= 8
    requires c.force == 0 && c.destCount < Total(g)
    ensures Bytes([FlagsFrom(g, 0)] + GroupBytes(fmt, g))
    ensures var r := Feed(c, [FlagsFrom(g, 0)] + GroupBytes(fmt, g));
      if Meets(g, c.destCount) then r.Ok? && Emitted(c, r.ctx, fmt, g) else r == Err(-4)
  {
    hide Feed, FlagsFrom, GroupBytes, Expand, Total, Meets;
    FlagsShift(g, 0);
    GroupIsBytes(fmt, g);
    FeedCons(c, FlagsFrom(g, 0), GroupBytes(fmt, g));
    assert g[0..] == g;
    FeedSurplus(Step(c, FlagsFrom(g, 0)).ctx, fmt, g, 0);
  }

  /** What is emitted within the first tokens is what is emitted of the whole list. */
  lemma EmittedFront(c: Ctx, d: Ctx, fmt: nat, a: seq<Token>, b: seq<Token>)
    requires |c.out| >= 4096 && ValidTokens(fmt, a) && ValidTokens(fmt, b)
    requires 0 <= c.destCount <= Total(a) && Emitted(c, d, fmt, a)
    ensures Emitted(c, d, fmt, a + b)
  {
    hide Expand, Ctx.Valid;
    TotalConcat(a, b);
    ExpandConcat(fmt, c.out, a, b);
    var all, part := Expand(fmt, c.out, a + b), Expand(fmt, c.out, a);
    ExpandGrows(fmt, part, b);
    assert all[..|c.out| + c.destCount] == all[..|part|][..|c.out| + c.destCount];
  }

  lemma {:induction false} TokensSurplus(c: Ctx, fmt: nat, ts: seq<Token>)
    requires fmt <= 1 && Between(c, fmt) && c.flagIndex == 0 && ValidTokens(fmt, ts)
    requires c.force == 0 && c.destCount <= Total(ts)
    ensures Bytes(Encode(fmt, ts))
    ensures var r := Feed(c, Encode(fmt, ts));
      if Meets(ts, c.destCount) then r.Ok? && Emitted(c, r.ctx, fmt, ts) else r == Err(-4)
    decreases |ts|
  {
    hide Feed, FlagsFrom, GroupBytes, Expand, Meets;
    var k := if |ts| < 8 then |ts| else 8;
    var g, rest := ts[..k], ts[k..];
    assert ts == g + rest;
    TotalConcat(g, rest);
    EncodeIsBytes(fmt, rest);
    MeetsConcat(fmt, g, rest, c.destCount);
    if c.destCount < Total(g) { FirstSurplus(c, fmt, g); } else { FeedFirst(c, fmt, g); }
    FeedConcat(c, [FlagsFrom(g, 0)] + GroupBytes(fmt, g), Encode(fmt, rest));
    var r := Feed(c, [FlagsFrom(g, 0)] + GroupBytes(fmt, g));
    if r.Ok? {
      if r.ctx.destCount > 0 {
        ExpandConcat(fmt, c.out, g, rest);
        assert r.ctx.out == Expand(fmt, c.out, g);
        TokensSurplus(r.ctx, fmt, rest);
      } else {
        MeetsNone(rest);
        FeedDone(r.ctx, Encode(fmt, rest));
        EmittedFront(c, r.ctx, fmt, g, rest);
      }
    }
  }

  lemma MeetsNone(ts: seq<Token>)
    ensures Meets(ts, 0)
  {}

  // ---------- whole streams ----------

  /** A stream that says as much as its header declares, or more.  With a forced size the declared bytes
      are written, as far as they are wanted; without one they are written if a token ends with the last
      of them, and the stream is refused with -4 if and only if none does. */
  lemma Declared(memory: seq<int>, fmt: nat, ts: seq<Token>, n: nat, force: nat)
    requires |memory| >= 4096 && fmt <= 1 && ValidTokens(fmt, ts) && n < 0x8000_0000 && n <= Total(ts)
    ensures Bytes(HeaderBytes(fmt, n) + Encode(fmt, ts))
    ensures var r := Feed(Init(memory).(force := force), HeaderBytes(fmt, n) + Encode(fmt, ts));
      if force != 0 || exists k :: 0 <= k <= |ts| && Total(ts[..k]) == n then
        r.Ok? && r.ctx.Done() && r.ctx.out == Expand(fmt, memory, ts)[..|memory| + if 0 < force < n then force else n]
      else
        r == Err(-4)
  {
    hide Feed, Encode, HeaderBytes, GetUncompressedSize, Step, Expand, Meets, Total;
    var header, body := HeaderBytes(fmt, n), Encode(fmt, ts);
    EncodeIsBytes(fmt, ts);
    HeaderSays(fmt, n, body);
    var c := Init(memory).(force := force);
    HeaderAgrees(c, header + body);
    assert (header + body)[..|header|] == header;
    FeedConcat(c, header, body);
    var d := Feed(c, header).ctx;
    MeetsExactly(ts, n);
    if d.destCount == 0 {
      FeedDone(d, body);
      ExpandGrows(fmt, memory, ts);
      MeetsNone(ts);
    } else if force == 0 {
      TokensSurplus(d, fmt, ts);
    } else {
      FeedTokens(d, fmt, ts);
    }
  }

  /** Only 0x10 and 0x11 open a stream: anything else is refused with -1 at once, and nothing that opens
      with one of them is. */
  lemma {:induction false} OnlyFormats(memory: seq<int>, force: nat, data: seq<int>)
    requires |memory| >= 4096 && Bytes(data) && data != []
    ensures Feed(Init(memory).(force := force), data) == Err(-1) <==> data[0] != 0x10 && data[0] != 0x11
    ensures data[0] != 0x10 && data[0] != 0x11 ==> Code(Init(memory).(force := force), data) == -1
  {
    hide Feed;
    var c := Init(memory).(force := force);
    FeedCons(c, data[0], data[1..]);
    assert [data[0]] + data[1..] == data;
    FormatDigits(data[0]);
    if data[0] == 0x10 || data[0] == 0x11 { OnlyOverlong(Step(c, data[0]).ctx, data[1..]); }
  }

  lemma FormatDigits(b: int)
    requires Byte(b)
    ensures (b / 16 != 1 || b % 16 > 1) <==> b != 0x10 && b != 0x11
  {}

  /** Behind the first byte the only error is a match that does not fit. */
  lemma {:induction false} OnlyOverlong(c: Ctx, data: seq<int>)
    requires c.Valid() && Bytes(data) && c.headerSize < 8
    ensures Feed(c, data).Ok? || Feed(c, data) == Err(-4)
    decreases |data|
  {
    hide Step, Ctx.Valid;
    if data != [] {
      StepErrors(c, data[0]);
      StepValid(c, data[0]);
      if Step(c, data[0]).Ok? { OnlyOverlong(Step(c, data[0]).ctx, data[1..]); }
    }
  }

  lemma StepErrors(c: Ctx, b: int)
    requires c.Valid() && Byte(b) && c.headerSize < 8
    ensures Step(c, b) == Err(-4) || (Step(c, b).Ok? && Step(c, b).ctx.headerSize < 8)
  {}
}
