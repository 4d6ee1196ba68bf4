/** Saved command lists: recording a stretch of a list, and replaying it by copying its commands
    and requests behind what the bound list already holds. */
module SavedCmdlist {
  import opened Cmdlist
  import opened CmdlistSafety
  import opened Wrappers

  // ---------- recording ----------

  /** nngxStartCmdlistSave and nngxStopCmdlistSave: one padding write if the cursor is odd. */
  function Pad(s: Sys): (t: Sys)
    requires s.Closed()
    ensures Same(s, t)
  {
    var t := SaveCursor(s);
    if s.bound.Some? && s.cursor / 8 % 2 == 1 then t.(cursor := WriteReg(s.cursor, s.BoundMax())) else t
  }

  /** A recording from byte `off` and request `rid` so far: the requests past `rid` only cover
      bytes of the list that end behind `off`. */
  ghost predicate Recording(l: List, cursor: nat, off: nat, rid: nat) {
    && rid <= l.used <= |l.requests| && OwnTotal(l.requests, rid) <= off <= cursor
    && off % 8 == 0 && (Aligned(off) || off == l.maxBuf)
    && forall k :: rid <= k < l.used && Own(l.requests[k].work) ==> Ends(l.requests[k].work, off)
  }

  predicate Ends(w: Work, off: nat)
    requires w.Render?
  {
    w.size > 0 && Aligned(off) && Aligned(w.addr + w.size) && off < w.addr + w.size
  }

  /** A recording that can be replayed by copying: all of it lies in the list's own buffer. */
  ghost predicate Savable(l: List, cursor: nat, off: nat, size: nat, rid: nat, n: nat) {
    && l.run <= l.used <= |l.requests| && Tiled(l) && rid + n <= l.used && size % 8 == 0
    && OwnTotal(l.requests, rid) <= off && OwnTotal(l.requests, rid + n) <= off + size <= cursor
    && forall k :: rid <= k < rid + n && l.requests[k].work.Render? ==>
         !l.requests[k].work.ext && Ends(l.requests[k].work, off)
  }

  lemma PadAligns(c: nat, max: nat)
    requires c % 8 == 0 && max % 8 == 0 && c <= max
    ensures var d := if c / 8 % 2 == 1 then WriteReg(c, max) else c;
      c <= d <= max && d % 8 == 0 && (Aligned(d) || d == max)
  {
    var q := c / 8;
    assert c == 8 * q;
    if q % 2 == 1 { assert c + 8 == 16 * (q / 2 + 1); } else { assert c == 16 * (q / 2); }
  }

  lemma PadEffect(s: Sys)
    requires s.Closed() && s.bound.Some?
    ensures var t := Pad(s); var l := s.lists[s.bound.value];
      && t.cursor == (if s.cursor / 8 % 2 == 1 then WriteReg(s.cursor, l.maxBuf) else s.cursor)
      && t == SaveCursor(s).(cursor := t.cursor)
      && t.lists[s.bound.value] == l.(usedBuf := s.cursor)
  {}

  lemma PadNone(s: Sys)
    requires s.Closed() && s.bound.None?
    ensures Pad(s) == s
  {}

  lemma PadKeeps(s: Sys)
    requires Inv(s)
    ensures Inv(Pad(s)) && (s.bound.Some? ==> s.cursor <= Pad(s).cursor)
    ensures s.bound.Some? ==> (Aligned(Pad(s).cursor) || Pad(s).cursor == s.BoundMax()) && Pad(s).cursor % 8 == 0
  {
    hide ListsOk, FlagsOk, Pad;
    SavedKeeps(s);
    if s.bound.Some? {
      PadEffect(s);
      BufferedIn(s, s.bound.value);
      PadAligns(s.cursor, s.BoundMax());
      WriteKeeps(SaveCursor(s), Pad(s));
    } else {
      PadNone(s);
    }
  }

  lemma RecordingStarts(s: Sys)
    requires Inv(s) && s.bound.Some?
    ensures var t := Pad(s); var l := t.lists[s.bound.value]; Recording(l, t.cursor, t.cursor, l.used)
  {
    hide ListsOk, FlagsOk, Pad, OwnTotal;
    PadEffect(s);
    PadKeeps(s);
    TiledIn(s, s.bound.value);
    BufferedIn(s, s.bound.value);
  }

  lemma TiledIn(s: Sys, id: nat)
    requires ListsOk(s) && id in s.lists
    ensures var l := s.lists[id]; l.run <= l.issued <= l.used <= |l.requests| && Tiled(l)
  {
    assert OkIn(s, id);
  }

  predicate OwnOnly(l: List, rid: nat) {
    forall k :: rid <= k < l.used <= |l.requests| && l.requests[k].work.Render? ==> !l.requests[k].work.ext
  }

  lemma RecordedSavable(l: List, cursor: nat, off: nat, rid: nat)
    requires l.run <= l.used <= |l.requests| && Tiled(l) && cursor % 8 == 0 && l.lastSplit <= cursor
    requires Recording(l, cursor, off, rid) && OwnOnly(l, rid)
    ensures Savable(l, cursor, off, cursor - off, rid, l.used - rid)
  {
    hide OwnTotal, Ends, Aligned;
    EightsApart(cursor, off);
    assert rid + (l.used - rid) == l.used && off + (cursor - off) == cursor;
  }

  lemma EightsApart(a: nat, b: nat)
    requires a % 8 == 0 && b % 8 == 0 && b <= a
    ensures (a - b) % 8 == 0
  {}

  lemma PadRecording(s: Sys, off: nat, rid: nat)
    requires Inv(s) && s.bound.Some? && Recording(s.lists[s.bound.value], s.cursor, off, rid)
    ensures Recording(Pad(s).lists[s.bound.value], Pad(s).cursor, off, rid)
  {
    hide ListsOk, FlagsOk, Pad, OwnTotal;
    PadEffect(s);
    PadKeeps(s);
  }

  /** Stopping a recording that never added an external request yields a replayable one. */
  lemma RecordingStops(s: Sys, off: nat, rid: nat)
    requires Inv(s) && s.bound.Some?
    requires Recording(s.lists[s.bound.value], s.cursor, off, rid) && OwnOnly(s.lists[s.bound.value], rid)
    ensures var t := Pad(s); var l := t.lists[s.bound.value];
      t.cursor >= off && rid <= l.used && Savable(l, t.cursor, off, t.cursor - off, rid, l.used - rid)
  {
    hide ListsOk, FlagsOk, Pad, OwnTotal, Tiled, Savable;
    PadEffect(s);
    PadKeeps(s);
    PadRecording(s, off, rid);
    TiledIn(Pad(s), s.bound.value);
    BufferedIn(Pad(s), s.bound.value);
    RecordedSavable(Pad(s).lists[s.bound.value], Pad(s).cursor, off, rid);
  }

  // ---------- what is copied ----------

  predicate NoRender(q: seq<Request>, k: nat)
    requires k <= |q|
  {
    forall j :: 0 <= j < k ==> !q[j].work.Render?
  }

  /** Where the render requests among the first k end; `off` if there is none. */
  function SavedEnd(q: seq<Request>, off: nat, k: nat): nat
    requires k <= |q|
  {
    if k == 0 then off
    else if q[k - 1].work.Render? then q[k - 1].work.addr + q[k - 1].work.size
    else SavedEnd(q, off, k - 1)
  }

  /** Render requests that continue one another; the first one reaches past `off`. */
  predicate Chained(q: seq<Request>, off: nat) {
    forall k :: 0 <= k < |q| && q[k].work.Render? ==>
      !q[k].work.ext && Ends(q[k].work, off) && (NoRender(q, k) || q[k].work.addr == SavedEnd(q, off, k))
  }

  lemma {:induction false} SavedEndAt(l: List, off: nat, rid: nat, q: seq<Request>, k: nat)
    requires l.run <= l.used <= |l.requests| && Tiled(l) && rid + |q| <= l.used && q == l.requests[rid..rid + |q|]
    requires forall j :: 0 <= j < |q| && q[j].work.Render? ==> !q[j].work.ext
    requires k <= |q|
    ensures if NoRender(q, k) then SavedEnd(q, off, k) == off && OwnTotal(l.requests, rid + k) == OwnTotal(l.requests, rid)
      else SavedEnd(q, off, k) == OwnTotal(l.requests, rid + k)
  {
    hide OwnTotal;
    if k > 0 {
      SavedEndAt(l, off, rid, q, k - 1);
      OwnTotalStep(l.requests, rid + k - 1);
      assert q[k - 1] == l.requests[rid + k - 1];
    }
  }

  /** A replayable recording is a chain that stays within the bytes recorded. */
  lemma SavableChained(l: List, cursor: nat, off: nat, size: nat, rid: nat, n: nat)
    requires Savable(l, cursor, off, size, rid, n)
    ensures Chained(l.requests[rid..rid + n], off) && off <= SavedEnd(l.requests[rid..rid + n], off, n) <= off + size
  {
    hide OwnTotal, SavedEnd;
    var q := l.requests[rid..rid + n];
    forall k | 0 <= k < |q| && q[k].work.Render?
      ensures !q[k].work.ext && Ends(q[k].work, off) && (NoRender(q, k) || q[k].work.addr == SavedEnd(q, off, k))
    {
      assert q[k] == l.requests[rid + k];
      SavedEndAt(l, off, rid, q, k);
    }
    SavedEndAt(l, off, rid, q, n);
    SavedEndGrows(q, off, n);
  }

  lemma {:induction false} SavedEndGrows(q: seq<Request>, off: nat, k: nat)
    requires k <= |q| && Chained(q, off)
    ensures off <= SavedEnd(q, off, k)
    ensures NoRender(q, k) ==> SavedEnd(q, off, k) == off
    ensures !NoRender(q, k) ==> Aligned(off) && Aligned(SavedEnd(q, off, k))
  {
    if k > 0 { SavedEndGrows(q, off, k - 1); }
  }

  /** What request k of the chain covers once copied: byte `off` of the saved list has moved to
      `cursor` of the bound one, and the first render request also takes the bytes pending there
      since `at`. */
  function CopiedWork(q: seq<Request>, off: nat, at: nat, cursor: nat, k: nat): Work
    requires Chained(q, off) && at <= cursor && k < |q|
  {
    var w := q[k].work;
    if !w.Render? then w
    else if NoRender(q, k) then Render(at, cursor - at + (w.addr + w.size - off), false)
    else SavedEndGrows(q, off, k); Render(cursor + (w.addr - off), w.size, false)
  }

  /** The copies carry no stop or callback marks. */
  function Copied(q: seq<Request>, off: nat, at: nat, cursor: nat): (r: seq<Request>)
    requires Chained(q, off) && at <= cursor
    ensures |r| == |q|
  {
    seq(|q|, k requires 0 <= k < |q| => Request(CopiedWork(q, off, at, cursor, k), false, false))
  }

  /** Where the first k copies end. */
  function CopiedEnd(q: seq<Request>, off: nat, at: nat, cursor: nat, k: nat): nat
    requires Chained(q, off) && k <= |q|
  {
    SavedEndGrows(q, off, k);
    if NoRender(q, k) then at else cursor + (SavedEnd(q, off, k) - off)
  }

  lemma CopiedEndStep(q: seq<Request>, off: nat, at: nat, cursor: nat, k: nat)
    requires Chained(q, off) && at <= cursor && k < |q|
    ensures var w := CopiedWork(q, off, at, cursor, k); var e := CopiedEnd(q, off, at, cursor, k);
      CopiedEnd(q, off, at, cursor, k + 1) == e + OwnSize(w)
      && (Own(w) ==> w.addr == e && w.size > 0)
      && (Own(w) && Aligned(at) && Aligned(cursor) ==> Aligned(w.size))
  {
    hide SavedEnd;
    SavedEndGrows(q, off, k);
    SavedEndGrows(q, off, k + 1);
    SavedEndNext(q, off, k);
  }

  lemma SavedEndNext(q: seq<Request>, off: nat, k: nat)
    requires k < |q|
    ensures SavedEnd(q, off, k + 1) == if q[k].work.Render? then q[k].work.addr + q[k].work.size else SavedEnd(q, off, k)
    ensures NoRender(q, k + 1) <==> NoRender(q, k) && !q[k].work.Render?
  {}

  /** The bound list with the copies behind its requests, not counted yet. */
  function WithCopies(l: List, q: seq<Request>, off: nat, size: nat, cursor: nat): (m: List)
    requires Chained(q, off) && l.lastSplit <= cursor && l.used + |q| <= |l.requests|
    ensures |m.requests| == |l.requests|
  {
    l.(requests := l.requests[..l.used] + Copied(q, off, l.lastSplit, cursor) + l.requests[l.used + |q|..],
       lastSplit := CopiedEnd(q, off, l.lastSplit, cursor, |q|), usedBuf := cursor + size)
  }

  lemma {:induction false} CopiesTotal(l: List, q: seq<Request>, off: nat, size: nat, cursor: nat, k: nat)
    requires l.run <= l.used && l.used + |q| <= |l.requests| && Tiled(l)
    requires Chained(q, off) && l.lastSplit <= cursor && k <= |q|
    ensures OwnTotal(WithCopies(l, q, off, size, cursor).requests, l.used + k) == CopiedEnd(q, off, l.lastSplit, cursor, k)
  {
    hide CopiedEnd, CopiedWork, Aligned, Chained, SavedEnd, OwnTotal, Own, OwnSize;
    var m := WithCopies(l, q, off, size, cursor);
    if k == 0 {
      OwnTotalSame(m.requests, l.requests, l.used);
      assert CopiedEnd(q, off, l.lastSplit, cursor, 0) == l.lastSplit by { CopiedEndNone(q, off, l.lastSplit, cursor); }
    } else {
      CopiesTotal(l, q, off, size, cursor, k - 1);
      CopiedEndStep(q, off, l.lastSplit, cursor, k - 1);
      OwnTotalStep(m.requests, l.used + k - 1);
      assert m.requests[l.used + k - 1] == Copied(q, off, l.lastSplit, cursor)[k - 1];
    }
  }

  lemma CopiedEndNone(q: seq<Request>, off: nat, at: nat, cursor: nat)
    requires Chained(q, off)
    ensures CopiedEnd(q, off, at, cursor, 0) == at
  {}

  lemma TiledCopies(l: List, q: seq<Request>, off: nat, size: nat, cursor: nat)
    requires l.run <= l.used && l.used + |q| <= |l.requests| && Tiled(l)
    requires Chained(q, off) && l.lastSplit <= cursor && (|q| > 0 ==> Aligned(cursor))
    ensures Tiled(WithCopies(l, q, off, size, cursor).(used := l.used + |q|))
  {
    hide OwnTotal, CopiedEnd, CopiedWork, SavedEnd, Chained, Aligned;
    var m := WithCopies(l, q, off, size, cursor).(used := l.used + |q|);
    forall k | 0 <= k <= l.used ensures OwnTotal(m.requests, k) == OwnTotal(l.requests, k) {
      OwnTotalSame(m.requests, l.requests, k);
    }
    forall k | l.used <= k < m.used && Own(m.requests[k].work)
      ensures m.requests[k].work.addr == OwnTotal(m.requests, k)
      ensures m.requests[k].work.size > 0 && Aligned(m.requests[k].work.size)
    {
      assert m.requests[k] == Copied(q, off, l.lastSplit, cursor)[k - l.used];
      CopiesTotal(l, q, off, size, cursor, k - l.used);
      CopiedEndStep(q, off, l.lastSplit, cursor, k - l.used);
    }
    CopiesTotal(l, q, off, size, cursor, |q|);
    CopiedEndAligned(q, off, l.lastSplit, cursor);
  }

  lemma CopiedEndAligned(q: seq<Request>, off: nat, at: nat, cursor: nat)
    requires Chained(q, off) && Aligned(at) && (|q| > 0 ==> Aligned(cursor))
    ensures Aligned(CopiedEnd(q, off, at, cursor, |q|))
  {
    hide SavedEnd;
    SavedEndGrows(q, off, |q|);
  }

  lemma CopiesOk(id: nat, l: List, cursor: nat, n: nat, executed: seq<Event>, q: seq<Request>, off: nat, size: nat)
    requires ListOk(id, l, cursor, n, executed) && l.used + |q| <= |l.requests| && Chained(q, off)
    requires (|q| > 0 ==> Aligned(cursor)) && size % 8 == 0 && cursor + size <= l.maxBuf
    requires SavedEnd(q, off, |q|) <= off + size
    ensures ListOk(id, WithCopies(l, q, off, size, cursor).(used := l.used + |q|), cursor + size, n, executed)
  {
    hide OwnTotal, CopiedEnd, Copied, SavedEnd, Chained, Aligned, Tiled, Executions, Flight;
    var m := WithCopies(l, q, off, size, cursor).(used := l.used + |q|);
    TiledCopies(l, q, off, size, cursor);
    CopiedEndWithin(q, off, l.lastSplit, cursor, size);
    FlightSame(l, m, n);
    ExecutionsSame(id, l, m, l.issued);
  }

  lemma CopiedEndWithin(q: seq<Request>, off: nat, at: nat, cursor: nat, size: nat)
    requires Chained(q, off) && at <= cursor && SavedEnd(q, off, |q|) <= off + size
    ensures at <= CopiedEnd(q, off, at, cursor, |q|) <= cursor + size
  {
    hide SavedEnd;
    SavedEndGrows(q, off, |q|);
  }

  // ---------- replaying, as one step ----------

  /** Copy the requests q and the `size` bytes recorded from `off`, then commit. */
  ghost function Replay(s: Sys, q: seq<Request>, off: nat, size: nat): (t: Sys)
    requires Inv(s) && s.bound.Some? && Chained(q, off)
    requires var l := s.lists[s.bound.value]; l.used + |q| <= |l.requests|
    ensures Same(s, t)
  {
    BufferedIn(s, s.bound.value);
    var u := Copy(s, q, off, size);
    if |q| > 0 then Commit(u, |q|) else u
  }

  function Copy(s: Sys, q: seq<Request>, off: nat, size: nat): (t: Sys)
    requires s.Closed() && s.bound.Some? && Chained(q, off)
    requires var l := s.lists[s.bound.value]; l.used + |q| <= |l.requests| && l.lastSplit <= s.cursor
    ensures Same(s, t) && t.cursor == s.cursor + size
  {
    var l := s.lists[s.bound.value];
    s.Put(s.bound.value, WithCopies(l, q, off, size, s.cursor)).(cursor := s.cursor + size)
  }

  lemma CopyFilled(s: Sys, q: seq<Request>, off: nat, size: nat)
    requires Inv(s) && s.bound.Some? && Chained(q, off) && SavedEnd(q, off, |q|) <= off + size && size % 8 == 0
    requires var l := s.lists[s.bound.value];
      l.used + |q| <= |l.requests| && l.lastSplit <= s.cursor && s.cursor + size <= l.maxBuf
    requires |q| > 0 ==> Aligned(s.cursor)
    ensures |q| > 0 ==> Filled(s, Copy(s, q, off, size), |q|)
    ensures |q| == 0 ==> ListsOk(Copy(s, q, off, size))
  {
    hide ListOk, FlagsOk, Since, Chained, SavedEnd, Copied, CopiedEnd, Executions;
    var id := s.bound.value;
    var l, u := s.lists[id], Copy(s, q, off, size);
    assert OkIn(s, id);
    CopiesOk(id, l, s.cursor, s.numSpeculative, Since(s.log, id), q, off, size);
    if |q| == 0 {
      assert WithCopies(l, q, off, size, s.cursor).(used := l.used) == u.lists[id];
      ListKeeps(s, u, id);
    }
  }

  lemma CopyKeepsFlags(s: Sys, q: seq<Request>, off: nat, size: nat)
    requires s.Closed() && FlagsOk(s) && s.bound.Some? && Chained(q, off)
    requires var l := s.lists[s.bound.value]; l.used + |q| <= |l.requests| && l.lastSplit <= s.cursor
    ensures FlagsOk(Copy(s, q, off, size))
  {
    hide Chained, Copied, CopiedEnd;
  }

  lemma ReplayKeeps(s: Sys, q: seq<Request>, off: nat, size: nat)
    requires Inv(s) && s.bound.Some? && Chained(q, off) && SavedEnd(q, off, |q|) <= off + size && size % 8 == 0
    requires var l := s.lists[s.bound.value]; l.used + |q| <= |l.requests| && s.cursor + size <= l.maxBuf
    requires |q| > 0 ==> Aligned(s.cursor)
    ensures Inv(Replay(s, q, off, size))
  {
    hide ListsOk, FlagsOk, Chained, SavedEnd, Copy, Commit, Filled;
    BufferedIn(s, s.bound.value);
    CopyFilled(s, q, off, size);
    if |q| > 0 {
      CommitKeeps(s, Copy(s, q, off, size), |q|);
    } else {
      CopyKeepsFlags(s, q, off, size);
    }
  }

  // ---------- the whole call ----------

  predicate StartsRender(q: seq<Request>) { |q| > 0 && q[0].work.Render? }

  /** Words of the bound list that no request covers yet. */
  predicate Pending(s: Sys)
    requires s.Closed() && s.bound.Some?
  {
    s.lists[s.bound.value].lastSplit != s.cursor
  }

  /** Pending words join the first copied request if that is a render request, and are aligned for it. */
  function Join(s: Sys, q: seq<Request>): (t: Sys)
    requires s.Closed() && s.bound.Some?
    ensures Same(s, t)
  {
    var id := s.bound.value;
    if Joins(s, q) then
      s.Put(id, s.lists[id].(usedBuf := s.cursor + 8)).(cursor := WriteReg(s.cursor, s.BoundMax()))
    else
      SaveCursor(s)
  }

  /** Otherwise they get a render request of their own. */
  function SplitBytes(s: Sys, q: seq<Request>): nat
    requires s.Closed() && s.bound.Some?
  {
    if Pending(s) && |q| > 0 && !StartsRender(q) then 8 * Closing(s.cursor) else 0
  }

  predicate UseFails(s: Sys, q: seq<Request>, size: nat)
    requires s.Closed() && s.bound.Some?
  {
    var l, gap := Join(s, q).lists[s.bound.value], SplitBytes(s, q);
    l.used + |q| + (if gap > 0 then 1 else 0) > |l.requests| || l.usedBuf + size + gap > l.maxBuf
  }

  /** The state in which the copy starts. */
  function Prepared(s: Sys, q: seq<Request>): (t: Sys)
    requires s.Closed() && s.bound.Some?
    ensures Same(s, t)
  {
    if SplitBytes(s, q) > 0 then Split(Join(s, q)) else Join(s, q)
  }

  /** nngxUseSavedCmdlist with copycmd, of a recording without external buffers. */
  ghost function UseSaved(s: Sys, id: nat, off: nat, size: nat, rid: nat, n: nat): (t: Sys)
    requires Inv(s) && Replayable(s, id, off, size, rid, n)
    ensures t.Closed() && t.numSpeculative == s.numSpeculative
  {
    if s.bound.None? || id !in s.lists then
      s
    else
      SavableChained(s.lists[id], CursorOf(s, id), off, size, rid, n);
      UseRequests(s, s.lists[id].requests[rid..rid + n], off, size)
  }

  ghost function UseRequests(s: Sys, q: seq<Request>, off: nat, size: nat): (t: Sys)
    requires Inv(s) && s.bound.Some? && Chained(q, off)
    ensures t.Closed() && t.numSpeculative == s.numSpeculative
  {
    if UseFails(s, q, size) then
      Join(s, q)
    else
      PreparedFits(s, q, size);
      Replay(Prepared(s, q), q, off, size)
  }

  ghost predicate Replayable(s: Sys, id: nat, off: nat, size: nat, rid: nat, n: nat) {
    s.bound.Some? && id in s.lists ==> Savable(s.lists[id], CursorOf(s, id), off, size, rid, n)
  }

  predicate Joins(s: Sys, q: seq<Request>)
    requires s.Closed() && s.bound.Some?
  {
    Pending(s) && StartsRender(q) && s.cursor / 8 % 2 == 1
  }

  lemma JoinOdd(s: Sys, q: seq<Request>)
    requires Inv(s) && s.bound.Some? && Joins(s, q)
    ensures Inv(Join(s, q))
    ensures var t := Join(s, q); var l, m := s.lists[s.bound.value], t.lists[s.bound.value];
      m == l.(usedBuf := s.cursor + 8) && t.cursor <= s.cursor + 8
      && (s.cursor + 8 <= l.maxBuf ==> t.cursor == s.cursor + 8 && Aligned(t.cursor))
  {
    hide ListsOk, FlagsOk, Aligned;
    BufferedIn(s, s.bound.value);
    PadAligns(s.cursor, s.BoundMax());
    OddAligned(s.cursor);
    var u := s.(cursor := WriteReg(s.cursor, s.BoundMax()));
    WriteKeeps(s, u);
    UsedBufKeeps(u, s.cursor + 8);
  }

  lemma JoinEven(s: Sys, q: seq<Request>)
    requires Inv(s) && s.bound.Some? && !Joins(s, q)
    ensures Inv(Join(s, q)) && Join(s, q) == SaveCursor(s)
    ensures StartsRender(q) ==> Aligned(s.cursor)
  {
    hide ListsOk, FlagsOk, Aligned;
    BufferedIn(s, s.bound.value);
    SavedKeeps(s);
    if s.cursor / 8 % 2 == 0 { EvenAligned(s.cursor); }
  }

  lemma JoinKeeps(s: Sys, q: seq<Request>)
    requires Inv(s) && s.bound.Some?
    ensures Inv(Join(s, q))
    ensures var t := Join(s, q); var l, m := s.lists[s.bound.value], t.lists[s.bound.value];
      m == l.(usedBuf := m.usedBuf) && t.cursor <= m.usedBuf
      && (m.usedBuf <= l.maxBuf ==> t.cursor == m.usedBuf)
      && (m.usedBuf <= l.maxBuf && StartsRender(q) ==> Aligned(t.cursor))
  {
    hide ListsOk, FlagsOk, Join, Aligned, StartsRender;
    if Joins(s, q) { JoinOdd(s, q); } else { JoinEven(s, q); }
  }

  lemma OddAligned(c: nat)
    requires c % 8 == 0 && c / 8 % 2 == 1
    ensures Aligned(c + 8)
  {
    assert c + 8 == 16 * (c / 8 / 2 + 1);
  }

  lemma EvenAligned(c: nat)
    requires c % 8 == 0 && c / 8 % 2 == 0
    ensures Aligned(c)
  {
    assert c == 16 * (c / 8 / 2);
  }

  lemma UsedBufKeeps(s: Sys, v: nat)
    requires Inv(s) && s.bound.Some?
    ensures Inv(s.Put(s.bound.value, s.lists[s.bound.value].(usedBuf := v)))
  {
    hide ListOk, Since;
    var id := s.bound.value;
    assert OkIn(s, id);
    UsedBufOk(id, s.lists[id], s.cursor, s.numSpeculative, Since(s.log, id), v);
    ListKeeps(s, s.Put(id, s.lists[id].(usedBuf := v)), id);
  }

  lemma UsedBufOk(id: nat, l: List, cursor: nat, n: nat, executed: seq<Event>, v: nat)
    requires ListOk(id, l, cursor, n, executed)
    ensures ListOk(id, l.(usedBuf := v), cursor, n, executed)
  {
    assert Executions(id, l.(usedBuf := v), 0, l.issued) == Executions(id, l, 0, l.issued);
  }

  /** The capacity check was enough: the split succeeds, and there is room for everything copied. */
  lemma PreparedFits(s: Sys, q: seq<Request>, size: nat)
    requires Inv(s) && s.bound.Some? && !UseFails(s, q, size)
    ensures Inv(Prepared(s, q))
    ensures var t := Prepared(s, q); var l := t.lists[s.bound.value];
      l.used + |q| <= |l.requests| && t.cursor + size <= l.maxBuf && (|q| > 0 ==> Aligned(t.cursor))
  {
    hide ListsOk, FlagsOk, Split, Closing, Join;
    var id := s.bound.value;
    var t := Join(s, q);
    JoinKeeps(s, q);
    BufferedIn(s, id);
    if SplitBytes(s, q) > 0 {
      JoinSame(s, q);
      SplitExact(t);
    } else if |q| > 0 && !StartsRender(q) {
      JoinSame(s, q);
    }
  }

  lemma JoinSame(s: Sys, q: seq<Request>)
    requires s.Closed() && s.bound.Some? && !StartsRender(q)
    ensures Join(s, q) == SaveCursor(s)
  {}

  /** A split that has room for its closing writes leaves nothing pending. */
  lemma SplitExact(s: Sys)
    requires Inv(s) && s.bound.Some? && !SplitFails(s)
    ensures Inv(Split(s))
    ensures var t := Split(s); var l, m := s.lists[s.bound.value], t.lists[s.bound.value];
      m.used == l.used + 1 && |m.requests| == |l.requests| && m.maxBuf == l.maxBuf
      && t.cursor == m.lastSplit == s.cursor + 8 * Closing(s.cursor) && Aligned(t.cursor)
  {
    hide ListsOk, FlagsOk, Closing;
    SplitKeeps(s);
    var t := SaveCursor(s);
    BufferedIn(s, s.bound.value);
    CloseRenderExact(t);
    CommitLayout(CloseRender(t), 1);
  }

  /** Committing changes no size, offset or request of the bound list. */
  lemma CommitLayout(s: Sys, n: nat)
    requires s.Closed() && s.bound.Some? && var l := s.lists[s.bound.value]; l.used + n <= |l.requests|
    ensures var l, m := s.lists[s.bound.value], Commit(s, n).lists[s.bound.value];
      m == l.(used := l.used + n, issued := m.issued)
  {}

  lemma UseRequestsKeeps(s: Sys, q: seq<Request>, off: nat, size: nat)
    requires Inv(s) && s.bound.Some? && Chained(q, off) && SavedEnd(q, off, |q|) <= off + size && size % 8 == 0
    ensures Inv(UseRequests(s, q, off, size))
  {
    hide ListsOk, FlagsOk, Chained, SavedEnd, Join, Prepared, UseFails, Replay;
    if UseFails(s, q, size) {
      JoinKeeps(s, q);
    } else {
      PreparedFits(s, q, size);
      ReplayKeeps(Prepared(s, q), q, off, size);
    }
  }

  lemma UseSavedKeeps(s: Sys, id: nat, off: nat, size: nat, rid: nat, n: nat)
    requires Inv(s) && Replayable(s, id, off, size, rid, n)
    ensures Inv(UseSaved(s, id, off, size, rid, n))
  {
    hide Inv, Chained, SavedEnd, UseRequests;
    if s.bound.Some? && id in s.lists {
      SavableChained(s.lists[id], CursorOf(s, id), off, size, rid, n);
      UseRequestsKeeps(s, s.lists[id].requests[rid..rid + n], off, size);
    }
  }
}
