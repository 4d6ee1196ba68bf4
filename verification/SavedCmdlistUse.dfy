/** nngxUseSavedCmdlist as a whole: what each request covers afterwards, and the call on list objects
    and their buffers. */
module SavedCmdlistUse {
  import opened Cmdlist
  import opened CmdlistSafety
  import opened SavedCmdlist
  import opened SavedCmdlistCopy
  import opened CmdlistManager
  import CmdlistLaws
  import opened Wrappers

  // ---------- what the copies cover ----------

  /** A request of the list's own that covers exactly these bytes of its buffer. */
  predicate Covers(buffer: seq<int>, r: Request, words: seq<int>) {
    && Own(r.work) && r.work.addr + r.work.size <= |buffer|
    && buffer[r.work.addr..r.work.addr + r.work.size] == words
  }

  /** What copy k is: an engine request as recorded, or a render request over its recorded bytes; the
      first one also takes the bytes pending since `at`. */
  predicate Replays(q: seq<Request>, k: nat, off: nat, at: nat, cursor: nat, dst: seq<int>, src: seq<int>,
      after: seq<int>, r: Request)
    requires k < |q| && at <= cursor <= |dst|
  {
    && !r.callback && !r.stop
    && if !q[k].work.Render? then r.work == q[k].work else
         var w := q[k].work;
         off <= w.addr + w.size <= |src| && w.addr + w.size >= w.addr
         && Covers(after, r,
              if NoRender(q, k) then dst[at..cursor] + src[off..w.addr + w.size] else src[w.addr..w.addr + w.size])
  }

  lemma CopyReplays(dst: seq<int>, src: seq<int>, q: seq<Request>, off: nat, size: nat, at: nat, cursor: nat, k: nat)
    requires Chained(q, off) && SavedEnd(q, off, |q|) <= off + size <= |src|
    requires at <= cursor && cursor + size <= |dst| && k < |q|
    ensures Replays(q, k, off, at, cursor, dst, src, CopiedBytes(dst, src, off, size, cursor),
                    Request(CopiedWork(q, off, at, cursor, k), false, false))
  {
    hide Chained, SavedEnd, NoRender, CopiedBytes;
    var w := q[k].work;
    if w.Render? {
      SavedEndNext(q, off, k);
      SavedEndMonotone(q, off, k + 1, |q|);
      SavedEndGrows(q, off, k + 1);
      CopiedOwn(q, off, at, cursor, k);
      CopiedLength(dst, src, off, size, cursor);
      if NoRender(q, k) {
        SameFirstCommands(dst, src, q, off, size, at, cursor, k);
      } else {
        SameLaterCommands(dst, src, q, off, size, at, cursor, k);
      }
    }
  }

  lemma CopiedOwn(q: seq<Request>, off: nat, at: nat, cursor: nat, k: nat)
    requires Chained(q, off) && at <= cursor && k < |q| && q[k].work.Render?
    ensures Own(CopiedWork(q, off, at, cursor, k))
  {
    hide SavedEnd;
    SavedEndGrows(q, off, k);
  }

  lemma CopiedLength(dst: seq<int>, src: seq<int>, off: nat, size: nat, cursor: nat)
    requires off + size <= |src| && cursor + size <= |dst|
    ensures |CopiedBytes(dst, src, off, size, cursor)| == |dst|
  {}

  /** The state in which copying starts: the words pending in the bound list have got a request of
      their own, or wait for the first copy, padded to 16 bytes. */
  lemma PreparedPending(s: Sys, q: seq<Request>, size: nat)
    requires Inv(s) && s.bound.Some? && !UseFails(s, q, size)
    ensures var p, b := Prepared(s, q), s.bound.value; var l, m := s.lists[b], p.lists[b];
      |m.requests| == |l.requests| && l.used <= m.used
      && (forall j :: 0 <= j < l.used ==> m.requests[j] == l.requests[j])
      && if SplitBytes(s, q) > 0 then
           m.used == l.used + 1 && m.lastSplit == p.cursor == s.cursor + SplitBytes(s, q)
           && m.requests[l.used].work == Render(l.lastSplit, p.cursor - l.lastSplit, false)
         else
           m.used == l.used && m.lastSplit == l.lastSplit && p.cursor == s.cursor + (if Joins(s, q) then 8 else 0)
  {
    hide ListsOk, FlagsOk, Split, Closing;
    var b := s.bound.value;
    JoinKeeps(s, q);
    BufferedIn(s, b);
    CountsIn(s, b);
    if SplitBytes(s, q) > 0 {
      JoinSame(s, q);
      SplitCovers(Join(s, q));
    }
  }

  lemma CountsIn(s: Sys, id: nat)
    requires s.Closed() && id in s.lists
    ensures s.lists[id].used <= |s.lists[id].requests|
  {}

  lemma SplitCovers(s: Sys)
    requires Inv(s) && s.bound.Some? && !SplitFails(s)
    ensures var t, b := Split(s), s.bound.value; var l, m := s.lists[b], t.lists[b];
      |m.requests| == |l.requests| && m.used == l.used + 1 && m.lastSplit == t.cursor == s.cursor + 8 * Closing(s.cursor)
      && l.lastSplit <= t.cursor && m.requests[l.used].work == Render(l.lastSplit, t.cursor - l.lastSplit, false)
      && (forall j :: 0 <= j < l.used ==> m.requests[j] == l.requests[j])
  {
    hide ListsOk, FlagsOk, Closing, Commit;
    SplitExact(s);
    BufferedIn(s, s.bound.value);
    CommitLayout(CloseRender(SaveCursor(s)), 1);
  }

  /** List l became m by replaying q: its requests stay, each copy replays its request. */
  predicate Replayed(l: List, m: List, q: seq<Request>, off: nat, size: nat, cursor: nat, dst: seq<int>, src: seq<int>) {
    && l.lastSplit <= cursor && cursor + size <= |dst| && off + size <= |src|
    && m.used == l.used + |q| <= |m.requests| == |l.requests|
    && (forall j :: 0 <= j < l.used ==> m.requests[j] == l.requests[j])
    && forall j :: l.used <= j < m.used ==>
         Replays(q, j - l.used, off, l.lastSplit, cursor, dst, src, CopiedBytes(dst, src, off, size, cursor), m.requests[j])
  }

  lemma CopiesReplay(l: List, m: List, q: seq<Request>, off: nat, size: nat, cursor: nat, dst: seq<int>, src: seq<int>)
    requires Chained(q, off) && SavedEnd(q, off, |q|) <= off + size <= |src|
    requires l.lastSplit <= cursor && cursor + size <= |dst|
    requires l.used + |q| <= |l.requests|
    requires m.used == l.used + |q| && m.requests == WithCopies(l, q, off, size, cursor).requests
    ensures Replayed(l, m, q, off, size, cursor, dst, src)
  {
    hide Chained, SavedEnd, Replays, CopiedBytes, CopiedWork, CopiedEnd;
    forall j | l.used <= j < m.used
      ensures Replays(q, j - l.used, off, l.lastSplit, cursor, dst, src,
                      CopiedBytes(dst, src, off, size, cursor), m.requests[j])
    {
      CopyReplays(dst, src, q, off, size, l.lastSplit, cursor, j - l.used);
      assert m.requests[j] == Copied(q, off, l.lastSplit, cursor)[j - l.used];
    }
  }

  // ---------- when a replay succeeds ----------

  /** Words pending in the bound list that no request covers, and a recording that starts with a render
      request they can join. */
  predicate Joinable(s: Sys, q: seq<Request>)
    requires s.Closed() && s.bound.Some?
  {
    s.lists[s.bound.value].lastSplit != s.cursor && |q| > 0 && q[0].work.Render?
  }

  /** Pending words, and a recording whose first request cannot take them. */
  predicate Apart(s: Sys, q: seq<Request>)
    requires s.Closed() && s.bound.Some?
  {
    s.lists[s.bound.value].lastSplit != s.cursor && |q| > 0 && !q[0].work.Render?
  }

  /** Slots a replay takes: one more where pending words need a request of their own. */
  function Slots(s: Sys, q: seq<Request>): nat
    requires s.Closed() && s.bound.Some?
  {
    |q| + (if Apart(s, q) then 1 else 0)
  }

  /** Bytes it takes: those recorded, and those that pad or close the pending words. */
  function Bytes(s: Sys, q: seq<Request>, size: nat): nat
    requires s.Closed() && s.bound.Some?
  {
    size + (if Joinable(s, q) && s.cursor % 16 != 0 then 8 else if Apart(s, q) then CmdlistLaws.Gap(s.cursor) else 0)
  }

  predicate HasRoom(s: Sys, q: seq<Request>, size: nat)
    requires s.Closed() && s.bound.Some?
  {
    var l := s.lists[s.bound.value];
    l.used + Slots(s, q) <= |l.requests| && s.cursor + Bytes(s, q, size) <= l.maxBuf
  }

  lemma Eighths(c: nat)
    requires c % 8 == 0
    ensures c / 8 % 2 == 1 <==> c % 16 != 0
  {
    var k := c / 8;
    assert c == 8 * k;
    if k % 2 == 0 { assert c == 16 * (k / 2); } else { assert c == 16 * (k / 2) + 8; }
  }

  /** The capacity check is exactly that there is room. */
  lemma FailsExactly(s: Sys, q: seq<Request>, size: nat)
    requires Inv(s) && s.bound.Some?
    ensures UseFails(s, q, size) <==> !HasRoom(s, q, size)
    ensures SplitBytes(s, q) == (if Apart(s, q) then CmdlistLaws.Gap(s.cursor) else 0)
    ensures Joins(s, q) <==> Joinable(s, q) && s.cursor % 16 != 0
  {
    hide ListsOk, FlagsOk, Closing;
    BufferedIn(s, s.bound.value);
    Eighths(s.cursor);
    CmdlistLaws.GapIs(s.cursor);
  }

  /** A replay succeeds if and only if there is room: then the bound list has its requests, one more for
      pending words that cannot join them, and the cursor is behind all bytes taken.  Otherwise no
      request is added, nothing is executed, and at most the padding has been written. */
  lemma UseSavedSucceeds(s: Sys, id: nat, off: nat, size: nat, rid: nat, n: nat)
    requires Inv(s) && s.bound.Some? && id in s.lists && Replayable(s, id, off, size, rid, n)
    ensures var q, b, t := s.lists[id].requests[rid..rid + n], s.bound.value, UseSaved(s, id, off, size, rid, n);
      var l, m := s.lists[b], t.lists[b];
      && (m.used == l.used + Slots(s, q) && t.cursor == s.cursor + Bytes(s, q, size) <==> HasRoom(s, q, size))
      && (!HasRoom(s, q, size) ==> m.requests == l.requests && m.used == l.used && t.log == s.log && t.cursor <= s.cursor + 8)
  {
    hide Inv, Sys.Closed, Chained, SavedEnd, UseRequests, Savable, HasRoom, Slots, Bytes;
    SavableFacts(s.lists[id], CursorOf(s, id), off, size, rid, n);
    SavableChained(s.lists[id], CursorOf(s, id), off, size, rid, n);
    UseRequestsSucceeds(s, s.lists[id].requests[rid..rid + n], off, size);
  }

  lemma UseRequestsSucceeds(s: Sys, q: seq<Request>, off: nat, size: nat)
    requires Inv(s) && s.bound.Some? && Chained(q, off) && SavedEnd(q, off, |q|) <= off + size
    ensures var b, t := s.bound.value, UseRequests(s, q, off, size); var l, m := s.lists[b], t.lists[b];
      && (m.used == l.used + Slots(s, q) && t.cursor == s.cursor + Bytes(s, q, size) <==> HasRoom(s, q, size))
      && (!HasRoom(s, q, size) ==> m.requests == l.requests && m.used == l.used && t.log == s.log && t.cursor <= s.cursor + 8)
  {
    hide ListsOk, FlagsOk, Chained, SavedEnd, Prepared, UseFails, Replay, Join, SplitBytes, Joins;
    FailsExactly(s, q, size);
    BufferedIn(s, s.bound.value);
    if HasRoom(s, q, size) {
      PreparedPending(s, q, size);
      PreparedFits(s, q, size);
      ReplayCounts(Prepared(s, q), q, off, size);
    } else {
      JoinOnly(s, q);
    }
  }

  lemma JoinOnly(s: Sys, q: seq<Request>)
    requires s.Closed() && s.bound.Some?
    ensures var t, b := Join(s, q), s.bound.value;
      t.lists[b].requests == s.lists[b].requests && t.lists[b].used == s.lists[b].used && t.log == s.log
      && (t.cursor == s.cursor || (Joins(s, q) && t.cursor == s.cursor + 8))
  {
    hide Joins, Join, Sys.Closed;
    JoinMeans(s, q);
  }

  lemma ReplayCounts(s: Sys, q: seq<Request>, off: nat, size: nat)
    requires Inv(s) && s.bound.Some? && Chained(q, off)
    requires var l := s.lists[s.bound.value]; l.used + |q| <= |l.requests|
    ensures var t, b := Replay(s, q, off, size), s.bound.value;
      t.lists[b].used == s.lists[b].used + |q| && t.cursor == s.cursor + size
  {
    hide ListsOk, FlagsOk, Chained, Commit, WithCopies;
    BufferedIn(s, s.bound.value);
    CopyCounts(s.lists[s.bound.value], q, off, size, s.cursor);
    if |q| > 0 { CommitLayout(Copy(s, q, off, size), |q|); }
  }

  /** The whole call, when there is room: the requests that were there stay, each copy replays its
      request, and the cursor is behind the bytes copied.  `dst` is the bound list's buffer when the
      copy starts. */
  lemma UseSavedReplays(s: Sys, id: nat, off: nat, size: nat, rid: nat, n: nat, dst: seq<int>, src: seq<int>)
    requires Inv(s) && s.bound.Some? && id in s.lists && Replayable(s, id, off, size, rid, n)
    requires HasRoom(s, s.lists[id].requests[rid..rid + n], size)
    requires off + size <= |src| && s.lists[s.bound.value].maxBuf <= |dst|
    ensures var q, b := s.lists[id].requests[rid..rid + n], s.bound.value;
      var p, t := Prepared(s, q), UseSaved(s, id, off, size, rid, n);
      t.cursor == p.cursor + size && Replayed(p.lists[b], t.lists[b], q, off, size, p.cursor, dst, src)
  {
    hide Inv, Sys.Closed, Chained, SavedEnd, Prepared, UseFails, Replayed, UseRequests, Savable, HasRoom;
    SavableFacts(s.lists[id], CursorOf(s, id), off, size, rid, n);
    FailsExactly(s, s.lists[id].requests[rid..rid + n], size);
    SavableChained(s.lists[id], CursorOf(s, id), off, size, rid, n);
    UseRequestsReplay(s, s.lists[id].requests[rid..rid + n], off, size, dst, src);
  }

  lemma UseRequestsReplay(s: Sys, q: seq<Request>, off: nat, size: nat, dst: seq<int>, src: seq<int>)
    requires Inv(s) && s.bound.Some? && Chained(q, off) && SavedEnd(q, off, |q|) <= off + size <= |src|
    requires !UseFails(s, q, size) && s.lists[s.bound.value].maxBuf <= |dst|
    ensures var b, p, t := s.bound.value, Prepared(s, q), UseRequests(s, q, off, size);
      t.cursor == p.cursor + size && Replayed(p.lists[b], t.lists[b], q, off, size, p.cursor, dst, src)
  {
    hide ListsOk, FlagsOk, Chained, SavedEnd, Prepared, UseFails, Replayed, Replay;
    PreparedFits(s, q, size);
    PreparedMax(s, q, size);
    ReplayReplays(Prepared(s, q), q, off, size, dst, src);
  }

  lemma PreparedMax(s: Sys, q: seq<Request>, size: nat)
    requires Inv(s) && s.bound.Some? && !UseFails(s, q, size)
    ensures Prepared(s, q).bound == s.bound && Prepared(s, q).lists[s.bound.value].maxBuf == s.lists[s.bound.value].maxBuf
  {
    hide ListsOk, FlagsOk, Split, Closing;
    JoinKeeps(s, q);
    if SplitBytes(s, q) > 0 {
      JoinSame(s, q);
      SplitExact(Join(s, q));
    }
  }

  lemma ReplayReplays(s: Sys, q: seq<Request>, off: nat, size: nat, dst: seq<int>, src: seq<int>)
    requires Inv(s) && s.bound.Some? && Chained(q, off) && SavedEnd(q, off, |q|) <= off + size <= |src|
    requires var l := s.lists[s.bound.value]; l.used + |q| <= |l.requests| && s.cursor + size <= l.maxBuf <= |dst|
    ensures var t, b := Replay(s, q, off, size), s.bound.value;
      t.cursor == s.cursor + size && Replayed(s.lists[b], t.lists[b], q, off, size, s.cursor, dst, src)
  {
    hide ListsOk, FlagsOk, Chained, SavedEnd, Commit, Replayed, WithCopies;
    var b := s.bound.value;
    BufferedIn(s, b);
    CopyCounts(s.lists[b], q, off, size, s.cursor);
    if |q| > 0 { CommitLayout(Copy(s, q, off, size), |q|); }
    CopiesReplay(s.lists[b], Replay(s, q, off, size).lists[b], q, off, size, s.cursor, dst, src);
  }

  lemma CopyCounts(l: List, q: seq<Request>, off: nat, size: nat, cursor: nat)
    requires Chained(q, off) && l.lastSplit <= cursor && l.used + |q| <= |l.requests|
    ensures WithCopies(l, q, off, size, cursor).used == l.used
  {
    hide Chained;
  }

  // ---------- the call ----------

  lemma JoinMeans(s: Sys, q: seq<Request>)
    requires s.Closed() && s.bound.Some?
    ensures var b, t := s.bound.value, SaveCursor(s).(cursor := WriteReg(s.cursor, s.BoundMax()));
      Join(s, q) == if Joins(s, q) then t.Put(b, t.lists[b].(usedBuf := t.lists[b].usedBuf + 8)) else SaveCursor(s)
    ensures SaveCursor(s).lists[s.bound.value] == s.lists[s.bound.value].(usedBuf := s.cursor)
  {
    hide Joins, WriteReg, Sys.Put, Sys.BoundMax;
    var b := s.bound.value;
    var l := s.lists[b];
    PutAt(s, b, l.(usedBuf := s.cursor));
    PutTwice(s, b, l.(usedBuf := s.cursor), l.(usedBuf := s.cursor + 8), WriteReg(s.cursor, s.BoundMax()));
  }

  lemma PutAt(s: Sys, id: nat, l: List)
    ensures id in s.Put(id, l).lists && s.Put(id, l).lists[id] == l
  {}

  lemma PutTwice(s: Sys, id: nat, l: List, m: List, cursor: nat)
    ensures s.Put(id, l).(cursor := cursor).Put(id, m) == s.Put(id, m).(cursor := cursor)
  {
    assert s.lists[id := l][id := m] == s.lists[id := m];
  }

  /** The pending words are aligned for a first copy that is a render request. */
  method JoinNow(m: Manager, ghost q: seq<Request>, first: bool)
    requires m.Valid() && m.bound != null && first == StartsRender(q)
    modifies m`cursor, m.bound`usedBuf
    ensures m.Valid() && m.View() == Join(old(m.View()), q)
  {
    hide Manager.Views, Manager.Wired, Sys.Closed, WriteReg, Join, SaveCursor, StartsRender;
    m.PointersLinked();
    m.ViewsAt(m.bound);
    JoinMeans(m.View(), q);
    m.SaveCursorNow();
    m.ViewsAt(m.bound);
    if m.bound.lastSplit != m.bound.usedBuf && first && m.bound.usedBuf / 8 % 2 == 1 {
      m.WriteCountedReg();
    }
  }

  lemma CopyMeans(s: Sys, q: seq<Request>, off: nat, size: nat)
    requires s.Closed() && s.bound.Some? && Chained(q, off)
    requires var l := s.lists[s.bound.value]; l.used + |q| <= |l.requests| && l.lastSplit <= s.cursor
    ensures var b := s.bound.value;
      Copy(s, q, off, size) == s.Put(b, WithCopies(s.lists[b], q, off, size, s.cursor)).(cursor := s.cursor + size)
  {
    hide Chained;
  }

  /** The copying part on the bound list and its buffer, and the new cursor. */
  method CopyNow(m: Manager, saved: CmdList, dst: array<int>, src: array<int>, off: nat, size: nat, rid: nat, n: nat)
    requires m.Valid() && m.bound != null && m.Linked(saved)
    requires m.bound.used + n <= m.bound.requests.Length && rid + n <= saved.requests.Length
    requires if m.bound == saved then dst == src && off + size <= m.cursor && rid + n <= saved.used else dst != src
    requires var q := saved.requests[rid..rid + n]; Chained(q, off) && SavedEnd(q, off, n) <= off + size <= src.Length
    requires m.bound.lastSplit <= m.cursor == m.bound.usedBuf && m.cursor + size <= dst.Length && size % 8 == 0
    modifies m`cursor, m.bound`lastSplit, m.bound`usedBuf, m.bound.requests, dst
    ensures m.Valid() && m.View() == Copy(old(m.View()), old(saved.requests[rid..rid + n]), off, size)
    ensures dst[..] == CopiedBytes(old(dst[..]), old(src[..]), off, size, old(m.cursor))
  {
    hide Manager.Views, Manager.Wired, Sys.Closed, Chained, SavedEnd, CopiedBytes, WithCopies, Copy;
    m.PointersLinked();
    m.ViewsAt(m.bound);
    m.ViewsAt(saved);
    m.Apart(m.bound);
    CopyMeans(m.View(), saved.requests[rid..rid + n], off, size);
    m.cursor := CopyCommands(m.bound, dst, m.cursor, saved, src, off, size, rid, n);
    m.OneList(m.bound);
  }

  /** Preparing leaves the recorded requests alone, and never moves the cursor back. */
  lemma PreparedKeepsSaved(s: Sys, q: seq<Request>, size: nat, id: nat, rid: nat)
    requires Inv(s) && s.bound.Some? && !UseFails(s, q, size) && id in s.lists
    requires rid + |q| <= s.lists[id].used <= |s.lists[id].requests| && q == s.lists[id].requests[rid..rid + |q|]
    ensures var p := Prepared(s, q);
      && id in p.lists && rid + |q| <= p.lists[id].used <= |p.lists[id].requests|
      && p.lists[id].requests[rid..rid + |q|] == q && s.cursor <= p.cursor
  {
    hide ListsOk, FlagsOk, Prepared, UseFails, SplitBytes, Joins;
    PreparedPending(s, q, size);
    CountsIn(s, s.bound.value);
    if s.bound != Some(id) { PreparedElsewhere(s, q, id); }
    PreparedCounts(s, q, size);
  }

  lemma PreparedCounts(s: Sys, q: seq<Request>, size: nat)
    requires Inv(s) && s.bound.Some? && !UseFails(s, q, size)
    ensures var l := Prepared(s, q).lists[s.bound.value]; l.used <= |l.requests|
  {
    PreparedFits(s, q, size);
    hide ListsOk, FlagsOk, Prepared, UseFails;
  }

  /** List id is as it was. */
  predicate Kept(s: Sys, t: Sys, id: nat) {
    t.bound == s.bound && id in s.lists && id in t.lists && t.lists[id] == s.lists[id]
  }

  lemma PreparedElsewhere(s: Sys, q: seq<Request>, id: nat)
    requires s.Closed() && s.bound.Some? && id in s.lists && s.bound != Some(id)
    ensures Kept(s, Prepared(s, q), id)
  {
    hide Split, Join, SplitBytes;
    JoinElsewhere(s, q, id);
    SplitElsewhere(Join(s, q), id);
  }

  lemma JoinElsewhere(s: Sys, q: seq<Request>, id: nat)
    requires s.Closed() && s.bound.Some? && id in s.lists && s.bound != Some(id)
    ensures Kept(s, Join(s, q), id)
  {
    hide Joins;
  }

  lemma SplitElsewhere(s: Sys, id: nat)
    requires s.Closed() && s.bound.Some? && id in s.lists && s.bound != Some(id)
    ensures Kept(s, Split(s), id)
  {
    hide Commit, CloseRender;
    if !SplitFails(s) {
      CloseElsewhere(SaveCursor(s), id);
      CommitElsewhere(CloseRender(SaveCursor(s)), 1, id);
    }
  }

  lemma CloseElsewhere(s: Sys, id: nat)
    requires s.Closed() && !SplitFails(s) && id in s.lists && s.bound != Some(id)
    ensures Kept(s, CloseRender(s), id)
  {
    hide Closing, WriteRegs;
  }

  lemma CommitElsewhere(s: Sys, n: nat, id: nat)
    requires s.Closed() && s.bound.Some? && var l := s.lists[s.bound.value]; l.used + n <= |l.requests|
    requires id in s.lists && s.bound != Some(id)
    ensures Kept(s, Commit(s, n), id)
  {}

  /** The capacity check, and the split of pending words that cannot join a copy. */
  method PrepareNow(m: Manager, ghost q: seq<Request>, size: nat, n: nat, first: bool) returns (ok: bool)
    requires m.Valid() && m.bound != null && n == |q| && first == StartsRender(q) && Inv(m.View())
    modifies m`isRunning, m`stopSpeculative, m`log, m`cursor
    modifies m.bound`used, m.bound`issued, m.bound`usedBuf, m.bound`lastSplit, m.bound.requests
    ensures m.Valid() && ok == !UseFails(old(m.View()), q, size)
    ensures m.View() == if ok then Prepared(old(m.View()), q) else Join(old(m.View()), q)
  {
    hide ListsOk, FlagsOk, Manager.Views, Manager.Wired, Sys.Closed, Join, Split, StartsRender;
    ghost var s := m.View();
    m.PointersLinked();
    m.ViewsAt(m.bound);
    JoinKeeps(s, q);
    GapIs(s, q);
    JoinNow(m, q, first);
    BufferedIn(m.View(), m.bound.id);
    m.ViewsAt(m.bound);
    var cur := m.bound;
    var gap := if cur.lastSplit != cur.usedBuf && n > 0 && !first then (if cur.usedBuf / 8 % 2 == 1 then 24 else 32) else 0;
    if cur.used + n + (if gap > 0 then 1 else 0) > cur.requests.Length || cur.usedBuf + size + gap > cur.maxBuf {
      return false;
    }
    if gap > 0 { m.SplitDraw(); }
    return true;
  }

  /** The size of the split, from what the list knows once the pending words are aligned. */
  lemma GapIs(s: Sys, q: seq<Request>)
    requires s.Closed() && s.bound.Some?
    ensures var l := Join(s, q).lists[s.bound.value];
      SplitBytes(s, q) ==
        if l.lastSplit != l.usedBuf && |q| > 0 && !StartsRender(q) then (if l.usedBuf / 8 % 2 == 1 then 24 else 32) else 0
  {}

  /** Copying and committing. */
  method ReplayNow(m: Manager, saved: CmdList, dst: array<int>, src: array<int>, off: nat, size: nat, rid: nat, n: nat,
      ghost p: Sys, ghost q: seq<Request>)
    requires m.Valid() && m.bound != null && m.Linked(saved) && m.View() == p && Inv(p)
    requires n == |q| && rid + n <= saved.used && saved.used <= saved.requests.Length && saved.requests[rid..rid + n] == q
    requires Chained(q, off) && SavedEnd(q, off, n) <= off + size <= src.Length && size % 8 == 0
    requires if m.bound == saved then dst == src && off + size <= m.cursor else dst != src
    requires m.bound.used + n <= m.bound.requests.Length
    requires m.bound.lastSplit <= m.cursor == m.bound.usedBuf && m.cursor + size <= dst.Length
    modifies m`isRunning, m`stopSpeculative, m`log, m`cursor
    modifies m.bound`used, m.bound`issued, m.bound`usedBuf, m.bound`lastSplit, m.bound.requests, dst
    ensures m.Valid() && m.View() == Replay(p, q, off, size)
    ensures dst[..] == CopiedBytes(old(dst[..]), old(src[..]), off, size, p.cursor)
  {
    hide ListsOk, FlagsOk, Manager.Views, Manager.Wired, Sys.Closed, Chained, SavedEnd, CopiedBytes, Copy, Commit;
    m.PointersLinked();
    CopyNow(m, saved, dst, src, off, size, rid, n);
    m.ViewsAt(m.bound);
    if n > 0 { m.CommitRequests(n); }
  }

  /** The call, once the recorded requests are at hand. */
  method UseRequestsNow(m: Manager, saved: CmdList, dst: array<int>, src: array<int>, off: nat, size: nat, rid: nat, n: nat,
      ghost s: Sys, ghost q: seq<Request>)
    requires m.Valid() && m.bound != null && m.Linked(saved) && m.View() == s && Inv(s)
    requires n == |q| && rid + n <= saved.used && saved.used <= saved.requests.Length && saved.requests[rid..rid + n] == q
    requires Chained(q, off) && SavedEnd(q, off, n) <= off + size <= src.Length && size % 8 == 0
    requires if m.bound == saved then dst == src && off + size <= m.cursor else dst != src
    requires m.bound.maxBuf <= dst.Length
    modifies m`isRunning, m`stopSpeculative, m`log, m`cursor
    modifies m.bound`used, m.bound`issued, m.bound`usedBuf, m.bound`lastSplit, m.bound.requests, dst
    ensures m.Valid() && m.View() == UseRequests(s, q, off, size)
    ensures UseFails(s, q, size) ==> dst[..] == old(dst[..])
    ensures !UseFails(s, q, size) ==>
      Prepared(s, q).cursor + size <= dst.Length
      && dst[..] == CopiedBytes(old(dst[..]), old(src[..]), off, size, Prepared(s, q).cursor)
  {
    hide Inv, Manager.Views, Manager.Wired, Sys.Closed, Chained, SavedEnd;
    hide Join, Split, Prepared, UseFails, CopiedBytes, Replay, StartsRender;
    m.PointersLinked();
    m.ViewsAt(saved);
    m.ViewsAt(m.bound);
    FirstIs(q);
    var first := n > 0 && saved.requests[rid].work.Render?;
    var ok := PrepareNow(m, q, size, n, first);
    if !ok { return; }
    PreparedReady(s, q, size, saved.id, rid);
    m.ViewsAt(saved);
    m.ViewsAt(m.bound);
    ReplayNow(m, saved, dst, src, off, size, rid, n, Prepared(s, q), q);
  }

  /** All that copying asks for. */
  lemma PreparedReady(s: Sys, q: seq<Request>, size: nat, id: nat, rid: nat)
    requires Inv(s) && s.bound.Some? && !UseFails(s, q, size) && id in s.lists
    requires rid + |q| <= s.lists[id].used <= |s.lists[id].requests| && q == s.lists[id].requests[rid..rid + |q|]
    ensures var p := Prepared(s, q); var l := p.lists[s.bound.value];
      && Inv(p) && p.bound == s.bound && s.cursor <= p.cursor && l.lastSplit <= p.cursor == l.usedBuf
      && p.cursor + size <= l.maxBuf == s.lists[s.bound.value].maxBuf && l.used + |q| <= |l.requests|
      && id in p.lists && rid + |q| <= p.lists[id].used <= |p.lists[id].requests|
      && p.lists[id].requests[rid..rid + |q|] == q
  {
    hide ListsOk, FlagsOk, Prepared, UseFails;
    PreparedFits(s, q, size);
    PreparedMax(s, q, size);
    PreparedUsed(s, q, size);
    PreparedKeepsSaved(s, q, size, id, rid);
    BufferedIn(Prepared(s, q), s.bound.value);
  }

  /** nngxUseSavedCmdlist with copycmd, of a recording without external buffers; both lists may be one.
      UseSavedReplays says what the requests it adds cover. */
  method UseSavedCmdlist(m: Manager, saved: CmdList, dst: array<int>, src: array<int>, off: nat, size: nat, rid: nat, n: nat,
      ghost s: Sys)
    requires m.Valid() && m.bound != null && m.Linked(saved) && m.View() == s && Inv(s)
    requires saved.id in s.lists && Savable(s.lists[saved.id], CursorOf(s, saved.id), off, size, rid, n)
    requires (m.bound == saved) == (dst == src) && m.bound.maxBuf <= dst.Length && off + size <= src.Length
    modifies m`isRunning, m`stopSpeculative, m`log, m`cursor
    modifies m.bound`used, m.bound`issued, m.bound`usedBuf, m.bound`lastSplit, m.bound.requests, dst
    ensures m.Valid() && m.View() == UseSaved(s, saved.id, off, size, rid, n)
    ensures var q := s.lists[saved.id].requests[rid..rid + n];
      if !HasRoom(s, q, size) then dst[..] == old(dst[..]) else
        Prepared(s, q).cursor + size <= dst.Length
        && dst[..] == CopiedBytes(old(dst[..]), old(src[..]), off, size, Prepared(s, q).cursor)
  {
    hide ListsOk, FlagsOk, Manager.Views, Manager.Wired, Sys.Closed, Chained, SavedEnd, Tiled;
    hide Prepared, UseFails, CopiedBytes, Savable, UseRequests, HasRoom;
    m.PointersLinked();
    m.ViewsAt(saved);
    m.ViewsAt(m.bound);
    ghost var l := saved.View();
    SavableFacts(l, CursorOf(s, saved.id), off, size, rid, n);
    SavableChained(l, CursorOf(s, saved.id), off, size, rid, n);
    FailsExactly(s, l.requests[rid..rid + n], size);
    UseRequestsNow(m, saved, dst, src, off, size, rid, n, s, l.requests[rid..rid + n]);
  }

  lemma FirstIs(q: seq<Request>)
    ensures StartsRender(q) == (|q| > 0 && q[0].work.Render?)
  {}

  lemma SavableFacts(l: List, cursor: nat, off: nat, size: nat, rid: nat, n: nat)
    requires Savable(l, cursor, off, size, rid, n)
    ensures rid + n <= l.used <= |l.requests| && off + size <= cursor && size % 8 == 0
  {}

  lemma PreparedUsed(s: Sys, q: seq<Request>, size: nat)
    requires Inv(s) && s.bound.Some? && !UseFails(s, q, size)
    ensures Prepared(s, q).lists[s.bound.value].usedBuf == Prepared(s, q).cursor
  {
    hide ListsOk, FlagsOk, Split, Closing;
    JoinKeeps(s, q);
    if SplitBytes(s, q) > 0 {
      JoinSame(s, q);
      SplitUsed(Join(s, q));
    }
  }

  lemma SplitUsed(s: Sys)
    requires Inv(s) && s.bound.Some? && !SplitFails(s)
    ensures Split(s).lists[s.bound.value].usedBuf == Split(s).cursor
  {
    hide ListsOk, FlagsOk, Closing, Commit, CloseRender;
    BufferedIn(s, s.bound.value);
    CloseRenderExact(SaveCursor(s));
    CommitLayout(CloseRender(SaveCursor(s)), 1);
  }
}
