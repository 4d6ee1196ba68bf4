/** Recording across whole runs: whatever happens to a list between the start and the stop of a
    recording, short of emptying it, what was recorded can be replayed. */
module CmdlistRecording {
  import opened Cmdlist
  import opened CmdlistSafety
  import opened CmdlistRuns
  import opened SavedCmdlist
  import opened Wrappers

  /** List l with its cursor at c only grew into m with its cursor at d: requests in use kept their
      work, and the own render requests added end behind c. */
  ghost predicate Grew(l: List, c: nat, m: List, d: nat) {
    && l.used <= m.used && |m.requests| == |l.requests| && m.maxBuf == l.maxBuf && c <= d
    && l.used <= |l.requests|
    && (forall k :: 0 <= k < l.used ==> m.requests[k].work == l.requests[k].work)
    && (forall k :: l.used <= k < m.used <= |m.requests| && Own(m.requests[k].work) ==>
          c < m.requests[k].work.addr + m.requests[k].work.size)
  }

  lemma GrewTrans(l: List, c: nat, m: List, d: nat, n: List, e: nat)
    requires Grew(l, c, m, d) && Grew(m, d, n, e) && n.used <= |n.requests|
    ensures Grew(l, c, n, e)
  {}

  ghost predicate ListGrew(s: Sys, t: Sys, id: nat) {
    id in s.lists && id in t.lists && Grew(s.lists[id], CursorOf(s, id), t.lists[id], CursorOf(t, id))
  }

  lemma IssueGrew(s: Sys, id: nat)
    requires s.Closed() && s.runList.Some? && id in s.lists
    ensures ListGrew(s, Issue(s), id)
  {}

  /** The bound list of u has n more requests in their slots than that of s, not counted yet. */
  ghost predicate Extended(s: Sys, u: Sys, n: nat) {
    && s.Closed() && u.Closed() && s.bound.Some? && u.bound == s.bound && u.lists.Keys == s.lists.Keys
    && (forall j <- s.lists :: j != s.bound.value ==> u.lists[j] == s.lists[j])
    && var l, m := s.lists[s.bound.value], u.lists[s.bound.value];
      m.used == l.used && l.used + n <= |m.requests|
      && Grew(l, s.cursor, m.(used := l.used + n), u.cursor)
  }

  lemma WakeGrew(s: Sys, id: nat)
    requires s.Closed() && s.bound.Some? && id in s.lists
    ensures ListGrew(s, Wake(s), id)
  {
    hide Issue;
    if s.bound == s.runList && s.startRun && !s.isRunning { IssueGrew(s.(isRunning := true), id); }
  }

  lemma CountGrew(s: Sys, u: Sys, n: nat, id: nat)
    requires Extended(s, u, n) && id in s.lists
    ensures ListGrew(s, Count(u, n), id)
  {}

  lemma CommitGrew(s: Sys, u: Sys, n: nat, id: nat)
    requires Extended(s, u, n) && id in s.lists
    ensures ListGrew(s, Commit(u, n), id)
  {
    hide Extended, Wake, Grew;
    CountGrew(s, u, n, id);
    CountClosed(s, u, n);
    WakeGrew(Count(u, n), id);
    GrewOn(s, Count(u, n), Commit(u, n), id);
  }

  lemma CountClosed(s: Sys, u: Sys, n: nat)
    requires Extended(s, u, n)
    ensures u.Closed() && u.bound.Some? && u.lists[u.bound.value].used + n <= |u.lists[u.bound.value].requests|
    ensures Count(u, n).Closed() && Count(u, n).bound == u.bound
  {}

  lemma GrewOn(s: Sys, t: Sys, u: Sys, id: nat)
    requires ListGrew(s, t, id) && ListGrew(t, u, id) && u.Closed()
    ensures ListGrew(s, u, id)
  {
    hide Grew;
    GrewTrans(s.lists[id], CursorOf(s, id), t.lists[id], CursorOf(t, id), u.lists[id], CursorOf(u, id));
  }

  lemma ProduceGrew(s: Sys, work: Work, id: nat)
    requires s.Closed() && s.bound.Some? && id in s.lists && !Own(work)
    requires s.lists[s.bound.value].used < |s.lists[s.bound.value].requests|
    ensures ListGrew(s, Produce(s, work), id)
  {
    hide Commit;
    CommitGrew(s, s.Put(s.bound.value, FillSlot(s.lists[s.bound.value], work)), 1, id);
  }

  lemma SaveGrew(s: Sys, id: nat)
    requires s.Closed() && id in s.lists
    ensures ListGrew(s, SaveCursor(s), id)
  {}

  lemma CloseExtends(s: Sys)
    requires s.Closed() && !SplitFails(s) && Buffered(s.lists[s.bound.value], s.cursor)
    ensures Extended(s, CloseRender(s), 1)
  {
    WriteRegsFit(s.cursor, s.lists[s.bound.value].maxBuf, Closing(s.cursor));
    hide Closing, WriteRegs;
  }

  lemma SplitGrew(s: Sys, id: nat)
    requires Inv(s) && id in s.lists
    ensures ListGrew(s, Cmdlist.Split(s), id)
  {
    hide ListsOk, FlagsOk, Commit, CloseRender, SaveCursor, Grew, Extended;
    GrewRefl(s, id);
    SaveGrew(s, id);
    SavedKeeps(s);
    var t := SaveCursor(s);
    if !SplitFails(s) {
      SavedSteady(s);
      BufferedIn(t, s.bound.value);
      CloseExtends(t);
      CommitGrew(t, CloseRender(t), 1, id);
      CountClosed(t, CloseRender(t), 1);
      GrewOn(s, t, Commit(CloseRender(t), 1), id);
    }
  }

  lemma GrewRefl(s: Sys, id: nat)
    requires s.Closed() && id in s.lists
    ensures ListGrew(s, s, id)
  {}

  lemma AddExternalGrew(s: Sys, addr: nat, size: nat, id: nat)
    requires Inv(s) && id in s.lists
    ensures ListGrew(s, Cmdlist.AddExternal(s, addr, size), id)
  {
    hide ListsOk, FlagsOk, Produce, Cmdlist.Split, SaveCursor, Grew, SplitFails;
    GrewRefl(s, id);
    if s.bound.Some? && size != 0 {
      var t := SaveCursor(s);
      SaveGrew(s, id);
      SavedKeeps(s);
      SavedSteady(s);
      SplitGrew(t, id);
      GrewOn(s, t, Cmdlist.Split(t), id);
      var l := t.lists[s.bound.value];
      if l.used < |l.requests| {
        ProduceGrew(t, Render(addr, size, true), id);
        GrewOn(s, t, Produce(t, Render(addr, size, true)), id);
      }
      if !SplitFails(t) && l.used + 2 <= |l.requests| {
        ProduceGrew(Cmdlist.Split(t), Render(addr, size, true), id);
        GrewOn(s, Cmdlist.Split(t), Produce(Cmdlist.Split(t), Render(addr, size, true)), id);
      }
      SavedLayout(s);
    }
  }

  lemma SavedLayout(s: Sys)
    requires s.Closed() && s.bound.Some?
    ensures SaveCursor(s).lists[s.bound.value] == s.lists[s.bound.value].(usedBuf := s.cursor)
  {}

  lemma InterruptGrew(s: Sys, id: nat)
    requires s.Closed() && InFlight(s) && id in s.lists
    ensures ListGrew(s, Cmdlist.Interrupt(s), id)
  {
    hide Issue, Grew;
    RetireGrew(s, id);
    var t := Retire(s);
    IssueGrew(t, id);
    GrewOn(s, t, Issue(t), id);
  }

  lemma RetireGrew(s: Sys, id: nat)
    requires s.Closed() && InFlight(s) && id in s.lists
    ensures ListGrew(s, Retire(s), id)
  {}

  lemma RunGrew(s: Sys, id: nat)
    requires s.Closed() && id in s.lists
    ensures ListGrew(s, Cmdlist.Run(s), id)
  {
    hide Issue, Grew;
    GrewRefl(s, id);
    if s.bound.Some? && !s.isRunning {
      var t := s.(runList := s.bound, startRun := true, isRunning := true);
      IssueGrew(t, id);
    }
  }

  lemma StopGrew(s: Sys, id: nat)
    requires s.Closed() && (s.isRunning && s.runList.Some? ==> s.lists[s.runList.value].issued > 0) && id in s.lists
    ensures ListGrew(s, Cmdlist.Stop(s), id)
  {}

  lemma BindGrew(s: Sys, next: nat, id: nat)
    requires Inv(s) && id in s.lists
    ensures ListGrew(s, Cmdlist.Bind(s, next), id)
  {
    hide ListsOk, FlagsOk, Create, Attach, Grew;
    CreateKeeps(s, next);
    CreateGrew(s, next, id);
    var t := Create(s, next);
    SaveGrew(t, id);
    SavedKeeps(t);
    GrewOn(s, t, SaveCursor(t), id);
    SavedSteady(t);
    AttachGrew(SaveCursor(t), next, id);
    GrewOn(s, SaveCursor(t), Attach(SaveCursor(t), next), id);
  }

  lemma CreateGrew(s: Sys, next: nat, id: nat)
    requires s.Closed() && id in s.lists
    ensures ListGrew(s, Create(s, next), id)
  {}

  lemma AttachGrew(s: Sys, next: nat, id: nat)
    requires s.Closed() && id in s.lists && (next == 0 || next in s.lists)
    requires s.bound.Some? ==> s.lists[s.bound.value].usedBuf == s.cursor
    ensures ListGrew(s, Attach(s, next), id)
  {}

  // ---------- replaying ----------

  lemma JoinGrew(s: Sys, q: seq<Request>, id: nat)
    requires Inv(s) && s.bound.Some? && id in s.lists
    ensures ListGrew(s, Join(s, q), id)
  {
    hide ListsOk, FlagsOk, Joins, WriteReg;
    BufferedIn(s, s.bound.value);
    CountsOrdered(s, id);
    WriteMoves(s.cursor, s.BoundMax());
  }

  lemma WriteMoves(c: nat, max: nat)
    ensures c <= WriteReg(c, max)
  {}

  lemma CountsOrdered(s: Sys, id: nat)
    requires s.Closed() && id in s.lists
    ensures s.lists[id].run <= s.lists[id].issued <= s.lists[id].used <= |s.lists[id].requests|
  {}

  lemma CopyExtends(s: Sys, q: seq<Request>, off: nat, size: nat)
    requires s.Closed() && s.bound.Some? && Chained(q, off)
    requires var l := s.lists[s.bound.value]; l.used + |q| <= |l.requests| && l.lastSplit <= s.cursor
    ensures Extended(s, Copy(s, q, off, size), |q|)
  {
    hide Chained, CopiedWork, CopiedEnd;
    var l, m := s.lists[s.bound.value], Copy(s, q, off, size).lists[s.bound.value];
    forall k | l.used <= k < l.used + |q| && Own(m.requests[k].work)
      ensures s.cursor < m.requests[k].work.addr + m.requests[k].work.size
    {
      CopiedReaches(q, off, l.lastSplit, s.cursor, k - l.used);
      assert m.requests[k] == Copied(q, off, l.lastSplit, s.cursor)[k - l.used];
    }
  }

  lemma CopiedReaches(q: seq<Request>, off: nat, at: nat, cursor: nat, k: nat)
    requires Chained(q, off) && at <= cursor && k < |q|
    ensures var w := CopiedWork(q, off, at, cursor, k); Own(w) ==> cursor < w.addr + w.size
  {
    hide SavedEnd;
    SavedEndGrows(q, off, k);
  }

  lemma ReplayGrew(s: Sys, q: seq<Request>, off: nat, size: nat, id: nat)
    requires Inv(s) && s.bound.Some? && Chained(q, off) && id in s.lists
    requires var l := s.lists[s.bound.value]; l.used + |q| <= |l.requests|
    ensures ListGrew(s, Replay(s, q, off, size), id)
  {
    hide ListsOk, FlagsOk, Chained, Copy, Commit, Grew, Extended;
    BufferedIn(s, s.bound.value);
    CopyExtends(s, q, off, size);
    var u := Copy(s, q, off, size);
    CountClosed(s, u, |q|);
    if |q| > 0 {
      CommitGrew(s, u, |q|, id);
    } else {
      CountGrew(s, u, 0, id);
      CountNone(u);
    }
  }

  lemma CountNone(s: Sys)
    requires s.Closed() && s.bound.Some?
    ensures Count(s, 0) == s
  {
    assert s.lists[s.bound.value].(used := s.lists[s.bound.value].used + 0) == s.lists[s.bound.value];
  }

  lemma UseRequestsGrew(s: Sys, q: seq<Request>, off: nat, size: nat, id: nat)
    requires Inv(s) && s.bound.Some? && Chained(q, off) && id in s.lists
    ensures ListGrew(s, UseRequests(s, q, off, size), id)
  {
    hide ListsOk, FlagsOk, Chained, Join, Replay, Cmdlist.Split, UseFails, SplitBytes, Grew;
    JoinGrew(s, q, id);
    if !UseFails(s, q, size) {
      PreparedFits(s, q, size);
      JoinKeeps(s, q);
      var t, u := Join(s, q), Prepared(s, q);
      SplitGrew(t, id);
      GrewOn(s, t, Cmdlist.Split(t), id);
      ReplayGrew(u, q, off, size, id);
      GrewOn(s, u, Replay(u, q, off, size), id);
    }
  }

  lemma UseSavedGrew(s: Sys, src: nat, off: nat, size: nat, rid: nat, n: nat, id: nat)
    requires Inv(s) && Replayable(s, src, off, size, rid, n) && id in s.lists
    ensures ListGrew(s, SavedCmdlist.UseSaved(s, src, off, size, rid, n), id)
  {
    hide Inv, ListGrew, Chained, UseRequests, SavedEnd;
    GrewHere(s, id);
    if s.bound.Some? && src in s.lists {
      SavableChained(s.lists[src], CursorOf(s, src), off, size, rid, n);
      UseRequestsGrew(s, s.lists[src].requests[rid..rid + n], off, size, id);
    }
  }

  lemma GrewHere(s: Sys, id: nat)
    requires Inv(s) && id in s.lists
    ensures s.Closed() && ListGrew(s, s, id)
  {
    GrewRefl(s, id);
  }

  // ---------- whole runs ----------

  lemma StepGrew(s: Sys, step: Step, id: nat)
    requires Inv(s) && Enabled(s, step) && id in s.lists && !Resets(s, step, id)
    ensures ListGrew(s, Do(s, step), id)
  {
    hide ListsOk, FlagsOk, Grew, Cmdlist.Run, Cmdlist.Stop, Cmdlist.Interrupt, Cmdlist.Submit, Cmdlist.Split,
      Cmdlist.Flush, Cmdlist.AddExternal, Cmdlist.Bind, SavedCmdlist.UseSaved;
    match step
    case Run => RunGrew(s, id);
    case Stop => StopKeeps(s); StopGrew(s, id);
    case Split => SplitGrew(s, id);
    case Flush => FlushGrew(s, id);
    case Submit(code) => SubmitGrew(s, code, id);
    case AddExternal(addr, size) => AddExternalGrew(s, addr, size, id);
    case Interrupt => InterruptGrew(s, id);
    case Bind(next) => BindGrew(s, next, id);
    case UseSaved(src, off, size, rid, n) => UseSavedGrew(s, src, off, size, rid, n, id);
    case _ => OtherGrew(s, step, id);
  }

  lemma FlushGrew(s: Sys, id: nat)
    requires Inv(s) && id in s.lists
    ensures ListGrew(s, Cmdlist.Flush(s), id)
  {
    hide ListsOk, FlagsOk, Cmdlist.Split, Grew;
    GrewRefl(s, id);
    SaveGrew(s, id);
    SplitGrew(s, id);
  }

  lemma SubmitGrew(s: Sys, code: int, id: nat)
    requires s.Closed() && id in s.lists
    ensures ListGrew(s, Cmdlist.Submit(s, code), id)
  {
    hide Produce, Grew;
    GrewRefl(s, id);
    if s.bound.Some? && s.lists[s.bound.value].used < |s.lists[s.bound.value].requests| { ProduceGrew(s, Engine(code), id); }
  }

  lemma OtherGrew(s: Sys, step: Step, id: nat)
    requires Inv(s) && Enabled(s, step) && id in s.lists && !Resets(s, step, id)
    requires step.MarkStop? || step.Write? || step.Clear? || step.Storage? || step.Delete?
    ensures ListGrew(s, Do(s, step), id)
  {
    hide ListsOk, FlagsOk;
    if step.Clear? || step.Storage? || step.Delete? { ResetGrew(s, step, id); }
  }

  lemma ResetGrew(s: Sys, step: Step, id: nat)
    requires Inv(s) && Enabled(s, step) && id in s.lists && !Resets(s, step, id)
    requires step.Clear? || step.Storage? || step.Delete?
    ensures ListGrew(s, Do(s, step), id)
  {
    hide ListsOk, FlagsOk, Do, Resets;
    CountsOrdered(s, id);
    ResetSpares(s, step, id);
  }

  lemma {:induction false} RunsGrew(s: Sys, steps: seq<Step>, t: Sys, id: nat)
    requires Inv(s) && Runs(s, steps, t) && Keeping(s, steps, id) && id in s.lists
    ensures Inv(t) && ListGrew(s, t, id)
    decreases |steps|
  {
    hide Inv, Do, Enabled, Resets, Grew;
    GrewHere(s, id);
    if steps != [] {
      var u := Do(s, steps[0]);
      StepGrew(s, steps[0], id);
      RunsGrew(u, steps[1..], t, id);
      GrewHere(t, id);
      GrewOn(s, u, t, id);
    }
  }

  lemma RecordingGrew(l: List, c: nat, m: List, d: nat, off: nat, rid: nat)
    requires Recording(l, c, off, rid) && Grew(l, c, m, d) && m.run <= m.used <= |m.requests| && Tiled(m) && Buffered(m, d)
    ensures Recording(m, d, off, rid)
  {
    hide OwnTotal, Aligned;
    OwnTotalSame(l.requests, m.requests, rid);
    forall k | rid <= k < m.used && Own(m.requests[k].work) ensures Ends(m.requests[k].work, off) {
      if k < l.used { assert m.requests[k].work == l.requests[k].work; } else { EndAligned(m, k); FullNoEnd(m, d, k, off); }
    }
  }

  lemma FullNoEnd(m: List, d: nat, k: nat, off: nat)
    requires m.run <= m.used <= |m.requests| && Tiled(m) && Buffered(m, d) && k < m.used && Own(m.requests[k].work)
    requires off < m.requests[k].work.addr + m.requests[k].work.size
    ensures off < m.maxBuf
  {
    hide OwnTotal, Aligned;
    OwnTotalStep(m.requests, k);
    OwnTotalGrows(m.requests, k + 1, m.used);
  }

  /** Own render requests end on 16-byte boundaries. */
  lemma EndAligned(m: List, k: nat)
    requires m.run <= m.used <= |m.requests| && Tiled(m) && k < m.used && Own(m.requests[k].work)
    ensures Aligned(m.requests[k].work.addr + m.requests[k].work.size) && m.requests[k].work.size > 0
  {
    hide OwnTotal;
    TotalAligned(m, k);
  }

  lemma {:induction false} TotalAligned(m: List, k: nat)
    requires m.run <= m.used <= |m.requests| && Tiled(m) && k <= m.used
    ensures Aligned(OwnTotal(m.requests, k))
  {
    hide Aligned;
    if k > 0 {
      TotalAligned(m, k - 1);
      AlignedSum(OwnTotal(m.requests, k - 1), OwnSize(m.requests[k - 1].work));
    } else {
      AlignedSum(0, 0);
    }
  }

  lemma AlignedSum(a: nat, b: nat)
    requires b == 0 || Aligned(b)
    ensures Aligned(0) && (Aligned(a) ==> Aligned(a + b))
  {}

  /** Recording: from a started recording (RecordingStarts), let anything happen that does not empty
      or delete the list, and stop while it is bound.  Unless an external request came in, what was
      recorded can be replayed. */
  lemma RecordingWorks(s: Sys, steps: seq<Step>, t: Sys, id: nat, off: nat, rid: nat)
    requires Inv(s) && id in s.lists && Recording(s.lists[id], CursorOf(s, id), off, rid)
    requires Runs(s, steps, t) && Keeping(s, steps, id) && t.bound == Some(id)
    requires id in t.lists && OwnOnly(t.lists[id], rid)
    ensures Inv(t) && id in Pad(t).lists
    ensures var u := Pad(t); var l := u.lists[id];
      u.cursor >= off && rid <= l.used && Savable(l, u.cursor, off, u.cursor - off, rid, l.used - rid)
  {
    hide ListsOk, FlagsOk, Grew, Recording, Savable, OwnOnly, Pad, Tiled;
    RunsGrew(s, steps, t, id);
    TiledIn(t, id);
    BufferedIn(t, id);
    RecordingGrew(s.lists[id], CursorOf(s, id), t.lists[id], CursorOf(t, id), off, rid);
    RecordingStops(t, off, rid);
    PadEffect(t);
  }

  lemma SavableGrew(l: List, c: nat, m: List, d: nat, off: nat, size: nat, rid: nat, n: nat)
    requires Savable(l, c, off, size, rid, n) && Grew(l, c, m, d) && m.run <= m.used <= |m.requests| && Tiled(m)
    ensures Savable(m, d, off, size, rid, n)
  {
    hide OwnTotal, Aligned;
    OwnTotalSame(l.requests, m.requests, rid);
    OwnTotalSame(l.requests, m.requests, rid + n);
  }

  /** A replayable recording stays replayable until its list is emptied or deleted. */
  lemma SavableStays(s: Sys, steps: seq<Step>, t: Sys, id: nat, off: nat, size: nat, rid: nat, n: nat)
    requires Inv(s) && id in s.lists && Savable(s.lists[id], CursorOf(s, id), off, size, rid, n)
    requires Runs(s, steps, t) && Keeping(s, steps, id)
    ensures id in t.lists && Savable(t.lists[id], CursorOf(t, id), off, size, rid, n)
  {
    hide ListsOk, FlagsOk, Grew, Savable, Tiled;
    RunsGrew(s, steps, t, id);
    TiledIn(t, id);
    SavableGrew(s.lists[id], CursorOf(s, id), t.lists[id], CursorOf(t, id), off, size, rid, n);
  }
}
