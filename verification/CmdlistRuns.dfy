/** Whole runs of the command list protocol: safety, order, stopping and draining. */
module CmdlistRuns {
  import opened Cmdlist
  import opened CmdlistSafety
  import CommandBuffer
  import SavedCmdlist
  import opened Wrappers

  datatype Step =
    | Run | Stop | MarkStop(id: nat, k: nat)
    | Write(to: nat) | Split | Flush | Submit(code: int) | AddExternal(addr: nat, size: nat)
    | Interrupt
    | Bind(id: nat) | Clear | Storage(bufSize: nat, requestCount: nat) | Delete(id: nat)
    | UseSaved(id: nat, off: nat, size: nat, rid: nat, n: nat)

  /** When a step can happen: an interrupt needs a request in flight, a stop mark from outside
      goes on a request not issued yet, writers obey the buffer discipline, storage comes in
      8-byte units and before anything is split off, and what is replayed has been recorded. */
  ghost predicate Enabled(s: Sys, step: Step)
    requires s.Closed()
  {
    match step
    case Interrupt => InFlight(s)
    case MarkStop(id, k) => id in s.lists && s.lists[id].issued <= k < |s.lists[id].requests|
    case Write(next) => Written(s, s.(cursor := next))
    case Storage(bufSize, _) =>
      bufSize % 8 == 0 && (s.bound.Some? && !Busy(s, s.bound.value) ==> s.lists[s.bound.value].lastSplit == 0)
    case UseSaved(id, off, size, rid, n) => SavedCmdlist.Replayable(s, id, off, size, rid, n)
    case _ => true
  }

  ghost function Next(s: Sys, step: Step): (t: Sys)
    requires Inv(s) && Enabled(s, step)
  {
    hide ListsOk, FlagsOk;
    match step
    case Run => Cmdlist.Run(s)
    case Stop => StopKeeps(s); Cmdlist.Stop(s)
    case MarkStop(id, k) => Cmdlist.MarkStop(s, id, k)
    case Write(next) => s.(cursor := next)
    case Split => Cmdlist.Split(s)
    case Flush => Cmdlist.Flush(s)
    case Submit(code) => Cmdlist.Submit(s, code)
    case AddExternal(addr, size) => Cmdlist.AddExternal(s, addr, size)
    case Interrupt => Cmdlist.Interrupt(s)
    case Bind(id) => Cmdlist.Bind(s, id)
    case Clear => Cmdlist.Clear(s)
    case Storage(bufSize, n) => Cmdlist.Storage(s, bufSize, n)
    case Delete(id) => Cmdlist.Delete(s, id)
    case UseSaved(id, off, size, rid, n) => SavedCmdlist.UseSaved(s, id, off, size, rid, n)
  }

  /** Every step keeps the invariant. */
  lemma StepKeeps(s: Sys, step: Step)
    requires Inv(s) && Enabled(s, step)
    ensures Inv(Next(s, step)) && Next(s, step).numSpeculative == s.numSpeculative
  {
    hide ListsOk, FlagsOk, SavedCmdlist.UseSaved, SavedCmdlist.Replayable;
    match step
    case Run => RunKeeps(s);
    case Stop => StopKeeps(s);
    case MarkStop(id, k) => MarkStopKeeps(s, id, k);
    case Write(next) => WriteKeeps(s, s.(cursor := next));
    case Split => SplitKeeps(s);
    case Flush => FlushKeeps(s);
    case Submit(code) => SubmitKeeps(s, code);
    case AddExternal(addr, size) => AddExternalKeeps(s, addr, size);
    case Interrupt => InterruptKeeps(s);
    case Bind(id) => BindKeeps(s, id);
    case Clear => ClearKeeps(s);
    case Storage(bufSize, n) => StorageKeeps(s, bufSize, n);
    case Delete(id) => DeleteKeeps(s, id);
    case UseSaved(id, off, size, rid, n) => SavedCmdlist.UseSavedKeeps(s, id, off, size, rid, n);
  }

  ghost function Do(s: Sys, step: Step): (t: Sys)
    requires Inv(s) && Enabled(s, step)
    ensures Inv(t) && t.numSpeculative == s.numSpeculative
  {
    StepKeeps(s, step);
    Next(s, step)
  }

  lemma SubmitKeeps(s: Sys, code: int)
    requires Inv(s)
    ensures Inv(Cmdlist.Submit(s, code))
  {
    hide ListsOk, FlagsOk, Produce;
    if s.bound.Some? && s.lists[s.bound.value].used != |s.lists[s.bound.value].requests| {
      ProduceKeeps(s, Engine(code));
    }
  }

  /** `steps` leads from s to t. */
  ghost predicate Runs(s: Sys, steps: seq<Step>, t: Sys)
    requires Inv(s)
    decreases |steps|
  {
    if steps == [] then
      s == t
    else
      Enabled(s, steps[0]) && Runs(Do(s, steps[0]), steps[1..], t)
  }

  // ---------- safety ----------

  /** The run protocol, in every state any run from initialisation can reach. */
  lemma {:induction false} Protocol(n: nat, steps: seq<Step>, t: Sys)
    requires n >= 1 && (StartsOk(n); Runs(START.(numSpeculative := n), steps, t))
    ensures Inv(t)
    ensures forall id <- t.lists :: var l := t.lists[id];
      && l.run <= l.issued <= l.used <= |l.requests| && l.issued - l.run <= n
      && (l.run < l.issued <==> Busy(t, id))
      && (t.runList == Some(id) && t.startRun && l.run < l.used ==> t.isRunning)
  {
    StartsOk(n);
    RunsKeep(START.(numSpeculative := n), steps, t);
    forall id <- t.lists ensures t.lists[id].issued - t.lists[id].run <= n { FlightStops(t, id); }
  }

  lemma {:induction false} RunsKeep(s: Sys, steps: seq<Step>, t: Sys)
    requires Inv(s) && Runs(s, steps, t)
    ensures Inv(t) && t.numSpeculative == s.numSpeculative
    decreases |steps|
  {
    hide ListsOk, FlagsOk, Do, Enabled;
    if steps != [] { RunsKeep(Do(s, steps[0]), steps[1..], t); }
  }

  /** Over any run, the requests a list has had executed since it was last reset are exactly
      requests 0 to issued, in order, each once, with the work they were given. */
  lemma ExecutedInOrder(s: Sys, steps: seq<Step>, t: Sys, id: nat)
    requires Inv(s) && Runs(s, steps, t) && id in t.lists
    ensures var l, executed := t.lists[id], Since(t.log, id);
      |executed| == l.issued <= |l.requests|
      && forall i :: 0 <= i < l.issued ==> executed[i] == Executed(id, i, l.requests[i].work)
  {
    RunsKeep(s, steps, t);
    assert OkIn(t, id);
  }

  // ---------- stopping ----------

  function Issues(log: seq<Event>): seq<Event> {
    if log == [] then
      []
    else
      var e := log[|log| - 1];
      Issues(log[..|log| - 1]) + if e.Executed? then [e] else []
  }

  lemma IssuesSnoc(log: seq<Event>, e: Event)
    ensures Issues(log + [e]) == Issues(log) + if e.Executed? then [e] else []
  {
    assert (log + [e])[..|log|] == log;
  }

  /** Stopping or stopped: nothing may be issued before the next run call. */
  predicate Quiet(s: Sys) {
    s.runList.None? || if s.isRunning then s.stopSpeculative else !s.startRun
  }

  lemma StopQuiets(s: Sys)
    requires Inv(s)
    ensures Inv(Cmdlist.Stop(s)) && Quiet(Cmdlist.Stop(s))
  {
    hide ListsOk;
    StopKeeps(s);
  }

  lemma QuietCommit(s: Sys, n: nat)
    requires s.Closed() && s.bound.Some? && Quiet(s)
    requires var l := s.lists[s.bound.value]; l.used + n <= |l.requests|
    ensures Commit(s, n) == s.Put(s.bound.value, s.lists[s.bound.value].(used := s.lists[s.bound.value].used + n))
  {}

  lemma QuietInterrupt(s: Sys)
    requires Inv(s) && Quiet(s) && InFlight(s)
    ensures var t, r := Cmdlist.Interrupt(s), s.runList.value;
      Quiet(t) && Issues(t.log) == Issues(s.log)
      && t.lists[r].issued == s.lists[r].issued && t.lists[r].run == s.lists[r].run + 1
      && t.runList == s.runList && (t.isRunning <==> t.lists[r].run < t.lists[r].issued)
  {
    hide ListsOk;
    var r := s.runList.value;
    var l := s.lists[r];
    FlightStops(s, r);
    IssuesSnoc(s.log, CalledBack(r, l.run + 1));
  }

  /** No step but Run issues anything, or wakes the list up, while quiet. */
  lemma QuietStep(s: Sys, step: Step)
    requires Inv(s) && Quiet(s) && Enabled(s, step) && step != Step.Run
    ensures Quiet(Do(s, step)) && Issues(Do(s, step).log) == Issues(s.log)
  {
    hide ListsOk, FlagsOk, Issues, Cmdlist.Interrupt, Cmdlist.Submit, Cmdlist.Split, Cmdlist.AddExternal, SavedCmdlist.UseSaved;
    match step
    case Interrupt => QuietInterrupt(s);
    case Submit(code) => QuietSubmit(s, code);
    case Split => QuietSplit(s);
    case Flush => QuietSplit(s);
    case AddExternal(addr, size) => QuietAddExternal(s, addr, size);
    case UseSaved(id, off, size, rid, n) => QuietUseSaved(s, id, off, size, rid, n);
    case _ => QuietOther(s, step);
  }

  lemma QuietOther(s: Sys, step: Step)
    requires Inv(s) && Quiet(s) && Enabled(s, step)
    requires step.Stop? || step.MarkStop? || step.Write? || step.Bind? || step.Clear? || step.Storage? || step.Delete?
    ensures Quiet(Do(s, step)) && Issues(Do(s, step).log) == Issues(s.log)
  {
    hide ListsOk, FlagsOk, Issues, Cmdlist.Clear, Cmdlist.Storage, Cmdlist.Delete;
    if step.Clear? || step.Storage? || step.Delete? {
      QuietReset(s, step);
    } else {
      QuietKept(s, step);
    }
  }

  lemma QuietKept(s: Sys, step: Step)
    requires Inv(s) && Quiet(s) && Enabled(s, step)
    requires step.Stop? || step.MarkStop? || step.Write? || step.Bind?
    ensures Quiet(Do(s, step)) && Do(s, step).log == s.log
  {
    hide ListsOk, FlagsOk, Cmdlist.Bind, Cmdlist.Stop, Cmdlist.MarkStop;
    match step
    case Stop => StopKeeps(s); QuietStop(s);
    case MarkStop(id, k) => QuietMarked(s, id, k);
    case Write(_) =>
    case Bind(id) => QuietBind(s, id);
  }

  lemma QuietStop(s: Sys)
    requires s.Closed() && Quiet(s) && (s.isRunning && s.runList.Some? ==> s.lists[s.runList.value].issued > 0)
    ensures Quiet(Cmdlist.Stop(s)) && Cmdlist.Stop(s).log == s.log
  {}

  lemma QuietMarked(s: Sys, id: nat, k: nat)
    requires s.Closed() && Quiet(s) && id in s.lists && s.lists[id].issued <= k < |s.lists[id].requests|
    ensures Quiet(Cmdlist.MarkStop(s, id, k)) && Cmdlist.MarkStop(s, id, k).log == s.log
  {}

  lemma QuietBind(s: Sys, id: nat)
    requires s.Closed() && Quiet(s)
    ensures Quiet(Cmdlist.Bind(s, id)) && Cmdlist.Bind(s, id).log == s.log
  {
    hide Sys.Closed;
  }

  lemma QuietReset(s: Sys, step: Step)
    requires Inv(s) && Quiet(s) && Enabled(s, step) && (step.Clear? || step.Storage? || step.Delete?)
    ensures Quiet(Do(s, step)) && Issues(Do(s, step).log) == Issues(s.log)
  {
    hide ListsOk, FlagsOk, Issues;
    if step.Delete? {
      IssuesSnoc(s.log, Reset(step.id));
    } else if s.bound.Some? {
      IssuesSnoc(s.log, Reset(s.bound.value));
    }
  }

  predicate SameFlags(s: Sys, t: Sys) {
    && t.runList == s.runList && t.isRunning == s.isRunning && t.startRun == s.startRun
    && t.stopSpeculative == s.stopSpeculative
  }

  predicate CountsKept(s: Sys, t: Sys, r: nat) {
    r in s.lists ==> r in t.lists && t.lists[r].issued == s.lists[r].issued && t.lists[r].run == s.lists[r].run
  }

  /** The run flags and the counts of every list are as they were. */
  predicate Steady(s: Sys, t: Sys) { SameFlags(s, t) && forall r <- s.lists :: CountsKept(s, t, r) }

  lemma QuietProduce(s: Sys, work: Work)
    requires s.Closed() && s.bound.Some? && Quiet(s)
    requires s.lists[s.bound.value].used < |s.lists[s.bound.value].requests|
    ensures Steady(s, Produce(s, work)) && Produce(s, work).log == s.log
  {
    QuietCommit(s.Put(s.bound.value, FillSlot(s.lists[s.bound.value], work)), 1);
  }

  lemma QuietSubmit(s: Sys, code: int)
    requires s.Closed() && Quiet(s)
    ensures Steady(s, Cmdlist.Submit(s, code)) && Cmdlist.Submit(s, code).log == s.log
  {
    hide Produce;
    if s.bound.Some? && s.lists[s.bound.value].used != |s.lists[s.bound.value].requests| {
      QuietProduce(s, Engine(code));
    }
  }

  lemma SavedSteady(s: Sys)
    requires s.Closed()
    ensures Steady(s, SaveCursor(s)) && SaveCursor(s).log == s.log && SplitFails(SaveCursor(s)) == SplitFails(s)
  {}

  lemma ClosedSteady(s: Sys)
    requires s.Closed() && !SplitFails(s)
    ensures Steady(s, CloseRender(s)) && CloseRender(s).log == s.log
  {
    hide Closing, WriteRegs;
  }

  lemma CommitSteady(s: Sys, n: nat)
    requires s.Closed() && s.bound.Some? && Quiet(s) && var l := s.lists[s.bound.value]; l.used + n <= |l.requests|
    ensures Steady(s, Commit(s, n)) && Commit(s, n).log == s.log
  {
    QuietCommit(s, n);
    hide Commit;
  }

  lemma SteadyTrans(s: Sys, t: Sys, u: Sys)
    requires Steady(s, t) && Steady(t, u)
    ensures Steady(s, u)
  {
    forall r <- s.lists ensures CountsKept(s, u, r) { assert CountsKept(s, t, r) && CountsKept(t, u, r); }
  }

  lemma QuietSplit(s: Sys)
    requires s.Closed() && Quiet(s)
    ensures Steady(s, Cmdlist.Split(s)) && Cmdlist.Split(s).log == s.log
  {
    hide Commit, CloseRender, SaveCursor, Steady;
    SteadyRefl(s);
    SavedSteady(s);
    var t := SaveCursor(s);
    SteadyQuiet(s, t);
    if !SplitFails(s) {
      ClosedSteady(t);
      SteadyQuiet(t, CloseRender(t));
      CommitSteady(CloseRender(t), 1);
      SteadyTrans(s, t, CloseRender(t));
      SteadyTrans(s, CloseRender(t), Commit(CloseRender(t), 1));
    }
  }

  lemma SteadyRefl(s: Sys)
    ensures Steady(s, s)
  {}

  lemma SteadyQuiet(s: Sys, t: Sys)
    requires Steady(s, t) && Quiet(s)
    ensures Quiet(t)
  {}

  lemma QuietAddExternal(s: Sys, addr: nat, size: nat)
    requires s.Closed() && Quiet(s)
    ensures Steady(s, Cmdlist.AddExternal(s, addr, size)) && Cmdlist.AddExternal(s, addr, size).log == s.log
  {
    hide Produce, AddAfterSplit, Steady, Quiet;
    SteadyRefl(s);
    if s.bound.Some? && size != 0 {
      SavedSteady(s);
      var t := SaveCursor(s);
      SteadyQuiet(s, t);
      var l := t.lists[s.bound.value];
      if l.used + 2 <= |l.requests| {
        QuietAfterSplit(t, Render(addr, size, true));
        SteadyTrans(s, t, AddAfterSplit(t, Render(addr, size, true)));
      }
      if l.used < |l.requests| {
        QuietProduce(t, Render(addr, size, true));
        SteadyTrans(s, t, Produce(t, Render(addr, size, true)));
      }
    }
  }

  lemma QuietAfterSplit(s: Sys, work: Work)
    requires s.Closed() && s.bound.Some? && Quiet(s)
    requires var l := s.lists[s.bound.value]; l.used + 2 <= |l.requests|
    ensures Steady(s, AddAfterSplit(s, work)) && AddAfterSplit(s, work).log == s.log
  {
    hide Produce, Cmdlist.Split, SplitFails, Steady, Quiet;
    QuietSplit(s);
    SteadyQuiet(s, Cmdlist.Split(s));
    if !SplitFails(s) {
      QuietProduce(Cmdlist.Split(s), work);
      SteadyTrans(s, Cmdlist.Split(s), Produce(Cmdlist.Split(s), work));
    }
  }

  lemma JoinSteady(s: Sys, q: seq<Request>)
    requires s.Closed() && s.bound.Some?
    ensures Steady(s, SavedCmdlist.Join(s, q)) && SavedCmdlist.Join(s, q).log == s.log
  {
    hide SavedCmdlist.Joins;
  }

  lemma CopySteady(s: Sys, q: seq<Request>, off: nat, size: nat)
    requires s.Closed() && s.bound.Some? && SavedCmdlist.Chained(q, off)
    requires var l := s.lists[s.bound.value]; l.used + |q| <= |l.requests| && l.lastSplit <= s.cursor
    ensures var t := SavedCmdlist.Copy(s, q, off, size); Steady(s, t) && t.log == s.log
  {
    hide SavedCmdlist.Chained, SavedCmdlist.CopiedEnd, SavedCmdlist.Copied;
  }

  lemma QuietUseSaved(s: Sys, id: nat, off: nat, size: nat, rid: nat, n: nat)
    requires Inv(s) && Quiet(s) && SavedCmdlist.Replayable(s, id, off, size, rid, n)
    ensures var t := SavedCmdlist.UseSaved(s, id, off, size, rid, n); Steady(s, t) && t.log == s.log
  {
    hide Inv, Quiet, Steady, SavedCmdlist.Chained, SavedCmdlist.UseRequests, SavedCmdlist.SavedEnd;
    SteadyRefl(s);
    if s.bound.Some? && id in s.lists {
      SavedCmdlist.SavableChained(s.lists[id], CursorOf(s, id), off, size, rid, n);
      QuietUseRequests(s, s.lists[id].requests[rid..rid + n], off, size);
    }
  }

  lemma QuietUseRequests(s: Sys, q: seq<Request>, off: nat, size: nat)
    requires Inv(s) && Quiet(s) && s.bound.Some? && SavedCmdlist.Chained(q, off)
    ensures var t := SavedCmdlist.UseRequests(s, q, off, size); Steady(s, t) && t.log == s.log
  {
    hide Steady, Quiet, SavedCmdlist.Chained, SavedCmdlist.Join, SavedCmdlist.Replay, Cmdlist.Split,
      SavedCmdlist.UseFails, SavedCmdlist.SplitBytes, ListsOk, FlagsOk;
    JoinSteady(s, q);
    var t := SavedCmdlist.Join(s, q);
    SteadyQuiet(s, t);
    QuietSplit(t);
    SteadyTrans(s, t, Cmdlist.Split(t));
    SteadyQuiet(s, Cmdlist.Split(t));
    if !SavedCmdlist.UseFails(s, q, size) {
      SavedCmdlist.PreparedFits(s, q, size);
      var u := SavedCmdlist.Prepared(s, q);
      QuietReplay(u, q, off, size);
      SteadyTrans(s, u, SavedCmdlist.Replay(u, q, off, size));
    }
  }

  lemma QuietReplay(s: Sys, q: seq<Request>, off: nat, size: nat)
    requires Inv(s) && Quiet(s) && s.bound.Some? && SavedCmdlist.Chained(q, off)
    requires var l := s.lists[s.bound.value]; l.used + |q| <= |l.requests|
    ensures var t := SavedCmdlist.Replay(s, q, off, size); Steady(s, t) && t.log == s.log
  {
    hide Steady, Quiet, SavedCmdlist.Chained, SavedCmdlist.Copy, Commit, ListsOk, FlagsOk;
    BufferedIn(s, s.bound.value);
    var u := SavedCmdlist.Copy(s, q, off, size);
    CopySteady(s, q, off, size);
    SteadyQuiet(s, u);
    CopyLayout(s, q, off, size);
    if |q| > 0 {
      CommitSteady(u, |q|);
      SteadyTrans(s, u, Commit(u, |q|));
    }
  }

  lemma CopyLayout(s: Sys, q: seq<Request>, off: nat, size: nat)
    requires s.Closed() && s.bound.Some? && SavedCmdlist.Chained(q, off)
    requires var l := s.lists[s.bound.value]; l.used + |q| <= |l.requests| && l.lastSplit <= s.cursor
    ensures var m := SavedCmdlist.Copy(s, q, off, size).lists[s.bound.value]; m.used + |q| <= |m.requests|
  {
    hide SavedCmdlist.Chained, SavedCmdlist.CopiedEnd, SavedCmdlist.Copied;
  }

  predicate RunFree(steps: seq<Step>) { forall i :: 0 <= i < |steps| ==> steps[i] != Step.Run }

  /** Stop safety: after a stop, whatever is added, bound, cleared or completed, no request is
      issued until the next run call. */
  lemma {:induction false} StopIsSafe(s: Sys, steps: seq<Step>, t: Sys)
    requires Inv(s) && Quiet(s) && Runs(s, steps, t) && RunFree(steps)
    ensures Quiet(t) && Issues(t.log) == Issues(s.log)
    decreases |steps|
  {
    hide ListsOk, FlagsOk, Do, Enabled, Quiet, Issues;
    if steps != [] {
      QuietStep(s, steps[0]);
      StopIsSafe(Do(s, steps[0]), steps[1..], t);
    }
  }

  function Interrupts(steps: seq<Step>): nat {
    if steps == [] then 0 else (if steps[0].Interrupt? then 1 else 0) + Interrupts(steps[1..])
  }

  /** While a stopped list drains it is busy with the same requests; each interrupt retires one. */
  lemma DrainStep(s: Sys, step: Step)
    requires Inv(s) && s.isRunning && s.stopSpeculative && Enabled(s, step) && step != Step.Run
    ensures var t, r := Do(s, step), s.runList.value;
      && t.runList == s.runList && r in t.lists && t.lists[r].issued == s.lists[r].issued
      && t.lists[r].run == s.lists[r].run + (if step.Interrupt? then 1 else 0)
      && (t.isRunning ==> t.stopSpeculative)
  {
    hide ListsOk, Cmdlist.Run, Cmdlist.Interrupt, Cmdlist.Submit, Cmdlist.Split, Cmdlist.AddExternal, SavedCmdlist.UseSaved;
    if step.Interrupt? {
      DrainInterrupt(s);
    } else {
      BusyStep(s, step);
    }
  }

  lemma DrainInterrupt(s: Sys)
    requires Inv(s) && s.isRunning && s.stopSpeculative && InFlight(s)
    ensures var t, r := Cmdlist.Interrupt(s), s.runList.value;
      t.runList == s.runList && r in t.lists && t.lists[r].issued == s.lists[r].issued
      && t.lists[r].run == s.lists[r].run + 1 && (t.isRunning ==> t.stopSpeculative)
  {
    hide ListsOk;
    QuietInterrupt(s);
  }

  lemma BusyStep(s: Sys, step: Step)
    requires Inv(s) && s.isRunning && s.stopSpeculative && Enabled(s, step) && step != Step.Run && !step.Interrupt?
    ensures SameFlags(s, Do(s, step)) && CountsKept(s, Do(s, step), s.runList.value)
  {
    hide ListsOk, FlagsOk, Cmdlist.Submit, Cmdlist.Split, Cmdlist.AddExternal, SavedCmdlist.UseSaved;
    match step
    case Submit(code) => QuietSubmit(s, code);
    case Split => QuietSplit(s);
    case Flush => QuietSplit(s);
    case AddExternal(addr, size) => QuietAddExternal(s, addr, size);
    case UseSaved(id, off, size, rid, n) => QuietUseSaved(s, id, off, size, rid, n);
    case _ => BusyOther(s, step);
  }

  lemma BusyOther(s: Sys, step: Step)
    requires Inv(s) && s.isRunning && s.stopSpeculative && Enabled(s, step)
    requires step.Stop? || step.MarkStop? || step.Write? || step.Bind? || step.Clear? || step.Storage? || step.Delete?
    ensures SameFlags(s, Do(s, step)) && CountsKept(s, Do(s, step), s.runList.value)
  {
    hide ListsOk, FlagsOk;
    RunningHasList(s);
    if step.Clear? || step.Storage? || step.Delete? { BusyReset(s, step); }
  }

  lemma BusyReset(s: Sys, step: Step)
    requires Inv(s) && s.isRunning && s.runList.Some? && Enabled(s, step)
    requires step.Clear? || step.Storage? || step.Delete?
    ensures SameFlags(s, Do(s, step)) && CountsKept(s, Do(s, step), s.runList.value)
  {
    hide ListsOk, FlagsOk;
  }

  /** A step that empties or removes the list; a busy list is left alone. */
  predicate Resets(s: Sys, step: Step, id: nat) {
    !Busy(s, id) && (((step.Clear? || step.Storage?) && s.bound == Some(id)) || (step.Delete? && step.id == id))
  }

  /** No step of the run empties or removes the list. */
  ghost predicate Keeping(s: Sys, steps: seq<Step>, id: nat)
    requires Inv(s)
    decreases |steps|
  {
    steps != [] && Enabled(s, steps[0]) ==> !Resets(s, steps[0], id) && Keeping(Do(s, steps[0]), steps[1..], id)
  }

  predicate Spared(s: Sys, t: Sys, id: nat) {
    && id in s.lists && id in t.lists && t.lists[id] == s.lists[id] && CursorOf(t, id) == CursorOf(s, id)
    && t.isRunning == s.isRunning
  }

  lemma ClearSpares(s: Sys, id: nat)
    requires s.Closed() && id in s.lists && !Resets(s, Step.Clear, id)
    ensures Spared(s, Cmdlist.Clear(s), id)
  {
    hide ClearedList;
  }

  lemma StorageSpares(s: Sys, bufSize: nat, requestCount: nat, id: nat)
    requires s.Closed() && id in s.lists && !Resets(s, Step.Storage(bufSize, requestCount), id)
    ensures Spared(s, Cmdlist.Storage(s, bufSize, requestCount), id)
  {}

  lemma DeleteSpares(s: Sys, gone: nat, id: nat)
    requires s.Closed() && id in s.lists && !Resets(s, Step.Delete(gone), id)
    ensures Spared(s, Cmdlist.Delete(s, gone), id)
  {}

  /** Resetting one list leaves every other one as it was. */
  lemma ResetSpares(s: Sys, step: Step, id: nat)
    requires Inv(s) && Enabled(s, step) && id in s.lists && !Resets(s, step, id)
    requires step.Clear? || step.Storage? || step.Delete?
    ensures Spared(s, Do(s, step), id)
  {
    hide ListsOk, FlagsOk, Spared, Resets, Cmdlist.Clear, Cmdlist.Storage, Cmdlist.Delete;
    match step
    case Clear => ClearSpares(s, id);
    case Storage(bufSize, n) => StorageSpares(s, bufSize, n, id);
    case Delete(gone) => DeleteSpares(s, gone, id);
  }

  /** After a stop the requests in flight all retire: any run without a new run call that does not
      empty the list once it is idle, whatever happens to other lists, leaves it either still
      draining, one request further per interrupt, or idle with everything that was issued also
      run, so that the next run call resumes behind it. */
  lemma {:induction false} StoppedListSettles(s: Sys, steps: seq<Step>, t: Sys)
    requires Inv(s) && s.isRunning && s.stopSpeculative
    requires Runs(s, steps, t) && RunFree(steps) && Keeping(s, steps, s.runList.value)
    ensures s.runList.value in t.lists
    ensures t.lists[s.runList.value].issued == s.lists[s.runList.value].issued
    ensures t.lists[s.runList.value].run == s.lists[s.runList.value].run + Interrupts(steps) <= t.lists[s.runList.value].issued
    ensures t.isRunning <==> t.lists[s.runList.value].run < t.lists[s.runList.value].issued
    decreases |steps|
  {
    hide ListsOk, FlagsOk, Do, Enabled, Quiet, Resets;
    RunningHasList(s);
    BusyFacts(s, s.runList.value);
    if steps != [] {
      var u := Do(s, steps[0]);
      DrainStep(s, steps[0]);
      BusyFacts(u, s.runList.value);
      if u.isRunning {
        StoppedListSettles(u, steps[1..], t);
      } else {
        StoppingIsQuiet(s, steps[0]);
        IdleStays(u, s.runList.value, steps[1..], t);
      }
    }
  }

  lemma RunningHasList(s: Sys)
    requires Inv(s)
    ensures s.isRunning ==> s.runList.Some?
  {
    hide ListsOk;
  }

  lemma BusyFacts(s: Sys, r: nat)
    requires Inv(s)
    ensures r in s.lists ==> s.lists[r].run <= s.lists[r].issued && (s.lists[r].run < s.lists[r].issued <==> Busy(s, r))
  {
    hide ListsOk;
  }

  lemma StoppingIsQuiet(s: Sys, step: Step)
    requires Inv(s) && s.isRunning && s.stopSpeculative && Enabled(s, step) && step != Step.Run
    ensures Quiet(Do(s, step))
  {
    hide ListsOk;
    QuietStep(s, step);
  }

  lemma IdleStep(s: Sys, r: nat, step: Step)
    requires Inv(s) && Quiet(s) && !s.isRunning && r in s.lists && Enabled(s, step)
    requires step != Step.Run && !Resets(s, step, r)
    ensures !step.Interrupt? && !Do(s, step).isRunning && CountsKept(s, Do(s, step), r)
  {
    hide ListsOk, Cmdlist.Submit, Cmdlist.Split, Cmdlist.AddExternal, FlagsOk, SavedCmdlist.UseSaved, Resets;
    hide Cmdlist.Clear, Cmdlist.Storage, Cmdlist.Delete;
    BusyFactsAll(s);
    match step
    case Submit(code) => QuietSubmit(s, code);
    case Split => QuietSplit(s);
    case Flush => QuietSplit(s);
    case AddExternal(addr, size) => QuietAddExternal(s, addr, size);
    case UseSaved(id, off, size, rid, n) => QuietUseSaved(s, id, off, size, rid, n);
    case Clear => ResetSpares(s, step, r);
    case Storage(_, _) => ResetSpares(s, step, r);
    case Delete(_) => ResetSpares(s, step, r);
    case _ => IdleOther(s, r, step);
  }

  lemma IdleOther(s: Sys, r: nat, step: Step)
    requires Inv(s) && !s.isRunning && r in s.lists && Enabled(s, step)
    requires step.Stop? || step.MarkStop? || step.Write? || step.Bind?
    ensures !Do(s, step).isRunning && CountsKept(s, Do(s, step), r)
  {
    hide ListsOk, FlagsOk, Cmdlist.Bind;
    if step.Bind? { BindCounts(s, step.id, r); }
  }

  lemma BindCounts(s: Sys, id: nat, r: nat)
    requires s.Closed()
    ensures SameFlags(s, Cmdlist.Bind(s, id)) && CountsKept(s, Cmdlist.Bind(s, id), r)
  {
    hide Sys.Closed, SaveCursor;
    SavedSteady(Create(s, id));
    assert CountsKept(Create(s, id), SaveCursor(Create(s, id)), r);
  }

  lemma BusyFactsAll(s: Sys)
    requires Inv(s)
    ensures InFlight(s) ==> s.isRunning
  {
    hide ListsOk;
  }

  /** A list that is not busy keeps its counts. */
  lemma {:induction false} IdleStays(s: Sys, r: nat, steps: seq<Step>, t: Sys)
    requires Inv(s) && Quiet(s) && !s.isRunning && r in s.lists
    requires Runs(s, steps, t) && RunFree(steps) && Keeping(s, steps, r)
    ensures !t.isRunning && r in t.lists && Interrupts(steps) == 0
    ensures t.lists[r].issued == s.lists[r].issued && t.lists[r].run == s.lists[r].run
    decreases |steps|
  {
    hide ListsOk, FlagsOk, Do, Enabled, Quiet, Resets;
    if steps != [] {
      QuietStep(s, steps[0]);
      IdleStep(s, r, steps[0]);
      IdleStays(Do(s, steps[0]), r, steps[1..], t);
    }
  }

  // ---------- running and draining ----------

  /** A run call on an idle list with requests left resumes at the first request not yet run. */
  lemma RunResumes(s: Sys)
    requires Inv(s) && !s.isRunning && s.bound.Some?
    requires var l := s.lists[s.bound.value]; l.hasStorage && l.run < l.used
    ensures var t, id := Cmdlist.Run(s), s.bound.value; var l := s.lists[id]; var end := t.lists[id].issued;
      t.isRunning && l.issued == l.run && end == IssueEnd(l, l.run, l.run + s.numSpeculative) > l.run
      && t.log == s.log + Executions(id, l, l.run, end)
  {
    hide ListOk, Since, Executions;
  }

  lemma InterruptEffect(s: Sys)
    requires s.Closed() && InFlight(s)
    ensures var t, r := Cmdlist.Interrupt(s), s.runList.value; var l := s.lists[r]; var stop := l.requests[l.run].stop;
      && t.runList == s.runList && r in t.lists && t.lists[r].requests == l.requests
      && t.lists[r].used == l.used && t.lists[r].run == l.run + 1
      && (t.startRun <==> s.startRun && !stop) && (t.isRunning <==> s.isRunning && !stop && l.run + 1 < l.used)
  {
    RetireEffect(s);
    hide Retire;
    if !s.lists[s.runList.value].requests[s.lists[s.runList.value].run].stop { IssueEffect(Retire(s)); }
  }

  lemma RetireEffect(s: Sys)
    requires s.Closed() && InFlight(s)
    ensures var t, r := Retire(s), s.runList.value; var l := s.lists[r];
      SameFlags(s, t) && r in t.lists && t.lists[r] == l.(run := l.run + 1, runBuf := t.lists[r].runBuf)
  {}

  lemma IssueEffect(s: Sys)
    requires s.Closed() && s.runList.Some?
    ensures var t, r := Issue(s), s.runList.value;
      && t.runList == s.runList && t.startRun == s.startRun && t.isRunning == s.isRunning
      && r in t.lists && t.lists[r] == s.lists[r].(issued := t.lists[r].issued)
  {}

  /** Where a running list stops when nothing else happens: behind its first stop mark, else
      behind its last request. */
  function StopPoint(l: List): nat
    requires l.run <= l.used <= |l.requests|
  {
    IssueEnd(l, l.run, l.used)
  }

  /** No request is left waiting: one interrupt per request takes a running list exactly to its
      stop point, where it is idle, and it stays started unless a stop mark ended it. */
  lemma {:induction false} Drains(s: Sys) returns (steps: seq<Step>, t: Sys)
    requires Inv(s) && s.isRunning && s.runList.Some?
    ensures var r := s.runList.value; var l := s.lists[r]; var n := StopPoint(l);
      && |steps| == n - l.run && (forall i :: 0 <= i < |steps| ==> steps[i].Interrupt?)
      && Runs(s, steps, t) && r in t.lists && !t.isRunning && t.lists[r].run == t.lists[r].issued == n
      && (t.startRun <==> n == l.used && !l.requests[n - 1].stop)
    decreases s.lists[s.runList.value].used - s.lists[s.runList.value].run
  {
    hide ListsOk, FlagsOk, Cmdlist.Interrupt;
    var r := s.runList.value;
    BusyFacts(s, r);
    RunningStarted(s);
    InterruptEffect(s);
    var u := Do(s, Step.Interrupt);
    BusyFacts(u, r);
    if u.isRunning {
      var rest;
      rest, t := Drains(u);
      steps := [Step.Interrupt] + rest;
      assert steps[1..] == rest;
    } else {
      steps, t := [Step.Interrupt], u;
      assert steps[1..] == [];
    }
  }

  lemma RunningStarted(s: Sys)
    requires Inv(s)
    ensures s.isRunning ==> s.startRun
  {
    hide ListsOk;
  }

  // ---------- the writers as steps ----------

  /** On the bound list's buffer, counted in words, every writer call is a Write step; the macro's is the one that
      closing a render request takes. */
  lemma WritersAreSteps(s: Sys, b: CommandBuffer.Buf, op: CommandBuffer.Op)
    requires Inv(s) && b.Valid() && op.Callable()
    requires s.cursor == 4 * b.cur && s.BoundMax() == 4 * b.max
    ensures Enabled(s, Write(4 * b.Apply(op).cur))
    ensures op.WriteReg? ==> 4 * b.Apply(op).cur == Cmdlist.WriteReg(s.cursor, s.BoundMax())
  {
    hide ListsOk, FlagsOk, CommandBuffer.Buf.Apply;
    CommandBuffer.ApplyKeeps(b, op);
    MacroMoves(b, op);
  }

  lemma MacroMoves(b: CommandBuffer.Buf, op: CommandBuffer.Op)
    requires b.Valid() && op.Callable()
    ensures op.WriteReg? ==> 4 * b.Apply(op).cur == Cmdlist.WriteReg(4 * b.cur, 4 * b.max)
  {
  }
}
