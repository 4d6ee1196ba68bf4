/** What the calls on command lists do, in terms of the lists and of what the hardware is given. */
module CmdlistLaws {
  import opened Cmdlist
  import opened CmdlistSafety
  import opened Wrappers

  // ---------- one more request ----------

  /** The bound list is waiting for work: started, with nothing in flight. */
  predicate Waiting(s: Sys) { s.bound.Some? && s.runList == s.bound && s.startRun && !s.isRunning }

  /** The bound list has got one more request, with this work, in its next slot; if it was waiting, that
      request has been handed to the hardware at once, otherwise nothing has. */
  predicate Added(s: Sys, t: Sys, work: Work) {
    && s.bound.Some? && t.bound == s.bound && s.bound.value in s.lists && t.lists.Keys == s.lists.Keys
    && (forall j <- s.lists :: j != s.bound.value ==> t.lists[j] == s.lists[j])
    && t.runList == s.runList && t.startRun == s.startRun
    && var id := s.bound.value; var l, m := s.lists[id], t.lists[id];
      && l.used < |l.requests| && m.used == l.used + 1
      && m.requests == l.requests[l.used := l.requests[l.used].(work := work)] && m.run == l.run
      && if Waiting(s) then
           t.isRunning && m.issued == l.used + 1 && t.log == s.log + [Executed(id, l.used, work)]
         else
           t.isRunning == s.isRunning && m.issued == l.issued && t.log == s.log
  }

  /** Counting one request and waking the list, spelled out. */
  lemma CommitMeans(u: Sys)
    requires u.Closed() && u.bound.Some? && u.numSpeculative >= 1
    requires var m := u.lists[u.bound.value];
      m.used < |m.requests| && (Waiting(u) ==> m.run == m.issued == m.used && !u.stopSpeculative)
    ensures var id, t := u.bound.value, Commit(u, 1); var m := u.lists[id];
      if Waiting(u) then
        t == u.(lists := u.lists[id := m.(used := m.used + 1, issued := m.used + 1)], isRunning := true,
                stopSpeculative := t.stopSpeculative, log := u.log + [Executed(id, m.used, m.requests[m.used].work)])
      else
        t == u.(lists := u.lists[id := m.(used := m.used + 1)])
  {
    hide Wake, Sys.Closed;
    WakeMeans(Count(u, 1));
  }

  lemma WakeMeans(v: Sys)
    requires v.Closed() && v.bound.Some? && v.numSpeculative >= 1
    requires Waiting(v) ==> var m := v.lists[v.bound.value]; m.run == m.issued == m.used - 1 && !v.stopSpeculative
    ensures var id, t := v.bound.value, Wake(v); var m := v.lists[id];
      if Waiting(v) then
        t == v.(lists := v.lists[id := m.(issued := m.used)], isRunning := true, stopSpeculative := t.stopSpeculative,
                log := v.log + [Executed(id, m.used - 1, m.requests[m.used - 1].work)])
      else
        t == v
  {
    hide Issue, Executions, IssueEnd;
    var id := v.bound.value;
    if Waiting(v) {
      IssueMeans(v.(isRunning := true));
      OneIssued(v.lists[id], v.lists[id].run + v.numSpeculative);
      OneExecution(id, v.lists[id], v.lists[id].issued);
    }
  }

  /** s, with a request for this work in the bound list's next slot, not counted yet. */
  predicate Slotted(s: Sys, u: Sys, work: Work) {
    && s.bound.Some? && s.bound.value in s.lists && u == s.(lists := u.lists, cursor := u.cursor)
    && u.lists.Keys == s.lists.Keys && (forall j <- s.lists :: j != s.bound.value ==> u.lists[j] == s.lists[j])
    && var l, m := s.lists[s.bound.value], u.lists[s.bound.value];
      && l.used < |l.requests| && m.requests == l.requests[l.used := l.requests[l.used].(work := work)]
      && m.used == l.used && m.issued == l.issued && m.run == l.run
  }

  lemma CommitAdds(s: Sys, u: Sys, work: Work)
    requires Inv(s) && u.Closed() && Slotted(s, u, work)
    ensures Added(s, Commit(u, 1), work)
  {
    hide Inv, Commit, Sys.Closed;
    IdleCounts(s, s.bound.value);
    SpeculatesOne(s);
    CommitMeans(u);
  }

  /** A list that is not busy has run everything that was issued, and if it is started, everything. */
  lemma IdleCounts(s: Sys, id: nat)
    requires Inv(s) && id in s.lists
    ensures var l := s.lists[id];
      && l.run <= l.issued <= l.used <= |l.requests| && (!Busy(s, id) ==> l.run == l.issued)
      && (s.runList == Some(id) && s.startRun && !s.isRunning ==> l.run == l.used && !s.stopSpeculative)
  {
    hide ListsOk;
  }

  lemma SpeculatesOne(s: Sys)
    requires Inv(s)
    ensures s.numSpeculative >= 1
  {}

  lemma OneIssued(l: List, limit: nat)
    requires l.issued + 1 == l.used <= |l.requests| && l.issued < limit
    ensures IssueEnd(l, l.issued, limit) == l.used
  {}

  lemma OneExecution(id: nat, l: List, k: nat)
    requires k < |l.requests|
    ensures Executions(id, l, k, k + 1) == [Executed(id, k, l.requests[k].work)]
  {}

  /** An engine request goes into the next slot; a full list, or none, takes nothing. */
  lemma SubmitAdds(s: Sys, code: int)
    requires Inv(s)
    ensures var t := Submit(s, code);
      if s.bound.Some? && s.lists[s.bound.value].used < |s.lists[s.bound.value].requests| then
        Added(s, t, Engine(code)) && t.cursor == s.cursor
      else
        t == s
  {
    hide Inv, Added, Commit;
    ClosedIn(s);
    if s.bound.Some? && s.lists[s.bound.value].used < |s.lists[s.bound.value].requests| {
      CommitAdds(s, s.Put(s.bound.value, FillSlot(s.lists[s.bound.value], Engine(code))), Engine(code));
    }
  }

  lemma ClosedIn(s: Sys)
    requires Inv(s)
    ensures s.Closed() && forall id <- s.lists :: s.lists[id].used <= |s.lists[id].requests|
  {}

  // ---------- render requests ----------

  /** Bytes of closing register writes: up to a 16-byte boundary and on. */
  function Gap(cursor: nat): nat { if cursor % 16 == 0 then 32 else 24 }

  lemma GapIs(cursor: nat)
    requires cursor % 8 == 0
    ensures 8 * Closing(cursor) == Gap(cursor)
  {
    var q := cursor / 8;
    assert cursor == 8 * q;
    if q % 2 == 0 { assert cursor == 16 * (q / 2); } else { assert cursor == 16 * (q / 2) + 8; }
  }

  /** Nothing has happened, but for the size remembered in the bound list. */
  predicate Untouched(s: Sys, t: Sys) {
    && t == s.(lists := t.lists) && t.lists.Keys == s.lists.Keys
    && forall j <- s.lists :: t.lists[j] == s.lists[j].(usedBuf := t.lists[j].usedBuf)
  }

  /** The next slot is free and the buffer takes the closing writes. */
  predicate CanSplit(s: Sys) {
    s.bound.Some? && s.bound.value in s.lists && var l := s.lists[s.bound.value];
      l.used < |l.requests| && s.cursor + Gap(s.cursor) <= l.maxBuf
  }

  predicate SplitAdded(s: Sys, t: Sys) {
    && s.bound.Some? && s.bound.value in s.lists && s.bound.value in t.lists
    && var l, end := s.lists[s.bound.value], s.cursor + Gap(s.cursor);
      && l.lastSplit < end && Added(s, t, Render(l.lastSplit, end - l.lastSplit, false))
      && t.cursor == end == t.lists[s.bound.value].lastSplit
  }

  lemma SavedMeans(s: Sys)
    requires s.Closed()
    ensures Untouched(s, SaveCursor(s)) && SaveCursor(s).bound == s.bound && SaveCursor(s).cursor == s.cursor
    ensures s.bound.Some? ==> SaveCursor(s) == s.Put(s.bound.value, s.lists[s.bound.value].(usedBuf := s.cursor))
  {}

  lemma ClosedSlot(s: Sys)
    requires Inv(s) && CanSplit(s)
    ensures var u, id := SaveCursor(s), s.bound.value;
      && !SplitFails(u) && var v, l := CloseRender(u), s.lists[id]; var end := s.cursor + Gap(s.cursor);
        && l.lastSplit < end && Slotted(s, v, Render(l.lastSplit, end - l.lastSplit, false))
        && v.Closed() && v.cursor == end == v.lists[id].lastSplit
  {
    hide ListsOk, FlagsOk, Closing, WriteRegs;
    BufferedIn(s, s.bound.value);
    GapIs(s.cursor);
    SavedMeans(s);
    CloseRenderExact(SaveCursor(s));
  }

  /** A split closes a request over everything pending, or does nothing. */
  lemma SplitAdds(s: Sys)
    requires Inv(s)
    ensures if CanSplit(s) then SplitAdded(s, Split(s)) else Untouched(s, Split(s))
  {
    hide ListsOk, FlagsOk, Closing, Commit, CloseRender, SaveCursor, Added, Slotted, Untouched;
    SavedMeans(s);
    UntouchedSame(s);
    if s.bound.Some? {
      BufferedIn(s, s.bound.value);
      GapIs(s.cursor);
    }
    if CanSplit(s) {
      ClosedSlot(s);
      var l, end := s.lists[s.bound.value], s.cursor + Gap(s.cursor);
      CommitAdds(s, CloseRender(SaveCursor(s)), Render(l.lastSplit, end - l.lastSplit, false));
      CommitLast(CloseRender(SaveCursor(s)));
    } else {
      SavedFails(s);
    }
  }

  lemma UntouchedSame(s: Sys)
    ensures Untouched(s, s)
  {}

  lemma SavedFails(s: Sys)
    requires s.Closed()
    ensures SplitFails(SaveCursor(s)) == SplitFails(s)
  {}

  lemma CommitLast(s: Sys)
    requires s.Closed() && s.bound.Some? && var l := s.lists[s.bound.value]; l.used < |l.requests|
    ensures Commit(s, 1).lists[s.bound.value].lastSplit == s.lists[s.bound.value].lastSplit
  {}

  /** A flush is a split if anything is pending. */
  lemma FlushAdds(s: Sys)
    requires Inv(s)
    ensures if CanSplit(s) && s.lists[s.bound.value].lastSplit != s.cursor then
        SplitAdded(s, Flush(s))
      else
        Untouched(s, Flush(s))
  {
    hide ListsOk, FlagsOk, Split, SaveCursor, Untouched, SplitAdded;
    SavedMeans(s);
    UntouchedSame(s);
    SplitAdds(s);
  }

  // ---------- run calls ----------

  /** A run call makes the bound list the one that runs, whatever its counts, unless one is running; it
      is busy with its next request if it has one left, and waiting otherwise. */
  lemma RunStarts(s: Sys)
    requires Inv(s)
    ensures var t := Run(s);
      if s.bound.Some? && s.lists[s.bound.value].hasStorage && !s.isRunning then
        && t.runList == s.bound == t.bound && t.startRun && t.cursor == s.cursor
        && (t.isRunning <==> s.lists[s.bound.value].run < s.lists[s.bound.value].used)
        && (!t.isRunning ==> Waiting(t) && t.lists == s.lists && t.log == s.log)
      else
        t == s
  {
    hide ListsOk, FlagsOk, Issue;
    if s.bound.Some? { IdleCounts(s, s.bound.value); }
    var t := s.(runList := s.bound, startRun := true, isRunning := true);
    if s.bound.Some? { IssueMeans(t); }
  }

  /** A list run before it has anything to do executes what is added next, at once. */
  lemma RunThenSubmit(s: Sys, code: int)
    requires Inv(s) && s.bound.Some? && !s.isRunning
    requires var l := s.lists[s.bound.value]; l.hasStorage && l.run == l.used < |l.requests|
    ensures var id, t := s.bound.value, Submit(Run(s), code); var l := s.lists[id];
      && id in t.lists && t.isRunning && t.startRun && t.runList == Some(id) && t.lists[id].issued == l.used + 1
      && t.log == s.log + [Executed(id, l.used, Engine(code))]
  {
    hide Inv, Run, Submit;
    ClosedIn(s);
    RunStarts(s);
    RunKeeps(s);
    SubmitAdds(Run(s), code);
  }

  lemma RunThenSplit(s: Sys)
    requires Inv(s) && s.bound.Some? && !s.isRunning && CanSplit(s)
    requires var l := s.lists[s.bound.value]; l.hasStorage && l.run == l.used
    ensures var id, t := s.bound.value, Split(Run(s)); var l, end := s.lists[id], s.cursor + Gap(s.cursor);
      && id in t.lists && t.isRunning && t.startRun && t.runList == Some(id) && t.lists[id].issued == l.used + 1
      && l.lastSplit < end && t.log == s.log + [Executed(id, l.used, Render(l.lastSplit, end - l.lastSplit, false))]
  {
    hide Inv, Run, Split;
    ClosedIn(s);
    RunStarts(s);
    RunKeeps(s);
    SplitAdds(Run(s));
  }

  // ---------- external buffers ----------

  /** An aligned external buffer becomes the newest request, behind a request for what was pending; there
      must be slots for both, and room to close the pending one. */
  predicate CanAdd(s: Sys, addr: nat, size: nat) {
    && s.bound.Some? && s.bound.value in s.lists && size > 0 && size % 16 == 0 && addr % 16 == 0
    && var l := s.lists[s.bound.value];
      if l.lastSplit == s.cursor then l.used < |l.requests| else l.used + 2 <= |l.requests| && CanSplit(s)
  }

  lemma AddedSaved(s: Sys, t: Sys, work: Work)
    requires s.Closed() && Added(SaveCursor(s), t, work)
    ensures Added(s, t, work)
  {}

  lemma ExternalAdds(s: Sys, addr: nat, size: nat)
    requires Inv(s)
    ensures var t := AddExternal(s, addr, size);
      if !CanAdd(s, addr, size) then Untouched(s, t)
      else if s.lists[s.bound.value].lastSplit == s.cursor then Added(s, t, Render(addr, size, true))
      else SplitAdded(s, Split(s)) && Added(Split(s), t, Render(addr, size, true))
  {
    hide Inv, Split, Produce, Untouched, Added, SplitAdded, CanSplit, SplitFails;
    ClosedIn(s);
    SavedMeans(s);
    UntouchedSame(s);
    SavedKeeps(s);
    SplitAdds(s);
    SplitKeeps(s);
    if s.bound.Some? {
      SplitFailsIff(s);
      SavedFails(s);
      if s.lists[s.bound.value].used < |s.lists[s.bound.value].requests| { SplitSaved(s); }
      if CanAdd(s, addr, size) {
        if s.lists[s.bound.value].lastSplit == s.cursor {
          ProduceAdds(SaveCursor(s), Render(addr, size, true));
          AddedSaved(s, Produce(SaveCursor(s), Render(addr, size, true)), Render(addr, size, true));
        } else {
          ProduceAdds(Split(s), Render(addr, size, true));
        }
      }
    }
  }

  lemma SplitFailsIff(s: Sys)
    requires Inv(s) && s.bound.Some?
    ensures SplitFails(s) <==> !CanSplit(s)
  {
    hide ListsOk, FlagsOk, Closing;
    BufferedIn(s, s.bound.value);
    GapIs(s.cursor);
  }

  /** Remembering the cursor before a split changes nothing: the split does it itself. */
  lemma SplitSaved(s: Sys)
    requires s.Closed() && s.bound.Some? && s.lists[s.bound.value].used < |s.lists[s.bound.value].requests|
    ensures Split(SaveCursor(s)) == Split(s)
  {
    hide Commit, CloseRender, Closing;
    SavedFails(s);
    assert SaveCursor(SaveCursor(s)) == SaveCursor(s);
  }

  lemma ProduceAdds(s: Sys, work: Work)
    requires Inv(s) && s.bound.Some? && s.lists[s.bound.value].used < |s.lists[s.bound.value].requests|
    ensures Added(s, Produce(s, work), work)
  {
    hide Inv, Added, Commit;
    ClosedIn(s);
    CommitAdds(s, s.Put(s.bound.value, FillSlot(s.lists[s.bound.value], work)), work);
  }

  // ---------- binding and clearing ----------

  /** The cursor belongs to the list: binding another list, or none, and coming back finds it where it
      was, whatever list was bound in between. */
  lemma BindRestores(s: Sys, other: nat)
    requires Inv(s) && s.bound.Some? && s.bound.value != 0 && other != s.bound.value
    ensures var t := Bind(Bind(s, other), s.bound.value);
      t.bound == s.bound && t.cursor == s.cursor
      && (t.lists[s.bound.value] == s.lists[s.bound.value].(usedBuf := s.cursor))
    ensures var t := Bind(s, other);
      t.bound == (if other == 0 then None else Some(other))
      && (other != 0 && other in s.lists ==> t.cursor == s.lists[other].usedBuf)
      && (other != 0 && other !in s.lists ==> t.cursor == 0 && t.lists[other] == FRESH_LIST)
  {
    hide ListsOk, FlagsOk;
  }

  /** A cleared list is empty, has all its slots and its buffer to itself, and has lost the marks of the
      requests that were in use. */
  lemma ClearEmpties(s: Sys)
    requires Inv(s) && s.bound.Some? && s.lists[s.bound.value].hasStorage && !Busy(s, s.bound.value)
    ensures var id, t := s.bound.value, Clear(s); var l, m := s.lists[id], t.lists[id];
      && t.bound == s.bound && t.cursor == 0 && m.used == m.issued == m.run == 0 && m.lastSplit == m.runBuf == 0
      && |m.requests| == |l.requests| && m.maxBuf == l.maxBuf && m.hasStorage
      && (forall k :: 0 <= k < l.used ==> !m.requests[k].stop && !m.requests[k].callback)
      && (forall k :: l.used <= k < |l.requests| ==> m.requests[k] == l.requests[k])
      && forall j <- s.lists :: j != id ==> t.lists[j] == s.lists[j]
  {
    hide ListsOk, FlagsOk;
    ClosedIn(s);
  }

  /** New storage makes the bound list an empty one of that size, unless it is running. */
  lemma StorageGives(s: Sys, bufSize: nat, requestCount: nat)
    requires Inv(s) && s.bound.Some?
    ensures var id, t := s.bound.value, Storage(s, bufSize, requestCount);
      if Busy(s, id) then t == s else
        var m := t.lists[id];
        && t.bound == s.bound && t.cursor == 0 && m.hasStorage && m.maxBuf == bufSize && |m.requests| == requestCount
        && m.used == m.issued == m.run == 0 && m.runBuf == m.usedBuf == 0
        && (forall k :: 0 <= k < requestCount ==> !m.requests[k].stop && !m.requests[k].callback)
        && forall j <- s.lists :: j != id ==> t.lists[j] == s.lists[j]
  {
    hide ListsOk, FlagsOk;
  }

  /** Deleting removes exactly that list, unless it is running, and nothing refers to it any more. */
  lemma DeleteRemoves(s: Sys, id: nat)
    requires Inv(s) && id != 0 && id in s.lists
    ensures var t := Delete(s, id);
      if Busy(s, id) then t == s else
        && t.lists == s.lists - {id} && t.bound != Some(id) && t.runList != Some(id)
        && (s.bound != Some(id) ==> t.bound == s.bound && t.cursor == s.cursor)
        && (s.runList != Some(id) ==> t.runList == s.runList && t.startRun == s.startRun && t.isRunning == s.isRunning)
  {
    hide ListsOk, FlagsOk;
  }

  // ---------- interrupts ----------

  /** After an interrupt without a stop mark the hardware is kept fed: everything has been issued, or as much as
      may be in flight, or everything up to a stop mark. */
  lemma InterruptRefills(s: Sys)
    requires Inv(s) && InFlight(s) && !s.stopSpeculative
    requires var l := s.lists[s.runList.value]; !l.requests[l.run].stop
    ensures var t, r := Interrupt(s), s.runList.value;
      r in t.lists && var m := t.lists[r];
        && m.run <= m.issued <= m.used <= |m.requests|
        && (m.issued == m.used || m.issued - m.run == s.numSpeculative || (m.issued > m.run && m.requests[m.issued - 1].stop))
  {
    hide ListsOk, FlagsOk, Proceed, Retire, Notify;
    var r := s.runList.value;
    var l := s.lists[r];
    InterruptKeeps(s);
    FlightIn(Interrupt(s), r);
    RetireMeans(s);
    ProceedRefills(Retire(s));
  }

  lemma RetireMeans(s: Sys)
    requires s.Closed() && InFlight(s)
    ensures var t, r := Retire(s), s.runList.value; var l := s.lists[r];
      t == s.(lists := t.lists) && r in t.lists && t.lists[r] == l.(run := l.run + 1, runBuf := t.lists[r].runBuf)
  {}

  lemma FlightIn(s: Sys, id: nat)
    requires Inv(s)
    ensures s.Closed() && (id in s.lists ==> s.lists[id].issued - s.lists[id].run <= s.numSpeculative)
  {
    hide FlagsOk;
    if id in s.lists { FlightStops(s, id); }
  }

  lemma ProceedRefills(s: Sys)
    requires s.Closed() && s.runList.Some? && !s.stopSpeculative
    ensures var t, r := Proceed(s, false), s.runList.value;
      r in t.lists && var m := t.lists[r];
        && m.run == s.lists[r].run && m.used == s.lists[r].used
        && (m.issued == m.used || m.issued - m.run >= s.numSpeculative || (m.issued > m.run && m.requests[m.issued - 1].stop))
  {
    hide Issue, Executions, IssueEnd;
    IssueMeans(s);
  }
}
