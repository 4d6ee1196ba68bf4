/** What every step of the run protocol keeps. */
module CmdlistSafety {
  import opened Cmdlist
  import opened Wrappers

  // ---------- the invariant ----------

  /** Bytes of the own buffer covered by the first n requests. */
  function OwnTotal(q: seq<Request>, n: nat): nat
    requires n <= |q|
  {
    if n == 0 then 0 else OwnTotal(q, n - 1) + OwnSize(q[n - 1].work)
  }

  predicate Aligned(n: nat) { n % 16 == 0 }

  predicate Own(w: Work) { w.Render? && !w.ext }

  /** Own render requests are 16-byte multiples, contiguous from the start of the buffer and in
      order; they tile [0, lastSplit), and what has retired tiles [0, runBuf). */
  ghost predicate Tiled(l: List)
    requires l.run <= l.used <= |l.requests|
  {
    && (forall k :: 0 <= k < l.used && Own(l.requests[k].work) ==>
          l.requests[k].work.addr == OwnTotal(l.requests, k)
          && l.requests[k].work.size > 0 && Aligned(l.requests[k].work.size))
    && l.lastSplit == OwnTotal(l.requests, l.used) && Aligned(l.lastSplit)
    && l.runBuf == OwnTotal(l.requests, l.run)
  }

  /** The write cursor of a list: the live one while bound, else the saved one. */
  function CursorOf(s: Sys, id: nat): nat
    requires id in s.lists
  {
    if s.bound == Some(id) then s.cursor else s.lists[id].usedBuf
  }

  predicate Buffered(l: List, cursor: nat) {
    l.lastSplit <= cursor <= l.maxBuf && cursor % 8 == 0 && l.maxBuf % 8 == 0
  }

  /** At most the newest request in flight carries a stop mark, and no more requests are in
      flight than may be speculated. */
  predicate Flight(l: List, n: nat)
    requires l.run <= l.issued <= |l.requests|
  {
    l.issued - l.run <= n && forall k :: l.run <= k < l.issued - 1 ==> !l.requests[k].stop
  }

  /** What list `id` has had executed since it was last reset. */
  function Since(log: seq<Event>, id: nat): seq<Event> {
    if log == [] then []
    else
      var before, e := Since(log[..|log| - 1], id), log[|log| - 1];
      if e.list != id || e.CalledBack? then before
      else if e.Reset? then []
      else before + [e]
  }

  /** Everything that holds of list `id` on its own.  The last part: exactly the requests
      counted as issued have been executed, each once and in order. */
  ghost predicate ListOk(id: nat, l: List, cursor: nat, n: nat, executed: seq<Event>) {
    && l.run <= l.issued <= l.used <= |l.requests|
    && Tiled(l) && Buffered(l, cursor) && Flight(l, n)
    && executed == Executions(id, l, 0, l.issued)
  }

  ghost predicate OkIn(s: Sys, id: nat)
    requires id in s.lists
  {
    ListOk(id, s.lists[id], CursorOf(s, id), s.numSpeculative, Since(s.log, id))
  }

  /** The part of the invariant that does not mention the run flags. */
  ghost predicate ListsOk(s: Sys) {
    && s.numSpeculative >= 1
    && (forall id <- s.lists :: OkIn(s, id))
    && (forall id: nat :: id !in s.lists ==> Since(s.log, id) == [])
  }

  predicate Marked(l: List)
    requires l.issued <= |l.requests|
  {
    l.issued > 0 && l.requests[l.issued - 1].stop
  }

  /** The run flags mean what they say: a list is busy exactly while it has requests in flight,
      and a started list that has requests left is busy (no wake-up is lost). */
  predicate FlagsOk(s: Sys)
    requires s.Closed()
  {
    && (forall id <- s.lists :: s.lists[id].run < s.lists[id].issued <==> Busy(s, id))
    && (s.isRunning ==> s.startRun) && (s.startRun ==> s.runList.Some?)
    && (s.stopSpeculative <==> s.isRunning && Marked(s.lists[s.runList.value]))
    && (s.startRun && s.lists[s.runList.value].run < s.lists[s.runList.value].used ==> s.isRunning)
  }

  ghost predicate Inv(s: Sys) { s.Closed() && ListsOk(s) && FlagsOk(s) }

  const START := Sys(map[], None, 0, None, false, false, false, 1, [])

  lemma StartsOk(n: nat)
    requires n >= 1
    ensures Inv(START.(numSpeculative := n))
  {}

  // ---------- the log ----------

  lemma SinceSnoc(log: seq<Event>, e: Event, id: nat)
    ensures Since(log + [e], id) ==
      if e.list != id || e.CalledBack? then Since(log, id)
      else if e.Reset? then []
      else Since(log, id) + [e]
  {
    assert (log + [e])[..|log|] == log;
  }

  lemma ExecutionsSnoc(id: nat, l: List, lo: nat, hi: nat)
    requires lo < hi <= |l.requests|
    ensures Executions(id, l, lo, hi) == Executions(id, l, lo, hi - 1) + [Executed(id, hi - 1, l.requests[hi - 1].work)]
  {}

  lemma {:induction false} SinceExecutions(log: seq<Event>, id: nat, l: List, lo: nat, hi: nat, j: nat)
    requires lo <= hi <= |l.requests|
    ensures Since(log + Executions(id, l, lo, hi), j)
         == Since(log, j) + (if j == id then Executions(id, l, lo, hi) else [])
    decreases hi
  {
    if lo == hi {
      assert log + Executions(id, l, lo, hi) == log;
    } else {
      hide Since, Executions;
      var e := Executed(id, hi - 1, l.requests[hi - 1].work);
      var es := Executions(id, l, lo, hi - 1);
      ExecutionsSnoc(id, l, lo, hi);
      assert log + (es + [e]) == (log + es) + [e];
      SinceSnoc(log + es, e, j);
      SinceExecutions(log, id, l, lo, hi - 1, j);
      assert Since(log, j) + (es + [e]) == (Since(log, j) + es) + [e];
    }
  }

  lemma ExecutionsSplit(id: nat, l: List, a: nat, b: nat, c: nat)
    requires a <= b <= c <= |l.requests|
    ensures Executions(id, l, a, c) == Executions(id, l, a, b) + Executions(id, l, b, c)
  {}

  // ---------- issuing ----------

  /** A state in which the lock holder is about to issue. */
  ghost predicate Issuing(s: Sys) {
    && s.Closed() && ListsOk(s) && s.runList.Some? && s.isRunning && s.startRun
    && (forall id <- s.lists :: s.lists[id].run < s.lists[id].issued ==> s.runList == Some(id))
    && var l := s.lists[s.runList.value];
      l.run < l.used && (s.stopSpeculative <==> l.run < l.issued && Marked(l))
  }

  lemma ExecutionsSame(id: nat, l: List, m: List, n: nat)
    requires n <= |l.requests| && n <= |m.requests|
    requires forall k :: 0 <= k < n ==> m.requests[k].work == l.requests[k].work
    ensures Executions(id, m, 0, n) == Executions(id, l, 0, n)
  {}

  lemma IssuedListOk(id: nat, l: List, cursor: nat, n: nat, executed: seq<Event>)
    requires ListOk(id, l, cursor, n, executed) && !(l.run < l.issued && Marked(l))
    ensures var end := IssueEnd(l, l.issued, l.run + n);
      ListOk(id, l.(issued := end), cursor, n, executed + Executions(id, l, l.issued, end))
  {
    hide OwnTotal, Executions;
    var end := IssueEnd(l, l.issued, l.run + n);
    ExecutionsSplit(id, l, 0, l.issued, end);
    ExecutionsSame(id, l, l.(issued := end), end);
  }

  /** Where one list changes and the others do not, only that list needs looking at. */
  lemma OthersKept(s: Sys, t: Sys, id: nat)
    requires ListsOk(s) && t.Closed() && t.numSpeculative == s.numSpeculative
    requires t.lists.Keys - {id} == s.lists.Keys - {id}
    requires forall j <- t.lists :: j != id && j in s.lists ==>
      t.lists[j] == s.lists[j] && CursorOf(t, j) == CursorOf(s, j)
    requires forall j: nat :: j != id ==> Since(t.log, j) == Since(s.log, j)
    requires if id in t.lists then OkIn(t, id) else Since(t.log, id) == []
    ensures ListsOk(t)
  {
    hide ListOk, Since, CursorOf;
    forall j <- t.lists ensures OkIn(t, j) {
      if j != id { assert j in t.lists.Keys - {id}; assert OkIn(s, j); }
    }
    forall j: nat | j !in t.lists ensures Since(t.log, j) == [] {
      if j != id { assert j !in t.lists.Keys - {id}; }
    }
  }

  lemma SinceIssued(s: Sys, end: nat)
    requires s.Closed() && s.runList.Some? && s.lists[s.runList.value].issued <= end <= s.lists[s.runList.value].used
    ensures var r := s.runList.value; var e := Executions(r, s.lists[r], s.lists[r].issued, end);
      Since(s.log + e, r) == Since(s.log, r) + e && forall j: nat :: j != r ==> Since(s.log + e, j) == Since(s.log, j)
  {
    hide Since, Executions;
    var r := s.runList.value;
    var l := s.lists[r];
    SinceExecutions(s.log, r, l, l.issued, end, r);
    forall j: nat | j != r ensures Since(s.log + Executions(r, l, l.issued, end), j) == Since(s.log, j) {
      SinceExecutions(s.log, r, l, l.issued, end, j);
      assert Since(s.log, j) + [] == Since(s.log, j);
    }
  }

  lemma IssueKeepsLists(s: Sys)
    requires Issuing(s) && !s.stopSpeculative
    ensures ListsOk(Issue(s))
  {
    hide ListOk, Executions, Since, Issue, IssueEnd, Marked;
    var r := s.runList.value;
    var l := s.lists[r];
    IssueMeans(s);
    SinceIssued(s, IssueEnd(l, l.issued, l.run + s.numSpeculative));
    IssuedOkIn(s);
    OthersKept(s, Issue(s), r);
  }

  lemma IssuedOkIn(s: Sys)
    requires Issuing(s) && !s.stopSpeculative
    ensures var r := s.runList.value; r in Issue(s).lists && OkIn(Issue(s), r)
  {
    hide ListOk, Executions, Since, Issue, IssueEnd;
    var r := s.runList.value;
    var l := s.lists[r];
    IssueMeans(s);
    SinceIssued(s, IssueEnd(l, l.issued, l.run + s.numSpeculative));
    assert OkIn(s, r);
    IssuedListOk(r, l, CursorOf(s, r), s.numSpeculative, Since(s.log, r));
  }

  lemma IssueKeeps(s: Sys)
    requires Issuing(s)
    ensures Inv(Issue(s))
  {
    hide ListsOk, Issue, IssueEnd;
    if s.stopSpeculative {
      IssueMeans(s);
    } else {
      IssueKeepsLists(s);
      IssueKeepsFlags(s);
    }
  }

  lemma IssueKeepsFlags(s: Sys)
    requires Issuing(s) && !s.stopSpeculative
    ensures FlagsOk(Issue(s))
  {
    hide ListOk, Executions, Since, Issue;
    IssueMeans(s);
    assert OkIn(s, s.runList.value);
  }

  // ---------- one list at a time ----------

  lemma {:induction false} OwnTotalSame(q: seq<Request>, r: seq<Request>, n: nat)
    requires n <= |q| && n <= |r| && forall k :: 0 <= k < n ==> q[k].work == r[k].work
    ensures OwnTotal(q, n) == OwnTotal(r, n)
  {
    if n > 0 { OwnTotalSame(q, r, n - 1); }
  }

  lemma OwnTotalStep(q: seq<Request>, n: nat)
    requires n < |q|
    ensures OwnTotal(q, n + 1) == OwnTotal(q, n) + OwnSize(q[n].work)
  {}

  /** Stop and callback marks do not matter to the tiling. */
  lemma TiledSameWork(l: List, m: List)
    requires l.run <= l.used <= |l.requests| && Tiled(l)
    requires m.run == l.run && m.used == l.used && m.runBuf == l.runBuf && m.lastSplit == l.lastSplit
    requires |m.requests| == |l.requests|
    requires forall k :: 0 <= k < l.used ==> m.requests[k].work == l.requests[k].work
    ensures Tiled(m)
  {
    hide OwnTotal;
    forall n | 0 <= n <= l.used ensures OwnTotal(m.requests, n) == OwnTotal(l.requests, n) {
      OwnTotalSame(m.requests, l.requests, n);
    }
  }

  /** Putting a request that covers nothing of the own buffer in the next slot. */
  lemma AddedOk(id: nat, l: List, cursor: nat, n: nat, executed: seq<Event>, work: Work)
    requires ListOk(id, l, cursor, n, executed) && l.used < |l.requests| && OwnSize(work) == 0 && !Own(work)
    ensures ListOk(id, FillSlot(l, work).(used := l.used + 1), cursor, n, executed)
  {
    hide Executions, OwnTotal;
    TiledAdd(l, work, l.lastSplit, l.usedBuf);
    ExecutionsSame(id, l, FillSlot(l, work), l.issued);
    ExecutionsSame(id, l, FillSlot(l, work).(used := l.used + 1), l.issued);
  }

  lemma TiledExtend(l: List, end: nat)
    requires l.run <= l.used < |l.requests| && Tiled(l)
    requires var w := l.requests[l.used].work;
      end == l.lastSplit + OwnSize(w) && Aligned(end)
      && (Own(w) ==> w.addr == l.lastSplit && w.size > 0 && Aligned(w.size))
    ensures Tiled(l.(used := l.used + 1, lastSplit := end))
  {
    hide Aligned, OwnTotal;
    OwnTotalStep(l.requests, l.used);
  }

  /** One more request keeps the tiling if it covers exactly [lastSplit, end). */
  lemma TiledAdd(l: List, work: Work, end: nat, usedBuf: nat)
    requires l.run <= l.used < |l.requests| && Tiled(l)
    requires end == l.lastSplit + OwnSize(work) && Aligned(end)
    requires Own(work) ==> work.addr == l.lastSplit && work.size > 0 && Aligned(work.size)
    ensures Tiled(FillSlot(l, work).(used := l.used + 1, usedBuf := usedBuf, lastSplit := end))
  {
    hide Aligned, Tiled, Own, OwnSize;
    var f := FillSlot(l, work).(usedBuf := usedBuf);
    TiledSameWork(l, f);
    TiledExtend(f, end);
  }

  lemma ClosingAligns(cursor: nat, start: nat)
    requires cursor % 8 == 0 && Aligned(start) && start <= cursor
    ensures var end := cursor + 8 * Closing(cursor);
      Aligned(end) && end > start && Aligned(end - start)
  {
    var q := cursor / 8;
    assert cursor == 8 * q;
    if q % 2 == 1 {
      assert cursor + 24 == 16 * (q / 2 + 2);
    } else {
      assert cursor + 32 == 16 * (q / 2 + 2);
    }
  }

  lemma ClosingFits(l: List, cursor: nat)
    requires Buffered(l, cursor) && Aligned(l.lastSplit) && cursor + 8 * Closing(cursor) <= l.maxBuf
    ensures var end := cursor + 8 * Closing(cursor);
      end > l.lastSplit && Aligned(end) && Aligned(end - l.lastSplit) && forall m: List :: m.lastSplit == end && m.maxBuf == l.maxBuf ==> Buffered(m, end)
  {
    ClosingAligns(cursor, l.lastSplit);
  }

  function CloseList(l: List, end: nat): List
    requires l.used < |l.requests| && end >= l.lastSplit
  {
    FillSlot(l, Render(l.lastSplit, end - l.lastSplit, false)).(used := l.used + 1, usedBuf := end, lastSplit := end)
  }

  /** Closing a render request over everything from lastSplit to a 16-byte boundary. */
  lemma ClosedOk(id: nat, l: List, cursor: nat, n: nat, executed: seq<Event>)
    requires ListOk(id, l, cursor, n, executed) && l.used < |l.requests|
    requires cursor + 8 * Closing(cursor) <= l.maxBuf
    ensures var end := cursor + 8 * Closing(cursor);
      end > l.lastSplit && ListOk(id, CloseList(l, end), end, n, executed)
  {
    hide Closing, Executions, OwnTotal, Buffered, Flight, Aligned;
    var end := cursor + 8 * Closing(cursor);
    ClosingFits(l, cursor);
    TiledAdd(l, Render(l.lastSplit, end - l.lastSplit, false), end, end);
    ExecutionsSame(id, l, CloseList(l, end), l.issued);
    FlightSame(l, CloseList(l, end), n);
  }

  lemma FlightSame(l: List, m: List, n: nat)
    requires l.run <= l.issued <= |l.requests| && Flight(l, n)
    requires m.run == l.run && m.issued == l.issued && m.issued <= |m.requests|
    requires forall k :: 0 <= k < l.issued ==> m.requests[k].stop == l.requests[k].stop
    ensures Flight(m, n)
  {}

  /** A stop mark on the newest request in flight, or on one not issued yet. */
  lemma MarkedOk(id: nat, l: List, cursor: nat, n: nat, executed: seq<Event>, k: nat)
    requires ListOk(id, l, cursor, n, executed) && l.issued <= k + 1 <= |l.requests|
    ensures ListOk(id, l.(requests := l.requests[k := l.requests[k].(stop := true)]), cursor, n, executed)
  {
    var m := l.(requests := l.requests[k := l.requests[k].(stop := true)]);
    hide Executions, OwnTotal;
    TiledSameWork(l, m);
    ExecutionsSame(id, l, m, l.issued);
  }

  lemma TiledRetired(l: List)
    requires l.run < l.used <= |l.requests| && Tiled(l)
    ensures Tiled(l.(run := l.run + 1, runBuf := l.runBuf + OwnSize(l.requests[l.run].work)))
  {
    hide OwnTotal;
    OwnTotalStep(l.requests, l.run);
  }

  lemma RetiredOk(id: nat, l: List, cursor: nat, n: nat, executed: seq<Event>)
    requires ListOk(id, l, cursor, n, executed) && l.run < l.issued
    ensures ListOk(id, l.(run := l.run + 1, runBuf := l.runBuf + OwnSize(l.requests[l.run].work)), cursor, n, executed)
  {
    hide Executions, OwnTotal, Tiled;
    TiledRetired(l);
    ExecutionsSame(id, l, l.(run := l.run + 1, runBuf := l.runBuf + OwnSize(l.requests[l.run].work)), l.issued);
  }

  // ---------- one step at a time ----------

  /** Changing run flags only. */
  lemma FlagsKeep(s: Sys, t: Sys)
    requires ListsOk(s)
    requires (t.runList.Some? ==> t.runList.value in s.lists)
    requires t == s.(runList := t.runList, isRunning := t.isRunning, startRun := t.startRun, stopSpeculative := t.stopSpeculative)
    ensures ListsOk(t)
  {
    hide ListOk, Since;
    forall id <- t.lists ensures OkIn(t, id) { assert OkIn(s, id); }
  }

  /** Replacing one list, with the cursor if it is the bound one. */
  lemma ListKeeps(s: Sys, t: Sys, id: nat)
    requires ListsOk(s) && id in s.lists && id in t.lists && t.Closed() && t.numSpeculative == s.numSpeculative
    requires t.lists == s.lists[id := t.lists[id]] && t.log == s.log && t.bound == s.bound
    requires t.cursor == s.cursor || s.bound == Some(id)
    requires ListOk(id, t.lists[id], CursorOf(t, id), s.numSpeculative, Since(s.log, id))
    ensures ListsOk(t)
  {
    hide ListOk, Since;
    OthersKept(s, t, id);
  }

  lemma RunKeeps(s: Sys)
    requires Inv(s)
    ensures Inv(Run(s))
  {
    hide ListOk, Since, Issue;
    if s.bound.Some? && !s.isRunning && s.lists[s.bound.value].hasStorage {
      var l := s.lists[s.bound.value];
      assert OkIn(s, s.bound.value);
      var t := s.(runList := s.bound, startRun := true, isRunning := l.run < l.used);
      FlagsKeep(s, t);
      if l.run < l.used { IssueKeeps(t); }
    }
  }

  lemma StopKeeps(s: Sys)
    requires Inv(s)
    ensures s.isRunning ==> s.lists[s.runList.value].issued > 0
    ensures Inv(Stop(s))
  {
    hide ListOk, Since;
    var t := Stop(s);
    if s.runList.Some? && s.isRunning {
      var id := s.runList.value;
      var l := s.lists[id];
      assert OkIn(s, id);
      MarkedOk(id, l, CursorOf(s, id), s.numSpeculative, Since(s.log, id), l.issued - 1);
      ListKeeps(s, t, id);
    } else {
      FlagsKeep(s, t);
    }
  }

  lemma MarkStopKeeps(s: Sys, id: nat, k: nat)
    requires Inv(s) && id in s.lists && s.lists[id].issued <= k < |s.lists[id].requests|
    ensures Inv(MarkStop(s, id, k))
  {
    hide ListOk, Since;
    assert OkIn(s, id);
    MarkedOk(id, s.lists[id], CursorOf(s, id), s.numSpeculative, Since(s.log, id), k);
    ListKeeps(s, MarkStop(s, id, k), id);
  }

  /** The bound list of u has n more requests in their slots than that of s, not counted yet. */
  ghost predicate Filled(s: Sys, u: Sys, n: nat) {
    s.bound.Some? && s.bound.value in s.lists && s.bound.value in u.lists
    && var id := s.bound.value; var l, m := s.lists[id], u.lists[id];
      u == s.(lists := s.lists[id := m], cursor := u.cursor)
      && m.run == l.run && m.issued == l.issued && m.used == l.used && l.issued <= |l.requests|
      && m.issued <= m.used && n > 0 && m.used + n <= |m.requests| && Marked(m) == Marked(l)
      && ListOk(id, m.(used := m.used + n), u.cursor, s.numSpeculative, Since(s.log, id))
  }

  lemma CountedKeeps(s: Sys, u: Sys, n: nat)
    requires Inv(s) && u.Closed() && Filled(s, u, n)
    ensures ListsOk(Count(u, n))
  {
    hide ListOk, Since, FlagsOk;
    ListKeeps(s, Count(u, n), s.bound.value);
  }

  /** The flags after a request has been counted and before its list is woken. */
  predicate Wakeable(t: Sys)
    requires t.Closed()
  {
    && t.bound.Some? && t.lists[t.bound.value].run < t.lists[t.bound.value].used
    && (forall j <- t.lists :: t.lists[j].run < t.lists[j].issued <==> Busy(t, j))
    && (t.isRunning ==> t.startRun) && (t.startRun ==> t.runList.Some?)
    && (t.stopSpeculative <==> t.isRunning && Marked(t.lists[t.runList.value]))
    && (t.startRun && t.runList != t.bound && t.lists[t.runList.value].run < t.lists[t.runList.value].used
        ==> t.isRunning)
  }

  lemma CountedWakeable(s: Sys, u: Sys, n: nat)
    requires s.Closed() && FlagsOk(s) && u.Closed() && Filled(s, u, n)
    ensures Count(u, n).Closed() && Wakeable(Count(u, n))
  {
    hide ListOk, Since;
  }

  lemma WakeKeeps(t: Sys)
    requires t.Closed() && ListsOk(t) && Wakeable(t)
    ensures Inv(Wake(t))
  {
    hide ListsOk, Issue;
    if t.bound == t.runList && t.startRun && !t.isRunning {
      FlagsKeep(t, t.(isRunning := true));
      IssueKeeps(t.(isRunning := true));
    }
  }

  /** Committing requests that are already in their slots. */
  lemma CommitKeeps(s: Sys, u: Sys, n: nat)
    requires Inv(s) && u.Closed() && Filled(s, u, n)
    ensures Inv(Commit(u, n))
  {
    hide ListsOk, FlagsOk, ListOk, Wakeable, Issue;
    CountedKeeps(s, u, n);
    CountedWakeable(s, u, n);
    WakeKeeps(Count(u, n));
  }

  lemma ProduceKeeps(s: Sys, work: Work)
    requires Inv(s) && s.bound.Some? && OwnSize(work) == 0 && !Own(work)
    requires s.lists[s.bound.value].used < |s.lists[s.bound.value].requests|
    ensures Inv(Produce(s, work))
  {
    hide ListOk, Since, Issue;
    var id := s.bound.value;
    assert OkIn(s, id);
    AddedOk(id, s.lists[id], s.cursor, s.numSpeculative, Since(s.log, id), work);
    CommitKeeps(s, s.Put(id, FillSlot(s.lists[id], work)), 1);
  }

  /** Saving the live cursor in the bound list changes nothing that matters. */
  lemma SavedKeeps(s: Sys)
    requires Inv(s)
    ensures Inv(SaveCursor(s))
  {
    hide ListOk, Since;
    if s.bound.None? { return; }
    var id := s.bound.value;
    var l, m := s.lists[id], s.lists[id].(usedBuf := s.cursor);
    assert OkIn(s, id);
    assert ListOk(id, m, s.cursor, s.numSpeculative, Since(s.log, id)) by { SavedOk(id, l, s.cursor, s.numSpeculative, Since(s.log, id)); }
    ListKeeps(s, s.Put(id, m), id);
  }

  lemma SavedOk(id: nat, l: List, cursor: nat, n: nat, executed: seq<Event>)
    requires ListOk(id, l, cursor, n, executed)
    ensures ListOk(id, l.(usedBuf := cursor), cursor, n, executed)
  {
    assert Executions(id, l.(usedBuf := cursor), 0, l.issued) == Executions(id, l, 0, l.issued);
  }

  lemma WriteRegsFit(cursor: nat, max: nat, n: nat)
    requires cursor + 8 * n <= max
    ensures WriteRegs(cursor, max, n) == cursor + 8 * n
    decreases n
  {
    if n > 0 { WriteRegsFit(cursor + 8, max, n - 1); }
  }

  /** The size a split predicts is where the cursor really ends up, on a 16-byte boundary. */
  lemma CloseRenderExact(s: Sys)
    requires s.Closed() && !SplitFails(s)
    requires Buffered(s.lists[s.bound.value], s.cursor) && Aligned(s.lists[s.bound.value].lastSplit)
    ensures var t := CloseRender(s); var l := t.lists[s.bound.value];
      t.cursor == l.usedBuf == l.lastSplit && t.cursor == s.cursor + 8 * Closing(s.cursor) && Aligned(t.cursor)
  {
    var l := s.lists[s.bound.value];
    WriteRegsFit(s.cursor, l.maxBuf, Closing(s.cursor));
    ClosingAligns(s.cursor, l.lastSplit);
    hide Closing;
  }

  lemma BufferedIn(s: Sys, id: nat)
    requires ListsOk(s) && id in s.lists
    ensures Buffered(s.lists[id], CursorOf(s, id)) && Aligned(s.lists[id].lastSplit)
  {
    assert OkIn(s, id);
  }

  lemma SplitKeeps(s: Sys)
    requires Inv(s)
    ensures Inv(Split(s))
  {
    hide ListOk, Since, Issue, Closing;
    SavedKeeps(s);
    if !SplitFails(s) { CloseKeeps(SaveCursor(s)); }
  }

  lemma CloseKeeps(s: Sys)
    requires Inv(s) && !SplitFails(s)
    ensures Inv(Commit(CloseRender(s), 1))
  {
    hide ListOk, Since, Issue, Closing;
    var id := s.bound.value;
    BufferedIn(s, id);
    CloseRenderExact(s);
    assert OkIn(s, id);
    ClosedOk(id, s.lists[id], s.cursor, s.numSpeculative, Since(s.log, id));
    CommitKeeps(s, CloseRender(s), 1);
  }

  lemma FlushKeeps(s: Sys)
    requires Inv(s)
    ensures Inv(Flush(s))
  {
    hide ListsOk, FlagsOk, Split;
    SplitKeeps(s);
    SavedKeeps(s);
  }

  lemma AddExternalKeeps(s: Sys, addr: nat, size: nat)
    requires Inv(s)
    ensures Inv(AddExternal(s, addr, size))
  {
    hide OkIn, Issue, Split, Produce, SplitFails, Marked, Since;
    if s.bound.Some? && size != 0 {
      SavedKeeps(s);
      var t := SaveCursor(s);
      var l := t.lists[s.bound.value];
      SplitKeeps(t);
      if size % 16 != 0 || addr % 16 != 0 || l.used + (if l.lastSplit != s.cursor then 2 else 1) > |l.requests| {
      } else if l.lastSplit != s.cursor {
        if !SplitFails(t) { ProduceKeeps(Split(t), Render(addr, size, true)); }
      } else {
        ProduceKeeps(t, Render(addr, size, true));
      }
    }
  }

  /** Events that add to no list's executions keep the invariant. */
  lemma LoggedKeeps(s: Sys, t: Sys)
    requires Inv(s) && t == s.(log := t.log) && forall j: nat :: Since(t.log, j) == Since(s.log, j)
    ensures Inv(t)
  {
    hide ListOk, Since;
    forall j <- t.lists ensures OkIn(t, j) { assert OkIn(s, j); }
  }

  lemma NotifySince(s: Sys, id: nat, l: List, j: nat)
    requires s.Closed() && l.run < |l.requests|
    ensures Since(Notify(s, id, l).log, j) == Since(s.log, j)
  {
    hide Since, Sys.Closed, CallbackDue;
    SinceSnoc(s.log, CalledBack(id, l.run + 1), j);
  }

  /** A callback changes no list and no flag. */
  lemma NotifyKeeps(s: Sys, id: nat, l: List)
    requires Inv(s) && l.run < |l.requests|
    ensures Inv(Notify(s, id, l))
  {
    hide ListsOk, FlagsOk, Since, CallbackDue;
    forall j: nat ensures Since(Notify(s, id, l).log, j) == Since(s.log, j) { NotifySince(s, id, l, j); }
    LoggedKeeps(s, Notify(s, id, l));
  }

  /** A list that has just been emptied, or is gone. */
  lemma ResetKeepsLists(s: Sys, t: Sys, id: nat)
    requires ListsOk(s) && id in s.lists && t.log == s.log + [Reset(id)] && t.numSpeculative == s.numSpeculative
    requires t.Closed() && t.lists.Keys - {id} == s.lists.Keys - {id}
    requires forall j <- t.lists :: j != id && j in s.lists ==> t.lists[j] == s.lists[j] && CursorOf(t, j) == CursorOf(s, j)
    requires id in t.lists ==> var l := t.lists[id];
      l.used == l.issued == l.run == l.runBuf == l.lastSplit == 0 && Buffered(l, CursorOf(t, id))
    ensures ListsOk(t)
  {
    forall j: nat ensures Since(t.log, j) == (if j == id then [] else Since(s.log, j)) { SinceSnoc(s.log, Reset(id), j); }
    if id in t.lists { EmptyOk(id, t.lists[id], CursorOf(t, id), s.numSpeculative); }
    hide ListOk, Since;
    OthersKept(s, t, id);
  }

  lemma EmptyOk(id: nat, l: List, cursor: nat, n: nat)
    requires l.used == l.issued == l.run == l.runBuf == l.lastSplit == 0 && Buffered(l, cursor)
    ensures ListOk(id, l, cursor, n, [])
  {}

  lemma InterruptKeeps(s: Sys)
    requires Inv(s) && InFlight(s)
    ensures Inv(Interrupt(s))
  {
    hide ListsOk, FlagsOk, Proceed, Notify;
    var l := s.lists[s.runList.value];
    ProceedKeeps(s);
    NotifyKeeps(Proceed(Retire(s), l.requests[l.run].stop), s.runList.value, l);
  }

  lemma ProceedKeeps(s: Sys)
    requires Inv(s) && InFlight(s)
    ensures var l := s.lists[s.runList.value]; Inv(Proceed(Retire(s), l.requests[l.run].stop))
  {
    hide ListsOk, Issue;
    var id := s.runList.value;
    var l := s.lists[id];
    FlightStops(s, id);
    RetireKeepsLists(s);
    var t := Retire(s);
    if l.requests[l.run].stop {
      FlagsKeep(t, t.(startRun := false, stopSpeculative := false, isRunning := false));
    } else if l.run + 1 < l.used {
      IssueKeeps(t);
    } else {
      FlagsKeep(t, t.(isRunning := false));
    }
  }

  lemma RetireKeepsLists(s: Sys)
    requires s.Closed() && ListsOk(s) && InFlight(s)
    ensures ListsOk(Retire(s))
  {
    hide ListOk, Since;
    var id := s.runList.value;
    var l := s.lists[id];
    assert OkIn(s, id);
    RetiredOk(id, l, CursorOf(s, id), s.numSpeculative, Since(s.log, id));
    ListKeeps(s, Retire(s), id);
  }

  /** A stop mark in flight is on the newest request in flight. */
  lemma FlightStops(s: Sys, id: nat)
    requires ListsOk(s) && id in s.lists
    ensures var l := s.lists[id];
      l.issued - l.run <= s.numSpeculative && forall k :: l.run <= k < l.issued - 1 ==> !l.requests[k].stop
  {
    assert OkIn(s, id);
  }

  lemma CreateKeeps(s: Sys, id: nat)
    requires Inv(s)
    ensures Inv(Create(s, id))
  {
    hide ListOk, Since;
    if id != 0 && id !in s.lists {
      EmptyOk(id, FRESH_LIST, 0, s.numSpeculative);
      OthersKept(s, s.Put(id, FRESH_LIST), id);
    }
  }

  /** Handing the live cursor over does not move any list's cursor. */
  lemma AttachKeeps(s: Sys, id: nat)
    requires Inv(s) && (id == 0 || id in s.lists)
    requires s.bound.Some? ==> s.lists[s.bound.value].usedBuf == s.cursor
    ensures Inv(Attach(s, id))
  {
    hide ListOk, Since;
    var t := Attach(s, id);
    forall j <- t.lists ensures OkIn(t, j) { assert OkIn(s, j); }
  }

  lemma BindKeeps(s: Sys, id: nat)
    requires Inv(s)
    ensures Inv(Bind(s, id))
  {
    hide ListsOk, FlagsOk, Create, Attach;
    CreateKeeps(s, id);
    SavedKeeps(Create(s, id));
    AttachKeeps(SaveCursor(Create(s, id)), id);
  }

  lemma ClearKeeps(s: Sys)
    requires Inv(s)
    ensures Inv(Clear(s))
  {
    hide ListOk, Since, Tiled;
    if s.bound.Some? && s.lists[s.bound.value].hasStorage && !Busy(s, s.bound.value) {
      BufferedIn(s, s.bound.value);
      ResetKeepsLists(s, Clear(s), s.bound.value);
    }
  }

  /** Storage keeps the invariant exactly when nothing had been split off before: the source
      does not reset last_split_offset here. */
  lemma StorageKeeps(s: Sys, bufSize: nat, requestCount: nat)
    requires Inv(s) && bufSize % 8 == 0
    ensures Inv(Storage(s, bufSize, requestCount))
       <==> (s.bound.None? || Busy(s, s.bound.value) || s.lists[s.bound.value].lastSplit == 0)
  {
    hide ListOk, Since, Tiled;
    if s.bound.Some? && !Busy(s, s.bound.value) {
      var id := s.bound.value;
      var t := Storage(s, bufSize, requestCount);
      if s.lists[id].lastSplit == 0 {
        ResetKeepsLists(s, t, id);
      } else {
        StaleSplit(t, id);
      }
    }
  }

  /** An idle list with one render request of 32 bytes behind it: after new storage, the first split
      makes a request that covers none of the words written since. */
  lemma StorageLosesWords()
    ensures Inv(RanOnce()) && !Inv(Storage(RanOnce(), 64, 2))
    ensures var t := Split(Storage(RanOnce(), 64, 2));
      t.cursor == 32 && t.lists[1].requests[0].work == Render(32, 0, false)
  {
    hide ListsOk, FlagsOk;
    RanOnceOk();
    StorageKeeps(RanOnce(), 64, 2);
    RestoredSplits();
  }

  lemma RestoredSplits()
    ensures var t := Split(Storage(RanOnce(), 64, 2));
      t.cursor == 32 && t.lists[1].requests[0].work == Render(32, 0, false)
  {
    var t := CloseRender(SaveCursor(Storage(RanOnce(), 64, 2)));
    assert WriteRegs(0, 64, 4) == WriteRegs(8, 64, 3) == WriteRegs(24, 64, 1) == 32;
    assert t.cursor == 32 && t.lists[1].requests[0].work == Render(32, 0, false);
  }

  lemma RanOnceOk()
    ensures Inv(RanOnce())
  {
    var s := RanOnce();
    var l := s.lists[1];
    assert Executions(1, l, 0, 1) == s.log;
    forall id: nat ensures Since(s.log, id) == if id == 1 then s.log else [] { SinceFirst(s.log[0], id); }
    assert OwnTotal(l.requests, 0) == 0 && OwnTotal(l.requests, 1) == 32;
    hide Since, OwnTotal, Executions;
    assert OkIn(s, 1);
  }

  lemma SinceFirst(e: Event, id: nat)
    requires e.Executed?
    ensures Since([e], id) == if e.list == id then [e] else []
  {
    SinceSnoc([], e, id);
    assert [] + [e] == [e];
  }

  function RanOnce(): Sys {
    var q := Request(Render(0, 32, false), false, false);
    START.(lists := map[1 := List(true, 64, 32, 32, 32, [q, BLANK], 1, 1, 1, false, false)],
           bound := Some(1), cursor := 32, log := [Executed(1, 0, q.work)])
  }

  lemma StaleSplit(t: Sys, id: nat)
    requires t.Closed() && id in t.lists && t.lists[id].used == 0 && t.lists[id].lastSplit != 0
    ensures !ListsOk(t)
  {
    hide Since;
    assert OwnTotal(t.lists[id].requests, 0) == 0;
    assert !OkIn(t, id);
  }

  lemma DeleteKeepsLists(s: Sys, id: nat)
    requires s.Closed() && ListsOk(s) && id != 0 && id in s.lists && !Busy(s, id)
    ensures ListsOk(Delete(s, id))
  {
    hide ListOk, Since;
    ResetKeepsLists(s, Delete(s, id), id);
  }

  lemma DeleteKeepsFlags(s: Sys, id: nat)
    requires s.Closed() && FlagsOk(s)
    ensures FlagsOk(Delete(s, id))
  {}

  lemma DeleteKeeps(s: Sys, id: nat)
    requires Inv(s)
    ensures Inv(Delete(s, id))
  {
    hide ListsOk;
    if id != 0 && id in s.lists && !Busy(s, id) {
      DeleteKeepsLists(s, id);
    }
    DeleteKeepsFlags(s, id);
  }

  /** Writers between splits move the cursor forward within the buffer. */
  predicate Written(s: Sys, t: Sys)
    requires s.Closed()
  {
    t == s.(cursor := t.cursor) && s.cursor <= t.cursor <= s.BoundMax() && t.cursor % 8 == 0
  }

  lemma WriteKeeps(s: Sys, t: Sys)
    requires Inv(s) && Written(s, t)
    ensures Inv(t)
  {
    forall j <- t.lists ensures OkIn(t, j) { assert OkIn(s, j); }
  }

  // ---------- the partition of the buffer ----------

  predicate Covers(l: List, k: nat, x: nat)
    requires k < |l.requests|
  {
    var w := l.requests[k].work;
    Own(w) && w.addr <= x < w.addr + w.size
  }

  lemma CoversBetween(l: List, k: nat, x: nat)
    requires l.run <= l.used <= |l.requests| && Tiled(l) && k < l.used
    ensures Covers(l, k, x) <==> OwnTotal(l.requests, k) <= x < OwnTotal(l.requests, k + 1)
  {
    hide OwnTotal;
    OwnTotalStep(l.requests, k);
  }

  lemma CoveredBelow(l: List, k: nat, x: nat)
    requires l.run <= l.used <= |l.requests| && Tiled(l) && k < l.used && Covers(l, k, x)
    ensures x < l.lastSplit
  {
    hide Covers, OwnTotal;
    CoversBetween(l, k, x);
    OwnTotalGrows(l.requests, k + 1, l.used);
  }

  lemma CoveredOnce(l: List, j: nat, k: nat, x: nat)
    requires l.run <= l.used <= |l.requests| && Tiled(l) && j < l.used && k < l.used
    requires Covers(l, j, x) && Covers(l, k, x)
    ensures j == k
  {
    hide Tiled, Covers, OwnTotal;
    CoversBetween(l, j, x);
    CoversBetween(l, k, x);
    if j < k { OwnTotalGrows(l.requests, j + 1, k); }
    if k < j { OwnTotalGrows(l.requests, k + 1, j); }
  }

  /** The own render requests partition [0, lastSplit): every byte below lastSplit is covered,
      by exactly one request, and no byte from lastSplit on is covered. */
  lemma Partition(l: List, x: nat)
    requires l.run <= l.used <= |l.requests| && Tiled(l)
    ensures x < l.lastSplit <==> exists k :: 0 <= k < l.used && Covers(l, k, x)
    ensures forall j, k :: 0 <= j < l.used && 0 <= k < l.used && Covers(l, j, x) && Covers(l, k, x) ==> j == k
  {
    hide Covers;
    forall k | 0 <= k < l.used && Covers(l, k, x) ensures x < l.lastSplit { CoveredBelow(l, k, x); }
    forall j, k | 0 <= j < l.used && 0 <= k < l.used && Covers(l, j, x) && Covers(l, k, x) ensures j == k {
      CoveredOnce(l, j, k, x);
    }
    if x < l.lastSplit {
      var k := Straddled(l.requests, l.used, x);
      CoversBetween(l, k, x);
    }
  }

  lemma {:induction false} OwnTotalGrows(q: seq<Request>, m: nat, n: nat)
    requires m <= n <= |q|
    ensures OwnTotal(q, m) <= OwnTotal(q, n)
    decreases n
  {
    if m < n { OwnTotalGrows(q, m, n - 1); }
  }

  lemma {:induction false} Straddled(q: seq<Request>, n: nat, x: nat) returns (k: nat)
    requires n <= |q| && x < OwnTotal(q, n)
    ensures k < n && OwnTotal(q, k) <= x < OwnTotal(q, k + 1)
    decreases n
  {
    if x >= OwnTotal(q, n - 1) { k := n - 1; } else { k := Straddled(q, n - 1, x); }
  }

  /** When everything has retired, the bytes run are the bytes split off. */
  lemma Conservation(s: Sys, id: nat)
    requires Inv(s) && id in s.lists && s.lists[id].run == s.lists[id].used
    ensures s.lists[id].runBuf == s.lists[id].lastSplit
  {
    assert OkIn(s, id);
  }
}
