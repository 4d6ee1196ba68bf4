/** The run protocol as systemmanager.c keeps it: list objects updated through pointers, and a
    manager holding the flags.  Every method is proved to do exactly the step of Cmdlist. */
module CmdlistManager {
  import opened Cmdlist
  import opened Wrappers

  /** cl_list_t */
  class CmdList {
    const id: nat
    var hasStorage: bool
    var maxBuf: nat
    var usedBuf: nat
    var runBuf: nat
    var lastSplit: nat
    var requests: array<Request>
    var used: nat
    var issued: nat
    var run: nat
    var hasCallback: bool
    var lastCallback: bool

    ghost function View(): List
      reads this, requests
    {
      List(hasStorage, maxBuf, usedBuf, runBuf, lastSplit, requests[..], used, issued, run, hasCallback, lastCallback)
    }

    constructor (id: nat)
      ensures this.id == id && View() == FRESH_LIST && fresh(requests)
    {
      this.id := id;
      hasStorage, maxBuf, usedBuf, runBuf, lastSplit := false, 0, 0, 0, 0;
      requests := new Request[0];
      used, issued, run, hasCallback, lastCallback := 0, 0, 0, false, false;
    }
  }

  /** sys_manager_t */
  class Manager {
    var table: map<nat, CmdList>
    var bound: CmdList?
    var cursor: nat
    var runList: CmdList?
    var isRunning: bool
    var startRun: bool
    var stopSpeculative: bool
    var numSpeculative: nat
    ghost var log: seq<Event>

    ghost function Arrays(): set<object>
      reads this, table.Values
    {
      set l | l in table.Values :: l.requests
    }

    ghost function Views(): map<nat, List>
      reads this, table.Values, Arrays()
    {
      map id | id in table :: table[id].View()
    }

    ghost function View(): Sys
      reads this, table.Values, Arrays()
    {
      Sys(Views(), if bound == null then None else Some(bound.id), cursor,
          if runList == null then None else Some(runList.id),
          isRunning, startRun, stopSpeculative, numSpeculative, log)
    }

    predicate Linked(l: CmdList?)
      reads this
    {
      l != null ==> l.id in table && table[l.id] == l
    }

    /** Lists are reached by their ids, share no storage, and the pointers point into the table. */
    ghost predicate Wired()
      reads this, table.Values
    {
      && (forall i <- table :: table[i].id == i)
      && (forall i, j :: i in table && j in table && i != j ==> table[i].requests != table[j].requests)
      && Linked(bound) && Linked(runList)
    }

    ghost predicate Valid()
      reads this, table.Values, Arrays()
    {
      Wired() && View().Closed()
    }

    /** An update of one list object is an update of one entry of the map of lists. */
    twostate lemma OneList(l: CmdList)
      requires old(Wired()) && table == old(table) && l in table.Values
      requires forall m <- table.Values :: m != l ==> unchanged(m) && unchanged(old(m.requests))
      requires l.requests == old(l.requests) && Linked(bound) && Linked(runList)
      ensures Wired()
      ensures Views() == old(Views())[l.id := l.View()]
    {}

    twostate lemma NoList()
      requires old(Wired()) && table == old(table)
      requires forall m <- table.Values :: unchanged(m) && unchanged(m.requests)
      requires Linked(bound) && Linked(runList)
      ensures Wired()
      ensures Views() == old(Views())
    {}

    lemma PointersLinked()
      requires Valid()
      ensures Linked(bound) && Linked(runList)
    {}

    /** No other list shares the storage of l. */
    lemma Apart(l: CmdList)
      requires Valid() && Linked(l)
      ensures forall m <- table.Values :: m != l ==> m.requests != l.requests
    {}

    lemma EntryLinked(id: nat)
      requires Valid() && id in table
      ensures table[id].id == id && Linked(table[id])
    {}

    lemma ViewsAt(l: CmdList)
      requires Valid() && Linked(l)
      ensures l.id in Views() && Views()[l.id] == l.View() && l in table.Values
      ensures l.run <= l.issued <= l.used <= l.requests.Length
    {}

    /** The loop of sys_issueSpeculativeCommandRequests, seen from the list `l` it works on. */
    method IssueLoop(cmdlist: CmdList, ghost l: List)
      requires l.issued <= l.used <= |l.requests| && cmdlist.requests[..] == l.requests
      requires cmdlist.used == l.used && cmdlist.issued == l.issued && cmdlist.run == l.run
      modifies this`stopSpeculative, this`log, cmdlist`issued
      ensures cmdlist.issued == IssueEnd(l, l.issued, l.run + numSpeculative)
      ensures log == old(log) + Executions(cmdlist.id, l, l.issued, cmdlist.issued)
      ensures stopSpeculative ==
        (old(stopSpeculative) || (cmdlist.issued > l.issued && l.requests[cmdlist.issued - 1].stop))
    {
      hide Executions, IssueEnd;
      ghost var limit := cmdlist.run + numSpeculative;
      ExecutionsNone(cmdlist.id, l, l.issued);
      assert log + [] == log;
      while cmdlist.issued < cmdlist.used
        invariant l.issued <= cmdlist.issued <= cmdlist.used
        invariant log == old(log) + Executions(cmdlist.id, l, l.issued, cmdlist.issued)
        invariant stopSpeculative == old(stopSpeculative)
        invariant cmdlist.issued > l.issued ==> !l.requests[cmdlist.issued - 1].stop
        invariant IssueEnd(l, cmdlist.issued, limit) == IssueEnd(l, l.issued, limit)
      {
        IssueEndStep(l, cmdlist.issued, limit);
        if cmdlist.issued >= cmdlist.run + numSpeculative { break; }
        var q := cmdlist.requests[cmdlist.issued];
        assert q == l.requests[cmdlist.issued];
        ExecutionsNext(cmdlist.id, l, l.issued, cmdlist.issued);
        log := log + [Executed(cmdlist.id, cmdlist.issued, q.work)];
        cmdlist.issued := cmdlist.issued + 1;
        if q.stop {
          stopSpeculative := true;
          break;
        }
      }
    }

    /** sys_issueSpeculativeCommandRequests */
    method IssueSpeculative()
      requires Valid() && runList != null
      modifies this`stopSpeculative, this`log, runList`issued
      ensures Valid() && View() == Issue(old(View()))
    {
      hide IssueEnd, Executions, Views, Issue, Sys.Closed, Wired;
      PointersLinked();
      ghost var s, l := View(), runList.View();
      ViewsAt(runList);
      IssueMeans(s);
      if stopSpeculative { return; }
      IssueLoop(runList, l);
      OneList(runList);
      assert runList.View() == l.(issued := runList.issued);
    }

    /** sys_RunCmdlistCore on the bound list */
    method RunCmdlist()
      requires Valid()
      modifies this`runList, this`startRun, this`isRunning, this`stopSpeculative, this`log,
        (if bound == null then {} else {bound})`issued
      ensures Valid() && View() == Run(old(View()))
    {
      hide Issue, Views, Sys.Closed, Wired;
      PointersLinked();
      var cmdlist := bound;
      if cmdlist == null || isRunning { return; }
      ViewsAt(cmdlist);
      if !cmdlist.hasStorage { return; }
      ghost var s := View();
      runList := cmdlist;
      startRun := true;
      if cmdlist.run < cmdlist.used {
        isRunning := true;
        NoList();
        assert View() == s.(runList := s.bound, startRun := true, isRunning := true);
        assert View().Closed() by { SameListsClosed(s, View()); }
        IssueSpeculative();
      } else {
        isRunning := false;
        NoList();
        assert View().Closed() by { SameListsClosed(s, View()); }
      }
    }

    lemma SameListsClosed(s: Sys, t: Sys)
      requires s.Closed() && t.lists == s.lists && t.bound == s.bound
      requires t.runList == s.runList || (t.runList.Some? ==> t.runList.value in t.lists)
      ensures t.Closed()
    {}

    /** nngxStopCmdlist */
    method StopCmdlist()
      requires Valid() && (isRunning && runList != null ==> runList.issued > 0)
      modifies this`startRun, this`stopSpeculative, (if runList == null then {} else {runList.requests})
      ensures Valid() && View() == Stop(old(View()))
    {
      hide Views, Sys.Closed, Wired;
      PointersLinked();
      var cmdlist := runList;
      if cmdlist != null {
        ViewsAt(cmdlist);
        ghost var s := View();
        if isRunning {
          Apart(cmdlist);
          var k := cmdlist.issued - 1;
          ghost var l := cmdlist.View();
          cmdlist.requests[k] := cmdlist.requests[k].(stop := true);
          stopSpeculative := true;
          OneList(cmdlist);
          assert cmdlist.View() == l.(requests := l.requests[k := l.requests[k].(stop := true)]);
          assert View() == Stop(s);
        } else {
          startRun := false;
          NoList();
          SameListsClosed(s, View());
        }
      }
    }

    method CountMore(n: nat)
      requires Valid() && bound != null && bound.used + n <= bound.requests.Length
      modifies bound`used
      ensures Valid() && View() == Count(old(View()), n)
    {
      hide Views, Sys.Closed, Wired;
      PointersLinked();
      ghost var s, l := View(), bound.View();
      ViewsAt(bound);
      bound.used := bound.used + n;
      OneList(bound);
      assert bound.View() == l.(used := l.used + n);
      assert View() == Count(s, n);
    }

    method WakeList()
      requires Valid() && bound != null
      modifies this`isRunning, this`stopSpeculative, this`log, bound`issued
      ensures Valid() && View() == Wake(old(View()))
    {
      hide Issue, Views, Sys.Closed, Wired;
      PointersLinked();
      if bound == runList && startRun && !isRunning {
        ghost var s := View();
        isRunning := true;
        NoList();
        assert View() == s.(isRunning := true);
        SameListsClosed(s, View());
        IssueSpeculative();
      }
    }

    /** The locked tail of every producer, for n requests already in their slots. */
    method CommitRequests(n: nat)
      requires Valid() && bound != null && bound.used + n <= bound.requests.Length
      modifies this`isRunning, this`stopSpeculative, this`log, bound`used, bound`issued
      ensures Valid() && View() == Commit(old(View()), n)
    {
      hide Wake, Count, Views, Sys.Closed, Wired;
      PointersLinked();
      CountMore(n);
      WakeList();
    }

    /** Store a request's work in the next free slot, keeping the marks already there. */
    method FillNext(work: Work)
      requires Valid() && bound != null && bound.used < bound.requests.Length
      modifies bound.requests
      ensures Valid() && View() == old(View()).Put(bound.id, FillSlot(old(bound.View()), work))
    {
      hide Views, Sys.Closed, Wired;
      PointersLinked();
      ghost var s, l := View(), bound.View();
      ViewsAt(bound);
      Apart(bound);
      bound.requests[bound.used] := bound.requests[bound.used].(work := work);
      OneList(bound);
      assert bound.View() == FillSlot(l, work);
      assert View() == s.Put(bound.id, FillSlot(l, work));
      FilledClosed(s, bound.id, work);
    }

    lemma FilledClosed(s: Sys, id: nat, work: Work)
      requires s.Closed() && id in s.lists && s.lists[id].used < |s.lists[id].requests|
      ensures s.Put(id, FillSlot(s.lists[id], work)).Closed()
    {}

    /** DMA, fill, transfer and copy requests */
    method SubmitRequest(code: int)
      requires Valid()
      modifies this`isRunning, this`stopSpeculative, this`log,
        (if bound == null then {} else {bound})`used, (if bound == null then {} else {bound})`issued,
        (if bound == null then {} else {bound.requests})
      ensures Valid() && View() == Submit(old(View()), code)
    {
      hide Commit, Views, Sys.Closed, Wired;
      PointersLinked();
      if bound != null { ViewsAt(bound); }
      if bound == null || bound.used == bound.requests.Length { return; }
      FillNext(Engine(code));
      CommitRequests(1);
    }

    /** __cb_writeReg, as far as the cursor goes */
    method WriteOneReg()
      requires Valid() && bound != null
      modifies this`cursor
      ensures Valid() && View() == old(View()).(cursor := WriteReg(old(cursor), bound.maxBuf))
    {
      hide Views, Sys.Closed, Wired;
      PointersLinked();
      ghost var s := View();
      if cursor < bound.maxBuf { cursor := cursor + 8; }
      NoList();
      SameListsClosed(s, View());
    }

    /** used_bufsize takes the live cursor */
    method SaveCursorNow()
      requires Valid()
      modifies (if bound == null then {} else {bound})`usedBuf
      ensures Valid() && View() == SaveCursor(old(View()))
    {
      hide Views, Sys.Closed, Wired;
      PointersLinked();
      if bound == null { return; }
      ghost var s, l := View(), bound.View();
      ViewsAt(bound);
      bound.usedBuf := cursor;
      OneList(bound);
      assert bound.View() == l.(usedBuf := cursor);
      assert View() == SaveCursor(s);
    }

    /** used_bufsize moves on by one register write. */
    method CountOneReg()
      requires Valid() && bound != null
      modifies bound`usedBuf
      ensures Valid() && View() == old(View()).Put(bound.id, old(bound.View()).(usedBuf := old(bound.usedBuf) + 8))
    {
      hide Views, Sys.Closed, Wired;
      PointersLinked();
      ghost var s, l := View(), bound.View();
      ViewsAt(bound);
      bound.usedBuf := bound.usedBuf + 8;
      OneList(bound);
      assert bound.View() == l.(usedBuf := l.usedBuf + 8);
      UsedClosed(s, bound.id, l.usedBuf + 8);
    }

    /** One register write that is counted at once. */
    method WriteCountedReg()
      requires Valid() && bound != null
      modifies this`cursor, bound`usedBuf
      ensures Valid() && View() == old(View()).(cursor := WriteReg(old(cursor), bound.maxBuf))
        .Put(bound.id, old(bound.View()).(usedBuf := old(bound.usedBuf) + 8))
    {
      hide Views, Sys.Closed, Wired, WriteReg;
      PointersLinked();
      WriteOneReg();
      CountOneReg();
    }

    lemma UsedClosed(s: Sys, id: nat, v: nat)
      requires s.Closed() && id in s.lists
      ensures s.Put(id, s.lists[id].(usedBuf := v)).Closed()
    {}

    /** The closing register writes: n of them, the padding one first when n is 4. */
    method WriteClosing(n: nat)
      requires Valid() && bound != null && 3 <= n <= 4
      modifies this`cursor
      ensures Valid() && View() == old(View()).(cursor := WriteRegs(old(cursor), bound.maxBuf, n))
    {
      hide Views, Sys.Closed, WriteReg, Wired;
      PointersLinked();
      ghost var max, c := bound.maxBuf, cursor;
      if n == 4 { WriteOneReg(); }
      WriteOneReg();
      WriteOneReg();
      WriteOneReg();
      FourWrites(c, max);
    }

    /** Fill the render request and move last_split_offset. */
    method FillRender(end: nat)
      requires Valid() && bound != null && bound.used < bound.requests.Length && bound.lastSplit <= end
      modifies bound`usedBuf, bound`lastSplit, bound.requests
      ensures Valid()
      ensures View() == old(View()).Put(bound.id,
        FillSlot(old(bound.View()), Render(old(bound.lastSplit), end - old(bound.lastSplit), false))
          .(usedBuf := end, lastSplit := end))
    {
      hide Views, Sys.Closed, Wired;
      PointersLinked();
      ghost var s, l := View(), bound.View();
      ViewsAt(bound);
      Apart(bound);
      var w := Render(bound.lastSplit, end - bound.lastSplit, false);
      bound.requests[bound.used] := bound.requests[bound.used].(work := w);
      bound.usedBuf, bound.lastSplit := end, end;
      OneList(bound);
      assert bound.View() == FillSlot(l, w).(usedBuf := end, lastSplit := end);
      assert View() == s.Put(bound.id, FillSlot(l, w).(usedBuf := end, lastSplit := end));
      RenderClosed(s, bound.id, w, end);
    }

    lemma RenderClosed(s: Sys, id: nat, w: Work, end: nat)
      requires s.Closed() && id in s.lists && s.lists[id].used < |s.lists[id].requests|
      ensures s.Put(id, FillSlot(s.lists[id], w).(usedBuf := end, lastSplit := end)).Closed()
    {}

    /** nngxSplitDrawCmdlist.  Nothing before the last split point is pending (Buffered). */
    method SplitDraw()
      requires Valid() && (bound != null ==> bound.lastSplit <= cursor)
      modifies this`isRunning, this`stopSpeculative, this`log, this`cursor,
        (if bound == null then {} else {bound})`used, (if bound == null then {} else {bound})`issued,
        (if bound == null then {} else {bound})`usedBuf, (if bound == null then {} else {bound})`lastSplit,
        (if bound == null then {} else {bound.requests})
      ensures Valid() && View() == Split(old(View()))
    {
      hide Commit, Views, Sys.Closed, CloseRender, Wired;
      PointersLinked();
      if bound == null { return; }
      ViewsAt(bound);
      if bound.used == bound.requests.Length { return; }
      SaveCursorNow();
      ViewsAt(bound);
      var closing := if bound.usedBuf / 8 % 2 == 1 then 3 else 4;
      if bound.maxBuf < bound.usedBuf + 8 * closing { return; }
      CloseNow(closing);
      CommitRequests(1);
    }

    method CloseNow(closing: nat)
      requires Valid() && bound != null && bound.used < bound.requests.Length && bound.lastSplit <= cursor
      requires closing == Closing(cursor) && bound.usedBuf == cursor && cursor + 8 * closing <= bound.maxBuf
      modifies this`cursor, bound`usedBuf, bound`lastSplit, bound.requests
      ensures !SplitFails(old(View())) && Valid() && View() == CloseRender(old(View()))
      ensures bound.used < bound.requests.Length
    {
      hide Views, Sys.Closed, WriteRegs, Closing, Wired;
      PointersLinked();
      ghost var s := View();
      ViewsAt(bound);
      assert !SplitFails(s);
      WriteClosing(closing);
      FillRender(bound.usedBuf + 8 * closing);
    }

    /** nngxFlush3DCommand */
    method Flush3D()
      requires Valid() && (bound != null ==> bound.lastSplit <= cursor)
      modifies this`isRunning, this`stopSpeculative, this`log, this`cursor,
        (if bound == null then {} else {bound})`used, (if bound == null then {} else {bound})`issued,
        (if bound == null then {} else {bound})`usedBuf, (if bound == null then {} else {bound})`lastSplit,
        (if bound == null then {} else {bound.requests})
      ensures Valid() && View() == Flush(old(View()))
    {
      hide Views, Sys.Closed, Split, Wired;
      PointersLinked();
      if bound == null { return; }
      ViewsAt(bound);
      if bound.used == bound.requests.Length { return; }
      if bound.lastSplit == cursor { SaveCursorNow(); } else { SplitDraw(); }
    }

    /** Count the oldest request in flight as run. */
    method RetireCount()
      requires Valid() && runList != null && runList.run < runList.issued
      modifies runList`run, runList`runBuf
      ensures Valid() && runList.run == old(runList.run) + 1
      ensures View() == old(View()).Put(runList.id, RetiredList(old(runList.View())))
    {
      hide Views, Sys.Closed, OwnSize, Wired;
      PointersLinked();
      ghost var s, l := View(), runList.View();
      ViewsAt(runList);
      var q := runList.requests[runList.run];
      assert q == l.requests[l.run];
      var size := if q.work.Render? && !q.work.ext then q.work.size else 0;
      OwnSizeIs(q.work);
      runList.runBuf := runList.runBuf + size;
      runList.run := runList.run + 1;
      OneList(runList);
      assert runList.View() == RetiredList(l);
      RetiredClosed(s, runList.id);
    }

    lemma RetiredClosed(s: Sys, id: nat)
      requires s.Closed() && id in s.lists && s.lists[id].run < s.lists[id].issued
      ensures s.Put(id, RetiredList(s.lists[id])).Closed()
    {}

    lemma InterruptMeans(s: Sys, t: Sys)
      requires s.Closed() && InFlight(s) && t == Retire(s)
      ensures var l := s.lists[s.runList.value];
        Interrupt(s) == Notify(Proceed(t, l.requests[l.run].stop), s.runList.value, l)
    {}

    /** The locked part of sys_commonIntrHandler behind the count. */
    method ProceedNow(stop: bool)
      requires Valid() && runList != null
      modifies this`isRunning, this`startRun, this`stopSpeculative, this`log, runList`issued
      ensures Valid() && View() == Proceed(old(View()), stop)
    {
      hide Views, Sys.Closed, Issue, Wired;
      PointersLinked();
      ghost var t := View();
      ViewsAt(runList);
      if !stop && runList.run < runList.used {
        IssueSpeculative();
      } else {
        if stop { startRun, stopSpeculative := false, false; }
        isRunning := false;
        NoList();
        SameListsClosed(t, View());
      }
    }

    /** The end of sys_commonIntrHandler. */
    method NotifyNow(due: bool, arg: nat, ghost l: List)
      requires Valid() && runList != null && l.run < |l.requests| && due == CallbackDue(l) && arg == l.run + 1
      modifies this`log
      ensures Valid() && View() == Notify(old(View()), runList.id, l)
    {
      hide Views, Sys.Closed, CallbackDue, Wired;
      PointersLinked();
      ghost var t := View();
      if due { log := log + [CalledBack(runList.id, arg)]; }
      NoList();
      SameListsClosed(t, View());
    }

    method InterruptHandler()
      requires Valid() && runList != null && runList.run < runList.issued
      modifies this`isRunning, this`startRun, this`stopSpeculative, this`log,
        runList`run, runList`runBuf, runList`issued
      ensures Valid() && View() == Interrupt(old(View()))
    {
      hide Views, Sys.Closed, Issue, Proceed, Notify, RetiredList, Wired;
      PointersLinked();
      ghost var l := runList.View();
      ViewsAt(runList);
      var q := runList.requests[runList.run];
      RetireCount();
      var due := runList.hasCallback && (q.callback || (runList.run == runList.used && runList.lastCallback));
      var arg := runList.run;
      InterruptMeans(old(View()), View());
      ProceedNow(q.stop);
      NotifyNow(due, arg, l);
    }

    /** sys_ClearCmdlistCore */
    method ClearCore(cmdlist: CmdList)
      requires cmdlist.used <= cmdlist.requests.Length
      modifies cmdlist`usedBuf, cmdlist`runBuf, cmdlist`lastSplit, cmdlist`used, cmdlist`issued, cmdlist`run, cmdlist.requests
      ensures cmdlist.View() == ClearedList(old(cmdlist.View()))
    {
      var i := 0;
      while i < cmdlist.used
        invariant i <= cmdlist.used
        invariant forall k :: 0 <= k < cmdlist.requests.Length ==>
          cmdlist.requests[k] == if k < i then BLANK else old(cmdlist.requests[k])
        modifies cmdlist.requests
      {
        cmdlist.requests[i] := BLANK;
        i := i + 1;
      }
      assert cmdlist.requests[..] == seq(cmdlist.used, _ => BLANK) + old(cmdlist.requests[..])[cmdlist.used..];
      cmdlist.usedBuf, cmdlist.runBuf, cmdlist.lastSplit := 0, 0, 0;
      cmdlist.used, cmdlist.issued, cmdlist.run := 0, 0, 0;
    }

    /** nngxClearCmdlist */
    method ClearCmdlist()
      requires Valid()
      modifies this`cursor, this`log, (if bound == null then {} else {bound}), (if bound == null then {} else {bound.requests})
      ensures Valid() && View() == Clear(old(View()))
    {
      hide Views, Sys.Closed, ClearedList, Wired;
      PointersLinked();
      ghost var s := View();
      if bound == null { return; }
      ViewsAt(bound);
      if !bound.hasStorage || (bound == runList && isRunning) { return; }
      Apart(bound);
      ClearCore(bound);
      cursor := 0;
      log := log + [Reset(bound.id)];
      OneList(bound);
      assert View() == Clear(s);
    }

    twostate lemma NewList(new l: CmdList)
      requires old(Wired()) && l.id !in old(table) && table == old(table)[l.id := l]
      requires forall m <- old(table).Values :: unchanged(m) && unchanged(m.requests) && m.requests != l.requests
      requires Linked(bound) && Linked(runList)
      ensures Wired()
      ensures Views() == old(Views())[l.id := l.View()]
    {}

    method AddList(cmdlist: CmdList)
      requires Valid() && cmdlist.id != 0 && cmdlist.id !in table && cmdlist.View() == FRESH_LIST
      requires forall m <- table.Values :: m.requests != cmdlist.requests
      modifies this`table
      ensures Valid() && table == old(table)[cmdlist.id := cmdlist] && View() == Create(old(View()), cmdlist.id)
    {
      hide Views, Sys.Closed, Wired;
      PointersLinked();
      ghost var s := View();
      assert s.lists.Keys == table.Keys by { KeysSame(); }
      table := table[cmdlist.id := cmdlist];
      NewList(cmdlist);
      assert View() == Create(s, cmdlist.id);
    }

    lemma KeysSame()
      ensures Views().Keys == table.Keys
    {}

    /** nngxBindCmdlist: find or make the list */
    method FindOrCreate(id: nat) returns (cmdlist: CmdList?)
      requires Valid()
      modifies this`table
      ensures Valid() && View() == Create(old(View()), id) && Linked(cmdlist) && bound == old(bound)
      ensures if id == 0 then cmdlist == null else cmdlist != null && cmdlist.id == id
      ensures bound != null ==> bound.View() == old(bound.View())
    {
      hide Views, Sys.Closed, Wired;
      PointersLinked();
      KeysSame();
      cmdlist := null;
      if id == 0 { return; }
      if id in table {
        EntryLinked(id);
        cmdlist := table[id];
      } else {
        cmdlist := new CmdList(id);
        NoList();
        AddList(cmdlist);
      }
    }

    /** The live cursor becomes the one saved in the list now bound. */
    method AttachNow(cmdlist: CmdList?)
      requires Valid() && Linked(cmdlist) && (cmdlist != null ==> cmdlist.id != 0)
      modifies this`bound, this`cursor
      ensures Valid() && View() == Attach(old(View()), if cmdlist == null then 0 else cmdlist.id)
    {
      hide Views, Sys.Closed, Wired;
      PointersLinked();
      ghost var s := View();
      if cmdlist != null { ViewsAt(cmdlist); }
      bound := cmdlist;
      cursor := if cmdlist == null then 0 else cmdlist.usedBuf;
      NoList();
      assert View() == Attach(s, if cmdlist == null then 0 else cmdlist.id);
    }

    /** nngxBindCmdlist: refused while a recording is open. */
    method BindCmdlist(id: nat, saving: bool)
      requires Valid()
      modifies this`table, this`bound, this`cursor, (if bound == null then {} else {bound})`usedBuf
      ensures Valid() && View() == if saving then old(View()) else Bind(old(View()), id)
    {
      hide Views, Sys.Closed, Create, SaveCursor, Attach, Wired;
      PointersLinked();
      if saving { return; }
      var cmdlist := FindOrCreate(id);
      SaveCursorNow();
      AttachNow(cmdlist);
    }
  }

  lemma OwnSizeIs(w: Work)
    ensures OwnSize(w) == if w.Render? && !w.ext then w.size else 0
  {}

  lemma FourWrites(c: nat, max: nat)
    ensures var d := WriteReg(WriteReg(WriteReg(c, max), max), max);
      WriteRegs(c, max, 3) == d && WriteRegs(c, max, 4) == WriteReg(d, max)
  {
    assert WriteRegs(WriteReg(c, max), max, 3) == WriteReg(WriteReg(WriteReg(WriteReg(c, max), max), max), max);
  }

  lemma IssueEndStep(l: List, i: nat, limit: nat)
    requires i < l.used <= |l.requests|
    ensures IssueEnd(l, i, limit) ==
      if i >= limit then i else if l.requests[i].stop then i + 1 else IssueEnd(l, i + 1, limit)
  {}

  lemma ExecutionsNone(id: nat, l: List, lo: nat)
    requires lo <= |l.requests|
    ensures Executions(id, l, lo, lo) == []
  {}

  lemma ExecutionsNext(id: nat, l: List, lo: nat, hi: nat)
    requires lo <= hi < |l.requests|
    ensures Executions(id, l, lo, hi + 1) == Executions(id, l, lo, hi) + [Executed(id, hi, l.requests[hi].work)]
  {}
}
