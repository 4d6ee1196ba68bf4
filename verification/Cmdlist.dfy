/** Command lists as values: what each entry point of systemmanager.c does to the lists,
    the run/stop flags and the hardware, as one atomic step (the source holds nngxlowLock). */
module Cmdlist {
  import opened Wrappers

  /** What a request asks of the hardware.  A render request covers `size` bytes of command
      words: of the list's own buffer, from byte `addr`, or (ext) of an external buffer. */
  datatype Work =
    | Empty
    | Render(addr: nat, size: nat, ext: bool)
    | Engine(code: int)   // DMA, memory fill, transfer or texture copy

  datatype Request = Request(work: Work, callback: bool, stop: bool)

  /** cl_list_t.  All sizes and offsets are in bytes. */
  datatype List = List(
    hasStorage: bool, maxBuf: nat, usedBuf: nat, runBuf: nat, lastSplit: nat,
    requests: seq<Request>, used: nat, issued: nat, run: nat,
    hasCallback: bool, lastCallback: bool)

  /** What an observer of the hardware and of the callbacks sees. */
  datatype Event =
    | Executed(list: nat, index: nat, work: Work)
    | CalledBack(list: nat, arg: nat)
    | Reset(list: nat)

  /** The parts of sys_manager_t that the run protocol uses, the command buffer cursor
      (a byte offset into the bound list's buffer), and the events so far. */
  datatype Sys = Sys(
    lists: map<nat, List>, bound: Option<nat>, cursor: nat, runList: Option<nat>,
    isRunning: bool, startRun: bool, stopSpeculative: bool, numSpeculative: nat, log: seq<Event>)
  {
    predicate Closed() {
      && (bound.Some? ==> bound.value in lists)
      && (runList.Some? ==> runList.value in lists)
      && forall id <- lists :: lists[id].run <= lists[id].issued <= lists[id].used <= |lists[id].requests|
    }

    function Put(id: nat, l: List): Sys { this.(lists := lists[id := l]) }

    function BoundMax(): nat
      requires Closed()
    {
      if bound.Some? then lists[bound.value].maxBuf else 0
    }
  }

  const FRESH_LIST := List(false, 0, 0, 0, 0, [], 0, 0, 0, false, false)

  const BLANK := Request(Empty, false, false)

  // ---------- issuing ----------

  /** How far the issue loop gets from request `i`: up to the last request added or to the
      speculation limit, and no further than the first request that carries a stop mark. */
  function IssueEnd(l: List, i: nat, limit: nat): (end: nat)
    requires i <= l.used <= |l.requests|
    ensures i <= end <= l.used && (i <= limit ==> end <= limit)
    ensures i < l.used && i < limit ==> i < end
    ensures forall k :: i <= k < end - 1 ==> !l.requests[k].stop
    ensures end == l.used || end >= limit || (end > i && l.requests[end - 1].stop)
    decreases l.used - i
  {
    if i < l.used && i < limit then
      if l.requests[i].stop then i + 1 else IssueEnd(l, i + 1, limit)
    else
      i
  }

  /** Requests [lo, hi) handed to the hardware in order. */
  function Executions(id: nat, l: List, lo: nat, hi: nat): seq<Event>
    requires lo <= hi <= |l.requests|
  {
    seq(hi - lo, i requires 0 <= i < hi - lo => Executed(id, lo + i, l.requests[lo + i].work))
  }

  /** sys_issueSpeculativeCommandRequests. */
  function Issue(s: Sys): (t: Sys)
    requires s.Closed() && s.runList.Some?
    ensures t.Closed() && t.numSpeculative == s.numSpeculative && t.lists.Keys == s.lists.Keys
  {
    if s.stopSpeculative then
      s
    else
      var id := s.runList.value;
      var l := s.lists[id];
      var end := IssueEnd(l, l.issued, l.run + s.numSpeculative);
      s.Put(id, l.(issued := end))
       .(stopSpeculative := end > l.issued && l.requests[end - 1].stop, log := s.log + Executions(id, l, l.issued, end))
  }

  lemma IssueMeans(s: Sys)
    requires s.Closed() && s.runList.Some?
    ensures var id := s.runList.value; var l := s.lists[id]; var end := IssueEnd(l, l.issued, l.run + s.numSpeculative);
      Issue(s) == if s.stopSpeculative then s else
        s.(lists := s.lists[id := l.(issued := end)], stopSpeculative := end > l.issued && l.requests[end - 1].stop,
           log := s.log + Executions(id, l, l.issued, end))
  {}

  // ---------- run and stop ----------

  /** sys_RunCmdlistCore on the bound list. */
  function Run(s: Sys): (t: Sys)
    requires s.Closed()
    ensures t.Closed() && t.numSpeculative == s.numSpeculative
  {
    if s.bound.None? || s.isRunning || !s.lists[s.bound.value].hasStorage then
      s
    else
      var l := s.lists[s.bound.value];
      var t := s.(runList := s.bound, startRun := true);
      if l.run < l.used then Issue(t.(isRunning := true)) else t.(isRunning := false)
  }

  /** nngxStopCmdlist.  While running there is a request in flight to mark (Inv). */
  function Stop(s: Sys): (t: Sys)
    requires s.Closed() && (s.isRunning && s.runList.Some? ==> s.lists[s.runList.value].issued > 0)
    ensures t.Closed() && t.numSpeculative == s.numSpeculative
  {
    if s.runList.None? then
      s
    else if s.isRunning then
      var id := s.runList.value;
      var l := s.lists[id];
      var k := l.issued - 1;
      s.Put(id, l.(requests := l.requests[k := l.requests[k].(stop := true)])).(stopSpeculative := true)
    else
      s.(startRun := false)
  }

  /** A stop mark on a request that has not been issued. */
  function MarkStop(s: Sys, id: nat, k: nat): (t: Sys)
    requires s.Closed() && id in s.lists && s.lists[id].issued <= k < |s.lists[id].requests|
    ensures t.Closed() && t.numSpeculative == s.numSpeculative
  {
    var l := s.lists[id];
    s.Put(id, l.(requests := l.requests[k := l.requests[k].(stop := true)]))
  }

  // ---------- adding requests ----------

  predicate Same(s: Sys, t: Sys) {
    t.Closed() && t.bound == s.bound && t.lists.Keys == s.lists.Keys && t.numSpeculative == s.numSpeculative
  }

  /** The locked tail of every producer: count the request, start the list if it is waiting. */
  function Commit(s: Sys, n: nat): (t: Sys)
    requires s.Closed() && s.bound.Some?
    requires var l := s.lists[s.bound.value]; l.used + n <= |l.requests|
    ensures Same(s, t) && t.cursor == s.cursor
    ensures t.lists[s.bound.value].used == s.lists[s.bound.value].used + n
    ensures t.lists[s.bound.value].requests == s.lists[s.bound.value].requests
  {
    Wake(Count(s, n))
  }

  function Count(s: Sys, n: nat): (t: Sys)
    requires s.Closed() && s.bound.Some?
    requires var l := s.lists[s.bound.value]; l.used + n <= |l.requests|
    ensures Same(s, t) && t.cursor == s.cursor
  {
    s.Put(s.bound.value, s.lists[s.bound.value].(used := s.lists[s.bound.value].used + n))
  }

  /** A started list that is not running is set going. */
  function Wake(s: Sys): (t: Sys)
    requires s.Closed() && s.bound.Some?
    ensures Same(s, t) && t.cursor == s.cursor
    ensures t.lists[s.bound.value].used == s.lists[s.bound.value].used
    ensures t.lists[s.bound.value].requests == s.lists[s.bound.value].requests
  {
    if s.bound == s.runList && s.startRun && !s.isRunning then Issue(s.(isRunning := true)) else s
  }

  function FillSlot(l: List, work: Work): List
    requires l.used < |l.requests|
  {
    l.(requests := l.requests[l.used := l.requests[l.used].(work := work)])
  }

  /** Write one request into the next slot and commit it. */
  function Produce(s: Sys, work: Work): (t: Sys)
    requires s.Closed() && s.bound.Some?
    requires var l := s.lists[s.bound.value]; l.used < |l.requests|
    ensures Same(s, t)
  {
    Commit(s.Put(s.bound.value, FillSlot(s.lists[s.bound.value], work)), 1)
  }

  /** DMA, fill, transfer and copy requests. */
  function Submit(s: Sys, code: int): (t: Sys)
    requires s.Closed()
    ensures t.Closed() && t.numSpeculative == s.numSpeculative
  {
    if s.bound.None? || s.lists[s.bound.value].used == |s.lists[s.bound.value].requests| then
      s
    else
      Produce(s, Engine(code))
  }

  /** The register-write macro moves the cursor by 8 bytes unless the buffer is full. */
  function WriteReg(cursor: nat, max: nat): nat { if cursor < max then cursor + 8 else cursor }

  function WriteRegs(cursor: nat, max: nat, n: nat): nat
    decreases n
  {
    if n == 0 then cursor else WriteRegs(WriteReg(cursor, max), max, n - 1)
  }

  /** Register writes that end a render request: one more to reach a 16-byte boundary. */
  function Closing(offset: nat): (n: nat)
    ensures n == 3 || n == 4
  {
    if offset / 8 % 2 == 1 then 3 else 4
  }

  predicate SplitFails(s: Sys)
    requires s.Closed()
  {
    s.bound.None? || var l := s.lists[s.bound.value];
      l.used == |l.requests| || l.maxBuf < s.cursor + 8 * Closing(s.cursor)
  }

  /** The bound list remembers where the cursor was. */
  function SaveCursor(s: Sys): (t: Sys)
    requires s.Closed()
    ensures Same(s, t) && t.cursor == s.cursor
  {
    if s.bound.Some? then s.Put(s.bound.value, s.lists[s.bound.value].(usedBuf := s.cursor)) else s
  }

  /** nngxSplitDrawCmdlist. */
  function Split(s: Sys): (t: Sys)
    requires s.Closed()
    ensures Same(s, t)
    ensures !SplitFails(s) ==> t.lists[s.bound.value].used == s.lists[s.bound.value].used + 1
    ensures !SplitFails(s) ==> |t.lists[s.bound.value].requests| == |s.lists[s.bound.value].requests|
  {
    if s.bound.None? || s.lists[s.bound.value].used == |s.lists[s.bound.value].requests| then
      s
    else if SplitFails(s) then
      SaveCursor(s)
    else
      Commit(CloseRender(SaveCursor(s)), 1)
  }

  /** Everything a successful split does before it takes the lock. */
  function CloseRender(s: Sys): (t: Sys)
    requires s.Closed() && !SplitFails(s)
    ensures Same(s, t)
    ensures t.lists[s.bound.value].used == s.lists[s.bound.value].used
    ensures |t.lists[s.bound.value].requests| == |s.lists[s.bound.value].requests|
  {
    var l := s.lists[s.bound.value];
    var end := s.cursor + 8 * Closing(s.cursor);
    var size := if end >= l.lastSplit then end - l.lastSplit else 0;
    s.Put(s.bound.value, FillSlot(l, Render(l.lastSplit, size, false)).(usedBuf := end, lastSplit := end))
     .(cursor := WriteRegs(s.cursor, l.maxBuf, Closing(s.cursor)))
  }

  /** nngxFlush3DCommand: a split, unless nothing is pending. */
  function Flush(s: Sys): (t: Sys)
    requires s.Closed()
    ensures t.Closed() && t.numSpeculative == s.numSpeculative
  {
    if s.bound.None? || s.lists[s.bound.value].used == |s.lists[s.bound.value].requests| then
      s
    else if s.lists[s.bound.value].lastSplit == s.cursor then
      SaveCursor(s)
    else
      Split(s)
  }

  /** nngxAdd3DCommand without copying: split what is pending, then add the external request.
      A split that fails leaves the request out. */
  function AddExternal(s: Sys, addr: nat, size: nat): (t: Sys)
    requires s.Closed()
    ensures t.Closed() && t.numSpeculative == s.numSpeculative
  {
    if s.bound.None? || size == 0 then
      s
    else
      var l := s.lists[s.bound.value].(usedBuf := s.cursor);
      var pending := l.lastSplit != s.cursor;
      var t := SaveCursor(s);
      if size % 16 != 0 || addr % 16 != 0 || l.used + (if pending then 2 else 1) > |l.requests| then
        t
      else if pending then
        AddAfterSplit(t, Render(addr, size, true))
      else
        Produce(t, Render(addr, size, true))
  }

  function AddAfterSplit(s: Sys, work: Work): (t: Sys)
    requires s.Closed() && s.bound.Some?
    requires var l := s.lists[s.bound.value]; l.used + 2 <= |l.requests|
    ensures t.Closed() && t.numSpeculative == s.numSpeculative
  {
    if SplitFails(s) then Split(s) else Produce(Split(s), work)
  }

  // ---------- completion ----------

  /** An interrupt can only arrive for a request in flight. */
  predicate InFlight(s: Sys)
    requires s.Closed()
  {
    s.runList.Some? && var l := s.lists[s.runList.value]; l.run < l.issued
  }

  /** The list once its oldest request in flight has run. */
  function RetiredList(l: List): List
    requires l.run < |l.requests|
  {
    l.(run := l.run + 1, runBuf := l.runBuf + OwnSize(l.requests[l.run].work))
  }

  predicate CallbackDue(l: List)
    requires l.run < |l.requests|
  {
    l.hasCallback && (l.requests[l.run].callback || (l.run + 1 == l.used && l.lastCallback))
  }

  /** Count the oldest request in flight as run. */
  function Retire(s: Sys): (t: Sys)
    requires s.Closed() && InFlight(s)
    ensures t.Closed() && t.numSpeculative == s.numSpeculative
  {
    s.Put(s.runList.value, RetiredList(s.lists[s.runList.value]))
  }

  /** After a request has been counted: a stop mark ends the run, else more is issued if there is any. */
  function Proceed(s: Sys, stop: bool): (t: Sys)
    requires s.Closed() && s.runList.Some?
    ensures t.Closed() && t.numSpeculative == s.numSpeculative
  {
    var l := s.lists[s.runList.value];
    if stop then
      s.(startRun := false, stopSpeculative := false, isRunning := false)
    else if l.run < l.used then
      Issue(s)
    else
      s.(isRunning := false)
  }

  /** The callback, if the list as it was before asks for one: last, outside the lock. */
  function Notify(s: Sys, id: nat, l: List): (t: Sys)
    requires s.Closed() && l.run < |l.requests|
    ensures t.Closed() && t == s.(log := t.log)
  {
    if CallbackDue(l) then s.(log := s.log + [CalledBack(id, l.run + 1)]) else s
  }

  /** sys_P3DCallback and its siblings: the oldest request in flight has finished. */
  function Interrupt(s: Sys): (t: Sys)
    requires s.Closed() && InFlight(s)
    ensures t.Closed() && t.numSpeculative == s.numSpeculative
  {
    var l := s.lists[s.runList.value];
    Notify(Proceed(Retire(s), l.requests[l.run].stop), s.runList.value, l)
  }

  /** Bytes of the list's own buffer that a request covers. */
  function OwnSize(w: Work): nat { if w.Render? && !w.ext then w.size else 0 }

  // ---------- lists ----------

  predicate Busy(s: Sys, id: nat) { s.runList == Some(id) && s.isRunning }

  /** An unknown id makes a new list. */
  function Create(s: Sys, id: nat): (t: Sys)
    requires s.Closed()
    ensures t.Closed() && t.numSpeculative == s.numSpeculative && t.bound == s.bound && (id == 0 || id in t.lists)
  {
    if id != 0 && id !in s.lists then s.Put(id, FRESH_LIST) else s
  }

  function Attach(s: Sys, id: nat): (t: Sys)
    requires s.Closed() && (id == 0 || id in s.lists)
    ensures t.Closed() && t.numSpeculative == s.numSpeculative
  {
    if id == 0 then s.(bound := None, cursor := 0) else s.(bound := Some(id), cursor := s.lists[id].usedBuf)
  }

  /** nngxBindCmdlist; id 0 unbinds. */
  function Bind(s: Sys, id: nat): (t: Sys)
    requires s.Closed()
    ensures t.Closed() && t.numSpeculative == s.numSpeculative
  {
    Attach(SaveCursor(Create(s, id)), id)
  }

  /** sys_ClearCmdlistCore: the requests in use are zeroed, marks beyond them stay. */
  function ClearedList(l: List): List
    requires l.used <= |l.requests|
  {
    l.(requests := seq(l.used, _ => BLANK) + l.requests[l.used..],
       usedBuf := 0, runBuf := 0, lastSplit := 0, used := 0, issued := 0, run := 0)
  }

  /** nngxClearCmdlist. */
  function Clear(s: Sys): (t: Sys)
    requires s.Closed()
    ensures t.Closed() && t.numSpeculative == s.numSpeculative
  {
    if s.bound.None? || !s.lists[s.bound.value].hasStorage || Busy(s, s.bound.value) then
      s
    else
      s.Put(s.bound.value, ClearedList(s.lists[s.bound.value])).(cursor := 0, log := s.log + [Reset(s.bound.value)])
  }

  /** nngxCmdlistStorage.  As in the source, last_split_offset keeps its old value. */
  function Storage(s: Sys, bufSize: nat, requestCount: nat): (t: Sys)
    requires s.Closed()
    ensures t.Closed() && t.numSpeculative == s.numSpeculative
  {
    if s.bound.None? || Busy(s, s.bound.value) then
      s
    else
      var l := s.lists[s.bound.value];
      s.Put(s.bound.value, List(true, bufSize, 0, 0, l.lastSplit, seq(requestCount, _ => BLANK), 0, 0, 0,
          l.hasCallback, l.lastCallback))
       .(cursor := 0, log := s.log + [Reset(s.bound.value)])
  }

  /** nngxDeleteCmdlists on one list. */
  function Delete(s: Sys, id: nat): (t: Sys)
    requires s.Closed()
    ensures t.Closed() && t.numSpeculative == s.numSpeculative
  {
    if id == 0 || id !in s.lists || Busy(s, id) then
      s
    else
      var t := if s.runList == Some(id) then s.(runList := None, startRun := false) else s;
      var u := if s.bound == Some(id) then t.(bound := None, cursor := 0) else t;
      u.(lists := u.lists - {id}, log := s.log + [Reset(id)])
  }
}
