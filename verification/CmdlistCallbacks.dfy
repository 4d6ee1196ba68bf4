/** When the callback of a list is called, and with what. */
module CmdlistCallbacks {
  import opened Cmdlist
  import opened CmdlistSafety
  import CmdlistLaws
  import opened CmdlistRuns
  import opened Wrappers

  /** What the callback of a list has been called with. */
  function Calls(log: seq<Event>, id: nat): seq<nat> {
    if log == [] then []
    else
      var before, e := Calls(log[..|log| - 1], id), log[|log| - 1];
      if e.CalledBack? && e.list == id then before + [e.arg] else before
  }

  /** Request k asks for the callback, by its own mark or as the last one of the list. */
  predicate Asks(l: List, k: nat)
    requires k < |l.requests|
  {
    l.hasCallback && (l.requests[k].callback || (k + 1 == l.used && l.lastCallback))
  }

  /** The numbers, counted from one, of the requests in [lo, hi) that ask for it. */
  function Asking(l: List, lo: nat, hi: nat): seq<nat>
    requires lo <= hi <= |l.requests|
    decreases hi
  {
    if lo == hi then [] else Asking(l, lo, hi - 1) + (if Asks(l, hi - 1) then [hi] else [])
  }

  /** Each of them once, in order, and no other. */
  lemma {:induction false} AskingExactly(l: List, lo: nat, hi: nat)
    requires lo <= hi <= |l.requests|
    ensures forall a: nat :: a in Asking(l, lo, hi) <==> lo < a <= hi && Asks(l, a - 1)
    ensures forall i, j :: 0 <= i < j < |Asking(l, lo, hi)| ==> Asking(l, lo, hi)[i] < Asking(l, lo, hi)[j]
    decreases hi
  {
    hide Asks;
    if lo < hi {
      AskingExactly(l, lo, hi - 1);
      var before := Asking(l, lo, hi - 1);
      forall i | 0 <= i < |before| ensures before[i] <= hi - 1 { assert before[i] in before; }
    }
  }

  lemma CallsSnoc(log: seq<Event>, e: Event, id: nat)
    ensures Calls(log + [e], id) == if e.CalledBack? && e.list == id then Calls(log, id) + [e.arg] else Calls(log, id)
  {
    assert (log + [e])[..|log|] == log;
  }

  lemma {:induction false} CallsExecutions(log: seq<Event>, es: seq<Event>, id: nat)
    requires forall i :: 0 <= i < |es| ==> es[i].Executed?
    ensures Calls(log + es, id) == Calls(log, id)
    decreases |es|
  {
    hide Calls;
    if es == [] {
      assert log + es == log;
    } else {
      var front, e := es[..|es| - 1], es[|es| - 1];
      assert log + es == (log + front) + [e];
      CallsSnoc(log + front, e, id);
      CallsExecutions(log, front, id);
    }
  }

  lemma ProceedCalls(s: Sys, stop: bool, id: nat)
    requires s.Closed() && s.runList.Some?
    ensures Calls(Proceed(s, stop).log, id) == Calls(s.log, id)
    ensures var t, r := Proceed(s, stop), s.runList.value;
      t.runList == s.runList && r in t.lists && t.lists[r] == s.lists[r].(issued := t.lists[r].issued)
  {
    hide Issue, Calls, IssueEnd;
    IssueMeans(s);
    var l := s.lists[s.runList.value];
    if !s.stopSpeculative {
      CallsExecutions(s.log, Executions(s.runList.value, l, l.issued, IssueEnd(l, l.issued, l.run + s.numSpeculative)), id);
    }
  }

  /** One interrupt: the request that finished is called back for exactly when it asks, with its number. */
  lemma InterruptCalls(s: Sys, id: nat)
    requires Inv(s) && InFlight(s)
    ensures var t, r := Cmdlist.Interrupt(s), s.runList.value; var l := s.lists[r];
      && Calls(t.log, id) == Calls(s.log, id) + (if id == r && Asks(l, l.run) then [l.run + 1] else [])
      && t.runList == s.runList && r in t.lists && t.lists[r].run == l.run + 1 && t.lists[r].requests == l.requests
      && t.lists[r].used == l.used && t.lists[r].hasCallback == l.hasCallback && t.lists[r].lastCallback == l.lastCallback
  {
    hide ListsOk, FlagsOk, Proceed, Retire, Calls;
    var r := s.runList.value;
    var l := s.lists[r];
    CmdlistLaws.RetireMeans(s);
    ProceedCalls(Retire(s), l.requests[l.run].stop, id);
    CallsSnoc(Proceed(Retire(s), l.requests[l.run].stop).log, CalledBack(r, l.run + 1), id);
  }

  /** Over any number of interrupts in a row the callback of the running list is called once for each
      request that asks, in order, and no other list's is. */
  lemma {:induction false} DrainCalls(s: Sys, steps: seq<Step>, t: Sys, id: nat)
    requires Inv(s) && s.runList.Some? && Runs(s, steps, t) && forall i :: 0 <= i < |steps| ==> steps[i].Interrupt?
    ensures var r := s.runList.value; var l := s.lists[r];
      && l.run + |steps| <= |l.requests|
      && Calls(t.log, id) == Calls(s.log, id) + (if id == r then Asking(l, l.run, l.run + |steps|) else [])
    decreases |steps|
  {
    hide Inv, Do, Enabled, Calls, Asking, Asks, Sys.Closed, InFlight, Cmdlist.Interrupt;
    CountsOf(s);
    AskingNone(s.lists[s.runList.value], s.lists[s.runList.value].run);
    if steps != [] {
      var r := s.runList.value;
      var l, u := s.lists[r], Do(s, steps[0]);
      DoInterrupts(s, steps[0]);
      InterruptCalls(s, id);
      DrainCalls(u, steps[1..], t, id);
      AskingMore(l, u.lists[r], l.run, l.run + |steps|);
      Reassociate(Calls(s.log, id), if Asks(l, l.run) then [l.run + 1] else [], Asking(u.lists[r], l.run + 1, l.run + |steps|));
    }
  }

  lemma Reassociate(a: seq<nat>, b: seq<nat>, c: seq<nat>)
    ensures (a + b) + c == a + (b + c) && a + [] == a
  {}

  lemma DoInterrupts(s: Sys, step: Step)
    requires Inv(s) && step.Interrupt? && Enabled(s, step)
    ensures s.Closed() && InFlight(s) && Do(s, step) == Cmdlist.Interrupt(s)
  {
    hide ListsOk, FlagsOk, Cmdlist.Interrupt;
  }

  lemma CountsOf(s: Sys)
    requires Inv(s)
    ensures s.Closed() && forall id <- s.lists :: s.lists[id].run <= |s.lists[id].requests|
  {}

  lemma AskingNone(l: List, k: nat)
    requires k <= |l.requests|
    ensures Asking(l, k, k) == []
  {}

  lemma {:induction false} AskingMore(l: List, m: List, lo: nat, hi: nat)
    requires lo < hi <= |l.requests| && m.requests == l.requests
    requires m.used == l.used && m.hasCallback == l.hasCallback && m.lastCallback == l.lastCallback
    ensures Asking(l, lo, hi) == (if Asks(l, lo) then [lo + 1] else []) + Asking(m, lo + 1, hi)
    decreases hi
  {
    if lo + 1 < hi { AskingMore(l, m, lo, hi - 1); }
  }
}
