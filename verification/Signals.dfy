/**
 The signals that tasks receive over whole runs of the scheduler: one start at most, one terminal
 signal when a task leaves, and at most one task started and not terminated at any time.
 */
module Signals {
  import opened Scheduler

  ghost predicate HasTerm(log: seq<Signal>, u: nat) {
    exists i :: 0 <= i < |log| && log[i].uid == u && log[i].kind != Start
  }

  ghost predicate HasStart(log: seq<Signal>, u: nat) {
    exists i :: 0 <= i < |log| && log[i] == Signal(u, Start)
  }

  /** Two signals of one task are its start and then its terminal signal, so there are never three. */
  ghost predicate OnceEach(log: seq<Signal>) {
    forall i, j :: 0 <= i < j < |log| && log[i].uid == log[j].uid ==> log[i].kind == Start && log[j].kind != Start
  }

  /** Between the starts of two tasks the first one has been terminated. */
  ghost predicate OneActive(log: seq<Signal>) {
    forall i, j :: 0 <= i < j < |log| && log[i].kind == Start && log[j].kind == Start ==>
      HasTerm(log[i..j], log[i].uid)
  }

  ghost predicate LogOk(log: seq<Signal>) {
    OnceEach(log) && OneActive(log)
  }

  ghost predicate InRun(run: seq<Task>, u: nat) {
    exists i :: 0 <= i < |run| && run[i].uid == u
  }

  ghost predicate DistinctUids(run: seq<Task>) {
    forall i, j :: 0 <= i < j < |run| ==> run[i].uid != run[j].uid
  }

  ghost predicate UidsOk(run: seq<Task>, next: nat) {
    DistinctUids(run) && forall i :: 0 <= i < |run| ==> run[i].uid < next && run[i].status != Timeout
  }

  ghost predicate LogBelow(log: seq<Signal>, next: nat) {
    forall i :: 0 <= i < |log| ==> log[i].uid < next
  }

  /** A listed task has no terminal signal, and a start signal exactly when it is running. */
  ghost predicate Matched(run: seq<Task>, log: seq<Signal>) {
    forall i :: 0 <= i < |run| ==> !HasTerm(log, run[i].uid) && (HasStart(log, run[i].uid) <==> run[i].running)
  }

  /** Every task inserted so far is listed or terminated. */
  ghost predicate Accounted(run: seq<Task>, log: seq<Signal>, next: nat) {
    forall u :: 0 <= u < next ==> InRun(run, u) || HasTerm(log, u)
  }

  /** How the log and the list fit together. */
  ghost predicate Fits(run: seq<Task>, log: seq<Signal>, next: nat) {
    UidsOk(run, next) && LogBelow(log, next) && Matched(run, log) && Accounted(run, log, next)
  }

  ghost predicate SchedInv(s: State) {
    OrderInv(s.run) && Fits(s.run, s.log, s.next) && LogOk(s.log) && (s.run != [] ==> s.armed)
  }

  // ----- one more signal

  lemma TermAppend(log: seq<Signal>, x: Signal, u: nat)
    ensures HasTerm(log + [x], u) <==> HasTerm(log, u) || (x.uid == u && x.kind != Start)
    ensures HasStart(log + [x], u) <==> HasStart(log, u) || x == Signal(u, Start)
  {
    var log' := log + [x];
    assert log'[|log|] == x;
    if i :| 0 <= i < |log| && log[i].uid == u && log[i].kind != Start {
      assert log'[i] == log[i];
    }
    if i :| 0 <= i < |log| && log[i] == Signal(u, Start) {
      assert log'[i] == log[i];
    }
  }

  lemma TerminalOk(log: seq<Signal>, x: Signal)
    requires LogOk(log) && x.kind != Start && !HasTerm(log, x.uid)
    ensures LogOk(log + [x])
  {
    var log' := log + [x];
    forall i, j | 0 <= i < j < |log'| && log'[i].kind == Start && log'[j].kind == Start
      ensures HasTerm(log'[i..j], log'[i].uid)
    {
      assert log'[i..j] == log[i..j];
    }
  }

  lemma StartOk(log: seq<Signal>, u: nat)
    requires LogOk(log) && !HasTerm(log, u) && !HasStart(log, u)
    requires forall i :: 0 <= i < |log| && log[i].kind == Start ==> HasTerm(log, log[i].uid)
    ensures LogOk(log + [Signal(u, Start)])
  {
    var log' := log + [Signal(u, Start)];
    forall i, j | 0 <= i < j < |log'| && log'[i].kind == Start && log'[j].kind == Start
      ensures HasTerm(log'[i..j], log'[i].uid)
    {
      assert log'[i..j] == log[i..j];
      if j == |log| {
        var k :| 0 <= k < |log| && log[k].uid == log[i].uid && log[k].kind != Start;
        assert k > i;
        assert log[i..][k - i] == log[k];
      }
    }
  }

  // ----- the timer step

  ghost predicate LeavesIn(ts: seq<Task>, now: nat, u: nat) {
    exists k :: 0 <= k < |ts| && ts[k].uid == u && Leaves(ts[k], now)
  }

  lemma LeavesInLast(ts: seq<Task>, now: nat, u: nat)
    requires ts != []
    ensures var n := |ts| - 1;
      LeavesIn(ts, now, u) <==> LeavesIn(ts[..n], now, u) || (ts[n].uid == u && Leaves(ts[n], now))
  {
    hide Leaves;
    var n := |ts| - 1;
    if k :| 0 <= k < n && ts[..n][k].uid == u && Leaves(ts[..n][k], now) {
      assert ts[k].uid == u && Leaves(ts[k], now);
    }
    if k :| 0 <= k < |ts| && ts[k].uid == u && Leaves(ts[k], now) {
      assert k < n ==> ts[..n][k] == ts[k];
    }
  }

  lemma {:induction false} LeavingUids(ts: seq<Task>, now: nat, u: nat)
    ensures InRun(Leaving(ts, now), u) <==> LeavesIn(ts, now, u)
  {
    if ts != [] {
      hide Leaves, InRun, LeavesIn;
      var n := |ts| - 1;
      var rest := Leaving(ts[..n], now);
      LeavingUids(ts[..n], now, u);
      LeavesInLast(ts, now, u);
      InRunPrepend(Marked(ts[n]), rest);
      if Leaves(ts[n], now) {
        assert Leaving(ts, now) == [Marked(ts[n])] + rest;
      } else {
        assert Leaving(ts, now) == [] + rest == rest;
      }
    }
  }

  lemma {:induction false} LeavingDistinct(ts: seq<Task>, now: nat)
    requires DistinctUids(ts) && forall i :: 0 <= i < |ts| ==> ts[i].status != Timeout
    ensures DistinctUids(Leaving(ts, now))
    ensures forall i :: 0 <= i < |Leaving(ts, now)| ==> Leaving(ts, now)[i].status != Init
  {
    hide Leaves;
    if ts != [] {
      var n := |ts| - 1;
      LeavingDistinct(ts[..n], now);
      var rest := Leaving(ts[..n], now);
      forall i | 0 <= i < |rest|
        ensures rest[i].uid != ts[n].uid
      {
        assert InRun(rest, rest[i].uid);
        LeavingUids(ts[..n], now, rest[i].uid);
        var k :| 0 <= k < n && ts[..n][k].uid == rest[i].uid;
        assert ts[k].uid == rest[i].uid;
      }
      DistinctPrepend(Marked(ts[n]), rest);
    }
  }

  lemma DistinctPrepend(x: Task, ts: seq<Task>)
    requires DistinctUids(ts) && forall i :: 0 <= i < |ts| ==> ts[i].uid != x.uid
    ensures DistinctUids([x] + ts)
  {
  }

  lemma InRunPrepend(x: Task, ts: seq<Task>)
    ensures forall u :: InRun([x] + ts, u) <==> x.uid == u || InRun(ts, u)
  {
    forall u
      ensures InRun([x] + ts, u) <==> x.uid == u || InRun(ts, u)
    {
      var all := [x] + ts;
      assert all[0] == x;
      if i :| 0 <= i < |ts| && ts[i].uid == u {
        assert all[i + 1].uid == u;
      }
    }
  }

  lemma InRunFirst(ts: seq<Task>, u: nat)
    requires ts != []
    ensures InRun(ts, u) <==> ts[0].uid == u || InRun(ts[1..], u)
  {
    hide InRun;
    InRunPrepend(ts[0], ts[1..]);
    assert ts == [ts[0]] + ts[1..];
  }

  function TerminalOf(t: Task): Signal {
    Signal(t.uid, if t.status == Timeout then TimedOut else Released)
  }

  lemma TerminalsStep(log: seq<Signal>, del: seq<Task>)
    requires del != [] && del[0].status != Init
    ensures log + Terminals(del) == log + [TerminalOf(del[0])] + Terminals(del[1..])
  {
    var x, rest := TerminalOf(del[0]), Terminals(del[1..]);
    assert Terminals(del) == [x] + rest;
    assert log + ([x] + rest) == log + [x] + rest;
  }

  /** Every task of the delete list gets a terminal signal, and no other task gets any. */
  lemma {:induction false} TerminalsReach(log: seq<Signal>, del: seq<Task>, u: nat)
    requires forall i :: 0 <= i < |del| ==> del[i].status != Init
    ensures var log' := log + Terminals(del);
      (HasTerm(log', u) <==> HasTerm(log, u) || InRun(del, u)) && (HasStart(log', u) <==> HasStart(log, u))
    decreases del
  {
    if del == [] {
      assert log + Terminals(del) == log;
    } else {
      hide HasTerm, HasStart, InRun, Terminals;
      TerminalsStep(log, del);
      TermAppend(log, TerminalOf(del[0]), u);
      TerminalsReach(log + [TerminalOf(del[0])], del[1..], u);
      InRunFirst(del, u);
    }
  }

  lemma {:induction false} TerminalsOk(log: seq<Signal>, del: seq<Task>, next: nat)
    requires LogOk(log) && DistinctUids(del) && forall i :: 0 <= i < |log| ==> log[i].uid < next
    requires forall i :: 0 <= i < |del| ==> del[i].status != Init && !HasTerm(log, del[i].uid) && del[i].uid < next
    ensures var log' := log + Terminals(del); LogOk(log') && forall i :: 0 <= i < |log'| ==> log'[i].uid < next
    decreases del
  {
    if del == [] {
      assert log + Terminals(del) == log;
    } else {
      hide LogOk, HasTerm, Terminals;
      var x, rest := TerminalOf(del[0]), del[1..];
      TerminalsStep(log, del);
      TerminalOk(log, x);
      forall i | 0 <= i < |rest|
        ensures !HasTerm(log + [x], rest[i].uid)
      {
        assert rest[i] == del[i + 1];
        TermAppend(log, x, rest[i].uid);
      }
      TerminalsOk(log + [x], rest, next);
    }
  }

  /** The kind of the terminal signal: released when the task had been deleted, timed out otherwise. */
  lemma {:induction false} TerminalKinds(ts: seq<Task>, now: nat, k: nat)
    requires k < |ts| && Leaves(ts[k], now) && ts[k].status != Timeout
    ensures Signal(ts[k].uid, if ts[k].status == Release then Released else TimedOut) in Terminals(Leaving(ts, now))
    decreases ts
  {
    hide Leaves;
    var n := |ts| - 1;
    var rest := Leaving(ts[..n], now);
    if k < n {
      TerminalKinds(ts[..n], now, k);
      if Leaves(ts[n], now) {
        TerminalsMore(Marked(ts[n]), rest);
      } else {
        assert Leaving(ts, now) == rest;
      }
    } else {
      TerminalsMore(Marked(ts[n]), rest);
    }
  }

  lemma TerminalsMore(x: Task, del: seq<Task>)
    ensures forall g :: g in Terminals(del) ==> g in Terminals([x] + del)
    ensures x.status != Init ==> TerminalOf(x) in Terminals([x] + del)
  {
    assert ([x] + del)[1..] == del;
  }

  /** A task that leaves in a timer step is told why in that step. */
  lemma LeaverIsTold(s: State, now: nat, k: nat)
    requires SchedInv(s) && k < |s.run| && Leaves(s.run[k], now)
    ensures var kind := if s.run[k].status == Release then Released else TimedOut;
      Signal(s.run[k].uid, kind) in Ticked(s, now).log[|s.log|..]
  {
    hide Leaves, Leaving, Terminals, Staying;
    TerminalKinds(s.run, now, k);
    var log := s.log + Terminals(Leaving(s.run, now));
    assert log[|s.log|..] == Terminals(Leaving(s.run, now));
    assert log <= Ticked(s, now).log;
  }

  lemma {:induction false} StayingDistinct(ts: seq<Task>, now: nat)
    requires DistinctUids(ts)
    ensures DistinctUids(Staying(ts, now))
  {
    hide Leaves;
    if ts != [] {
      var n := |ts| - 1;
      StayingDistinct(ts[..n], now);
      var rest := Staying(ts[..n], now);
      forall i | 0 <= i < |rest|
        ensures rest[i].uid != ts[n].uid
      {
        StayingIs(ts[..n], now, rest[i]);
        var k :| 0 <= k < n && ts[..n][k] == rest[i];
        assert ts[k] == rest[i];
      }
    }
  }

  lemma StayNotLeaving(run: seq<Task>, now: nat, x: Task)
    requires DistinctUids(run) && x in Staying(run, now)
    ensures x in run && !InRun(Leaving(run, now), x.uid)
  {
    hide Leaves, Leaving, Staying;
    StayingIs(run, now, x);
    LeavingUids(run, now, x.uid);
  }

  lemma LeaveOrStay(run: seq<Task>, now: nat, u: nat)
    requires InRun(run, u)
    ensures InRun(Staying(run, now), u) || InRun(Leaving(run, now), u)
  {
    hide Leaves, Leaving, Staying;
    var k :| 0 <= k < |run| && run[k].uid == u;
    StayingIs(run, now, run[k]);
    LeavingUids(run, now, u);
  }

  lemma LeavingListed(run: seq<Task>, now: nat, x: Task)
    requires x in Leaving(run, now)
    ensures exists k :: 0 <= k < |run| && run[k].uid == x.uid
  {
    hide Leaves, Leaving;
    LeavingUids(run, now, x.uid);
  }

  /** After the leaving tasks are gone and signalled, list and log fit again. */
  lemma LeaveFits(run: seq<Task>, log: seq<Signal>, next: nat, now: nat)
    requires Fits(run, log, next) && LogOk(log)
    ensures var log' := log + Terminals(Leaving(run, now)); Fits(Staying(run, now), log', next) && LogOk(log')
  {
    hide Leaves, LogOk, HasStart, HasTerm, InRun, Leaving, Staying, Terminals;
    var del, stay := Leaving(run, now), Staying(run, now);
    var log' := log + Terminals(del);
    LeavingDistinct(run, now);
    StayingDistinct(run, now);
    forall i | 0 <= i < |del|
      ensures !HasTerm(log, del[i].uid) && del[i].uid < next
    {
      LeavingListed(run, now, del[i]);
    }
    TerminalsOk(log, del, next);
    forall u: nat
      ensures (HasTerm(log', u) <==> HasTerm(log, u) || InRun(del, u)) && (HasStart(log', u) <==> HasStart(log, u))
    {
      TerminalsReach(log, del, u);
    }
    forall i | 0 <= i < |stay|
      ensures stay[i] in run && !HasTerm(log', stay[i].uid)
    {
      StayNotLeaving(run, now, stay[i]);
    }
    forall u | 0 <= u < next
      ensures InRun(stay, u) || HasTerm(log', u)
    {
      if InRun(run, u) {
        LeaveOrStay(run, now, u);
      }
    }
  }

  /** Starting the head when no task is running. */
  lemma StartFits(run: seq<Task>, log: seq<Signal>, next: nat)
    requires Fits(run, log, next) && LogOk(log) && run != [] && forall i :: 0 <= i < |run| ==> !run[i].running
    ensures var log' := log + [Signal(run[0].uid, Start)]; Fits(StartHead(run), log', next) && LogOk(log')
  {
    hide LogOk, HasStart, HasTerm, InRun, StartHead;
    var u, run' := run[0].uid, StartHead(run);
    var log' := log + [Signal(u, Start)];
    NoneActive(run, log, next);
    StartOk(log, u);
    StartHeadAt(run);
    assert UidsOk(run', next);
    assert LogBelow(log', next);
    StartMatched(run, log);
    forall v | 0 <= v < next
      ensures InRun(run', v) || HasTerm(log', v)
    {
      StartHeadHas(run, v);
      TermAppend(log, Signal(u, Start), v);
    }
  }

  lemma StartHeadAt(run: seq<Task>)
    requires run != []
    ensures var run' := StartHead(run);
      |run'| == |run| && run'[0] == run[0].(running := true) && forall i :: 1 <= i < |run| ==> run'[i] == run[i]
  {
  }

  lemma StartMatched(run: seq<Task>, log: seq<Signal>)
    requires run != [] && Matched(run, log) && DistinctUids(run)
    ensures Matched(StartHead(run), log + [Signal(run[0].uid, Start)])
  {
    hide HasStart, HasTerm, StartHead;
    StartHeadAt(run);
    var run', log' := StartHead(run), log + [Signal(run[0].uid, Start)];
    forall i | 0 <= i < |run'|
      ensures !HasTerm(log', run'[i].uid) && (HasStart(log', run'[i].uid) <==> run'[i].running)
    {
      TermAppend(log, Signal(run[0].uid, Start), run[i].uid);
    }
  }

  lemma StartHeadHas(run: seq<Task>, v: nat)
    ensures InRun(run, v) ==> InRun(StartHead(run), v)
  {
    if k :| 0 <= k < |run| && run[k].uid == v {
      assert StartHead(run)[k].uid == v;
    }
  }

  /** With no task of the list running, every start seen so far has been followed by a terminal signal. */
  lemma NoneActive(run: seq<Task>, log: seq<Signal>, next: nat)
    requires Fits(run, log, next) && forall i :: 0 <= i < |run| ==> !run[i].running
    ensures forall i :: 0 <= i < |log| && log[i].kind == Start ==> HasTerm(log, log[i].uid)
  {
    hide HasStart, HasTerm;
    forall i | 0 <= i < |log| && log[i].kind == Start
      ensures HasTerm(log, log[i].uid)
    {
      StartSeen(log, i);
    }
  }

  lemma StartSeen(log: seq<Signal>, i: nat)
    requires i < |log| && log[i].kind == Start
    ensures HasStart(log, log[i].uid)
  {
    assert log[i] == Signal(log[i].uid, Start);
  }

  /** Behind the head, all that stay are waiting. */
  lemma RestWaits(run: seq<Task>, now: nat)
    requires OrderInv(run) && Staying(run, now) != []
    ensures forall i :: 1 <= i < |Staying(run, now)| ==> Waiting(Staying(run, now)[i])
  {
    if run != [] {
      hide Leaves, Staying, Waiting, Before;
      var stay := Staying(run[1..], now);
      StayingHead(run, now);
      StayingSorted(run[1..], now);
      assert forall x :: x in stay ==> Waiting(x);
      assert forall i :: 1 <= i < |Staying(run, now)| ==> Staying(run, now)[i] in stay;
    }
  }

  lemma TickKeeps(s: State, now: nat)
    requires SchedInv(s)
    ensures SchedInv(Ticked(s, now))
  {
    hide Leaves, LogOk, HasStart, HasTerm, Fits, Leaving, Terminals, Staying, OrderInv;
    TickKeepsOrder(s, now);
    LeaveFits(s.run, s.log, s.next, now);
    TickedRun(s, now);
    var m, log := Staying(s.run, now), s.log + Terminals(Leaving(s.run, now));
    if m != [] && !m[0].running {
      RestWaits(s.run, now);
      StartFits(m, log, s.next);
    } else if m != [] {
      assert StartHead(m) == m;
    }
  }

  lemma InsertKeeps(s: State, prio: int, id: int, timeout: nat, frametime: nat)
    requires SchedInv(s)
    ensures SchedInv(Inserted(s, prio, id, timeout, frametime))
  {
    hide LogOk, OrderInv, Fits, Spliced, InsertAt;
    assert forall i :: 0 <= i < |s.run| ==> s.run[i].uid < s.next by {
      UidsBelow(s.run, s.log, s.next);
    }
    InsertKeepsOrder(s, prio, id, timeout, frametime);
    var k, x := InsertAt(s.run, prio), NewTask(s, prio, id, timeout, frametime);
    InsertFits(s.run, s.log, s.next, k, x);
  }

  lemma UidsBelow(run: seq<Task>, log: seq<Signal>, next: nat)
    requires Fits(run, log, next)
    ensures forall i :: 0 <= i < |run| ==> run[i].uid < next
  {
  }

  lemma NextUnused(log: seq<Signal>, next: nat)
    requires forall i :: 0 <= i < |log| ==> log[i].uid < next
    ensures !HasTerm(log, next) && !HasStart(log, next)
  {
  }

  lemma InsertFits(run: seq<Task>, log: seq<Signal>, next: nat, k: nat, x: Task)
    requires Fits(run, log, next) && k <= |run| && x.uid == next && x.status == Init && !x.running
    ensures Fits(Spliced(run, k, x), log, next + 1)
  {
    hide HasStart, HasTerm, Spliced, InRun;
    SplicedAt(run, k, x);
    var run' := Spliced(run, k, x);
    assert UidsOk(run', next + 1) by {
      SplicedUids(run, k, x, next);
    }
    assert Matched(run', log) by {
      NextUnused(log, next);
    }
    forall u | 0 <= u < next + 1
      ensures InRun(run', u) || HasTerm(log, u)
    {
      SplicedHas(run, k, x, u);
    }
  }

  lemma SplicedUids(run: seq<Task>, k: nat, x: Task, next: nat)
    requires UidsOk(run, next) && k <= |run| && x.uid == next && x.status == Init
    ensures UidsOk(Spliced(run, k, x), next + 1)
  {
    hide Spliced;
    SplicedAt(run, k, x);
  }

  lemma SplicedHas(run: seq<Task>, k: nat, x: Task, u: nat)
    requires k <= |run|
    ensures InRun(run, u) || x.uid == u ==> InRun(Spliced(run, k, x), u)
  {
    hide Spliced;
    SplicedAt(run, k, x);
    var run' := Spliced(run, k, x);
    if x.uid == u {
      assert run'[k].uid == u;
    } else if i :| 0 <= i < |run| && run[i].uid == u {
      assert run'[if i < k then i else i + 1].uid == u;
    }
  }

  lemma DeleteKeeps(s: State, id: int)
    requires SchedInv(s)
    ensures SchedInv(Deleted(s, id))
  {
    hide LogOk, OrderInv, HasTerm, HasStart;
    DeleteKeepsOrder(s, id);
    var k := FindTask(s.run, id);
    if k < |s.run| {
      var run' := s.run[k := s.run[k].(status := Release)];
      forall u | 0 <= u < s.next && InRun(s.run, u)
        ensures InRun(run', u)
      {
        var i :| 0 <= i < |s.run| && s.run[i].uid == u;
        assert run'[i].uid == u;
      }
    }
  }

  /** The invariant in every reachable state. */
  lemma {:induction false} RunKeeps(ops: seq<Op>)
    ensures SchedInv(Run(ops))
  {
    hide SchedInv, Inserted, Deleted, Ticked;
    if ops == [] {
      EmptyKeeps();
    } else {
      var n := |ops| - 1;
      RunKeeps(ops[..n]);
      match ops[n]
      case Insert(prio, id, timeout, frametime) => InsertKeeps(Run(ops[..n]), prio, id, timeout, frametime);
      case Del(id) => DeleteKeeps(Run(ops[..n]), id);
      case Tick(now) => TickKeeps(Run(ops[..n]), now);
    }
  }

  lemma EmptyKeeps()
    ensures SchedInv(EMPTY)
  {
  }

  // ----- what the invariant says about whole runs

  /** Tasks started and not terminated by the first n signals. */
  ghost predicate ActiveAt(log: seq<Signal>, n: nat, u: nat)
    requires n <= |log|
  {
    HasStart(log[..n], u) && !HasTerm(log[..n], u)
  }

  /** At no point of any run are two tasks started and not yet terminated. */
  lemma AtMostOneActive(ops: seq<Op>, n: nat, u: nat, u': nat)
    requires n <= |Run(ops).log| && ActiveAt(Run(ops).log, n, u) && ActiveAt(Run(ops).log, n, u')
    ensures u == u'
  {
    hide Run;
    RunKeeps(ops);
    var log := Run(ops).log;
    var i :| 0 <= i < n && log[..n][i] == Signal(u, Start);
    var j :| 0 <= j < n && log[..n][j] == Signal(u', Start);
    if i < j {
      PrefixTerm(log, i, j, n, u);
    } else if j < i {
      PrefixTerm(log, j, i, n, u');
    }
  }

  lemma PrefixTerm(log: seq<Signal>, i: nat, j: nat, n: nat, u: nat)
    requires LogOk(log) && i < j < n <= |log| && log[i] == Signal(u, Start) && log[j].kind == Start
    ensures HasTerm(log[..n], u)
  {
    assert HasTerm(log[i..j], u);
    var k :| 0 <= k < j - i && log[i..j][k].uid == u && log[i..j][k].kind != Start;
    assert log[..n][i + k] == log[i..j][k];
  }

  /** A task that was inserted and is no longer in the list got exactly one terminal signal, and nothing after it. */
  lemma LeftTasksSignalled(ops: seq<Op>, u: nat) returns (k: nat)
    requires u < Run(ops).next && !InRun(Run(ops).run, u)
    ensures var log := Run(ops).log;
      k < |log| && log[k].uid == u && log[k].kind != Start &&
      (forall j :: 0 <= j < |log| && j != k && log[j].uid == u ==> j < k && log[j].kind == Start)
  {
    hide Run;
    RunKeeps(ops);
    var log := Run(ops).log;
    k :| 0 <= k < |log| && log[k].uid == u && log[k].kind != Start;
  }

  /** A task in the list has no terminal signal yet, and its start signal if and only if it is running. */
  lemma ListedTasksSignalled(ops: seq<Op>, i: nat)
    requires i < |Run(ops).run|
    ensures var s := Run(ops);
      && !HasTerm(s.log, s.run[i].uid) && (HasStart(s.log, s.run[i].uid) <==> s.run[i].running)
      && (i > 0 ==> Waiting(s.run[i]))
  {
    hide Run;
    RunKeeps(ops);
    var s := Run(ops);
    assert i > 0 ==> s.run[1..][i - 1] == s.run[i];
  }

  // ----- the head is never overtaken

  ghost predicate IsHead(run: seq<Task>, u: nat) {
    run != [] && run[0].uid == u
  }

  /** The tasks in the list after a timer step were in the list before it. */
  lemma TickedFrom(s: State, now: nat, i: nat)
    requires i < |Ticked(s, now).run|
    ensures InRun(s.run, Ticked(s, now).run[i].uid)
    ensures exists k :: 0 <= k < |s.run| && s.run[k].uid == Ticked(s, now).run[i].uid && !Leaves(s.run[k], now)
  {
    hide Leaves, Staying, Ticked;
    TickedRun(s, now);
    var m := Staying(s.run, now);
    StayingIs(s.run, now, m[i]);
    assert Ticked(s, now).run[i].uid == m[i].uid;
    var k :| 0 <= k < |s.run| && s.run[k] == m[i];
  }

  /** A task that is no longer in the list does not come back. */
  lemma StaysOut(s: State, op: Op, u: nat)
    requires SchedInv(s) && u < s.next && !InRun(s.run, u)
    ensures u < Step(s, op).next && !InRun(Step(s, op).run, u)
  {
    match op
    case Insert(prio, id, timeout, frametime) =>
      hide Spliced;
      SplicedAt(s.run, InsertAt(s.run, prio), NewTask(s, prio, id, timeout, frametime));
    case Del(id) =>
    case Tick(now) =>
      hide Ticked, InRun;
      NextGrows(s, op);
      if InRun(Ticked(s, now).run, u) {
        var i := Position(Ticked(s, now).run, u);
        TickedFrom(s, now, i);
      }
  }

  lemma Position(run: seq<Task>, u: nat) returns (i: nat)
    requires InRun(run, u)
    ensures i < |run| && run[i].uid == u
  {
    i :| 0 <= i < |run| && run[i].uid == u;
  }

  /** One step leaves the head where it is as long as it stays in the list. */
  lemma HeadStep(s: State, op: Op, u: nat)
    requires SchedInv(s) && IsHead(s.run, u) && InRun(Step(s, op).run, u)
    ensures IsHead(Step(s, op).run, u)
  {
    match op
    case Insert(prio, id, timeout, frametime) => InsertKeepsOrder(s, prio, id, timeout, frametime);
    case Del(id) =>
    case Tick(now) =>
      hide Ticked, Leaves, LogOk, OrderInv;
      var i := Position(Ticked(s, now).run, u);
      TickedFrom(s, now, i);
      HeadStays(s, now);
  }

  /** Once a task is in the list its insertion number stays below the next one. */
  lemma {:induction false} NumberTaken(ops: seq<Op>, more: seq<Op>, u: nat)
    requires IsHead(Run(ops).run, u)
    ensures u < Run(ops + more).next
    decreases |more|
  {
    hide SchedInv, Step, IsHead;
    if more == [] {
      assert ops + more == ops;
      RunKeeps(ops);
      HeadNumber(Run(ops), u);
    } else {
      var n := |more| - 1;
      var mid := ops + more[..n];
      assert (ops + more)[..|mid|] == mid && (ops + more)[|mid|] == more[n];
      NumberTaken(ops, more[..n], u);
      NextGrows(Run(mid), more[n]);
    }
  }

  lemma HeadNumber(s: State, u: nat)
    requires SchedInv(s) && IsHead(s.run, u)
    ensures u < s.next
  {
    hide OrderInv, LogOk;
  }

  lemma NextGrows(s: State, op: Op)
    ensures s.next <= Step(s, op).next
  {
  }

  /**
   Whatever is inserted, deleted or timed later, and whatever its priority: the task at the head after some
   run is the head after every longer run in which it is still in the list.
   */
  lemma {:induction false} HeadUntilLeaves(ops: seq<Op>, more: seq<Op>, u: nat)
    requires IsHead(Run(ops).run, u) && InRun(Run(ops + more).run, u)
    ensures IsHead(Run(ops + more).run, u)
    decreases |more|
  {
    hide SchedInv, Step, InRun, IsHead;
    if more == [] {
      assert ops + more == ops;
    } else {
      var n := |more| - 1;
      var mid := ops + more[..n];
      assert (ops + more)[..|mid|] == mid && (ops + more)[|mid|] == more[n];
      RunKeeps(mid);
      NumberTaken(ops, more[..n], u);
      if InRun(Run(mid).run, u) {
        HeadUntilLeaves(ops, more[..n], u);
        HeadStep(Run(mid), more[n], u);
      } else {
        StaysOut(Run(mid), more[n], u);
        assert false;
      }
    }
  }

  // ----- who leaves

  /** The timeout lies in the past, on a 64-bit counter that wraps. */
  predicate Overdue(t: Task, now: nat) {
    0 < (now - t.timeout) % 0x1_0000_0000_0000_0000 <= 0x8000_0000_0000_0000
  }

  /** A listed task is still listed after a timer step if and only if it is neither released nor overdue. */
  lemma StaysExact(s: State, now: nat, k: nat)
    requires SchedInv(s) && k < |s.run|
    ensures InRun(Ticked(s, now).run, s.run[k].uid) <==> s.run[k].status != Release && !Overdue(s.run[k], now)
  {
    var t := s.run[k];
    TimeAfterMeans(now, t.timeout);
    assert Leaves(t, now) <==> t.status == Release || Overdue(t, now);
    hide Leaves, Overdue, TimeAfter, Ticked, LogOk, OrderInv;
    if Leaves(t, now) {
      if InRun(Ticked(s, now).run, t.uid) {
        var i := Position(Ticked(s, now).run, t.uid);
        TickedFrom(s, now, i);
        assert false;
      }
    } else {
      TickedRun(s, now);
      StayingIs(s.run, now, t);
      ListedIn(Staying(s.run, now), t);
      StartHeadHas(Staying(s.run, now), t.uid);
    }
  }

  lemma ListedIn(ts: seq<Task>, t: Task)
    requires t in ts
    ensures InRun(ts, t.uid)
  {
    var i :| 0 <= i < |ts| && ts[i] == t;
  }

  /**
   After a deletion and a timer step, whenever it comes, the first unreleased task with that ID is no longer listed,
   and every other task is listed exactly when it would be without the deletion.
   */
  lemma DeletedLeaves(ops: seq<Op>, id: int, now: nat, k: nat, j: nat)
    requires var run := Run(ops).run;
      && k < |run| && run[k].id == id && run[k].status != Release
      && (forall i :: 0 <= i < k ==> run[i].id != id || run[i].status == Release)
      && j < |run| && j != k
    ensures var s, run' := Run(ops), Run(ops + [Del(id), Tick(now)]).run;
      && !InRun(run', s.run[k].uid)
      && (InRun(run', s.run[j].uid) <==> InRun(Run(ops + [Tick(now)]).run, s.run[j].uid))
  {
    var s := Run(ops);
    var s1 := Step(s, Del(id));
    RunKeeps(ops);
    assert FindTask(s.run, id) == k;
    DeleteKeeps(s, id);
    TwoMore(ops, Del(id), Tick(now));
    OneMoreOp(ops, Tick(now));
    hide Run, SchedInv, Overdue;
    StaysExact(s1, now, k);
    StaysExact(s1, now, j);
    StaysExact(s, now, j);
    assert s1.run[k].uid == s.run[k].uid && s1.run[k].status == Release && s1.run[j] == s.run[j];
  }

  lemma OneMoreOp(ops: seq<Op>, op: Op)
    ensures Run(ops + [op]) == Step(Run(ops), op)
  {
    assert (ops + [op])[..|ops|] == ops;
  }

  lemma TwoMore(ops: seq<Op>, op: Op, op': Op)
    ensures Run(ops + [op, op']) == Step(Step(Run(ops), op), op')
  {
    hide Run, Step;
    OneMoreOp(ops, op);
    OneMoreOp(ops + [op], op');
    assert ops + [op] + [op'] == ops + [op, op'];
  }

  /**
   When the timer is pending: a timer step leaves it so exactly when tasks are left; an insertion and a deletion that
   marks a task start it, and a deletion that marks none leaves it alone.
   */
  lemma ArmedExact(s: State, op: Op)
    ensures op.Tick? ==> (Step(s, op).armed <==> Step(s, op).run != [])
    ensures op.Insert? ==> Step(s, op).armed
    ensures op.Del? ==>
      (Step(s, op).armed <==> s.armed || exists t :: t in s.run && t.id == op.id && t.status != Release)
  {
    hide Leaves, Terminals, Leaving, Staying, Spliced;
    if op.Del? {
      var k := FindTask(s.run, op.id);
      if k < |s.run| {
        assert s.run[k] in s.run;
      }
    }
  }

  /** Of two tasks that leave in one step the later one in the list is told first, because each goes to the front. */
  lemma {:induction false} LaterToldFirst(ts: seq<Task>, now: nat, j: nat, k: nat) returns (a: nat, b: nat)
    requires j < k < |ts| && Leaves(ts[j], now) && Leaves(ts[k], now)
    requires forall i :: 0 <= i < |ts| ==> ts[i].status != Timeout
    ensures var log := Terminals(Leaving(ts, now)); a < b < |log| && log[a].uid == ts[k].uid && log[b].uid == ts[j].uid
    decreases |ts|
  {
    hide Leaves, Terminals;
    var n := |ts| - 1;
    var rest := Leaving(ts[..n], now);
    if Leaves(ts[n], now) {
      TerminalsFront(Marked(ts[n]), rest);
    } else {
      assert Leaving(ts, now) == rest;
    }
    if k < n {
      a, b := LaterToldFirst(ts[..n], now, j, k);
      if Leaves(ts[n], now) {
        a, b := a + 1, b + 1;
      }
    } else {
      TerminalKinds(ts[..n], now, j);
      var g := Signal(ts[j].uid, if ts[j].status == Release then Released else TimedOut);
      var i :| 0 <= i < |Terminals(rest)| && Terminals(rest)[i] == g;
      a, b := 0, i + 1;
    }
  }

  lemma TerminalsFront(x: Task, del: seq<Task>)
    requires x.status != Init
    ensures Terminals([x] + del) == [TerminalOf(x)] + Terminals(del)
  {
    assert ([x] + del)[1..] == del;
  }
}
