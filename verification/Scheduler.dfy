/**
 The priority run list of the video engine: cedardev_insert_task, cedardev_del_task,
 cedardev_check_delay and the timer step cedar_engine_for_events of cedar_ve.c. Each runs under the
 device spinlock and is one step of the machine.
 */
module Scheduler {

  datatype Status = Init | Release | Timeout

  /** A struct cedarv_engine_task; uid numbers the insertions and is not part of the driver's state. */
  datatype Task = Task(uid: nat, prio: int, id: int, timeout: nat, frametime: nat,
                       status: Status, running: bool, first: bool)

  datatype Kind = Start | TimedOut | Released

  datatype Signal = Signal(uid: nat, kind: Kind)

  /** The run list, the signals sent so far, the next insertion number and whether the engine timer is pending. */
  datatype State = State(run: seq<Task>, log: seq<Signal>, next: nat, armed: bool)

  const EMPTY := State([], [], 0, false)

  datatype Op =
    | Insert(prio: int, id: int, timeout: nat, frametime: nat)
    | Del(id: int)
    | Tick(now: nat)

  const WORD: nat := 0x1_0000_0000_0000_0000
  const HALF: nat := 0x8000_0000_0000_0000

  /** time_after(now, t) on a 64-bit jiffies counter that wraps. */
  predicate TimeAfter(now: nat, t: nat) {
    (t - now) % WORD >= HALF
  }

  /** t lies in the past by at most half the counter's range. */
  lemma TimeAfterMeans(now: nat, t: nat)
    ensures TimeAfter(now, t) <==> 0 < (now - t) % 0x1_0000_0000_0000_0000 <= 0x8000_0000_0000_0000
  {
    var d := (now - t) % WORD;
    var q := (now - t) / WORD;
    if d == 0 {
      Residue(t - now, -q, 0);
    } else {
      Residue(t - now, -q - 1, WORD - d);
    }
  }

  lemma Residue(x: int, q: int, r: nat)
    requires x == q * WORD + r && r < WORD
    ensures x % WORD == r
  {
  }

  /** The clock d ticks after a timeout, and d ticks before it, also when the counter wraps in between. */
  lemma TimeAfterClock(t: nat, d: nat)
    requires t < 0x1_0000_0000_0000_0000
    ensures 0 < d <= 0x8000_0000_0000_0000 ==> TimeAfter((t + d) % 0x1_0000_0000_0000_0000, t)
    ensures d < 0x8000_0000_0000_0000 ==> !TimeAfter((t + WORD - d) % 0x1_0000_0000_0000_0000, t)
  {
    hide TimeAfter;
    var later, earlier := (t + d) % WORD, (t + WORD - d) % WORD;
    TimeAfterMeans(later, t);
    TimeAfterMeans(earlier, t);
    if 0 < d <= HALF {
      Residue(later - t, -((t + d) / WORD), d);
    }
    if d == 0 {
      Residue(earlier - t, 1 - (t + WORD) / WORD, 0);
    } else if d < HALF {
      Residue(earlier - t, -((t + WORD - d) / WORD), WORD - d);
    }
  }

  /** A task that a new one may be put in front of, if its priority is lower. */
  predicate Waiting(t: Task) {
    !t.first && !t.running
  }

  // ----- what the functions compute

  /** Where cedardev_insert_task puts a task of this priority. */
  function InsertAt(run: seq<Task>, prio: int): (k: nat)
    ensures k <= |run|
  {
    if run == [] then 0
    else if Waiting(run[0]) && run[0].prio < prio then 0
    else 1 + InsertAt(run[1..], prio)
  }

  function NewTask(s: State, prio: int, id: int, timeout: nat, frametime: nat): Task {
    Task(s.next, prio, id, timeout, frametime, Init, false, s.run == [])
  }

  /** list_add in front of the entry at position k. */
  function Spliced(ts: seq<Task>, k: nat, x: Task): seq<Task>
    requires k <= |ts|
  {
    ts[..k] + [x] + ts[k..]
  }

  function Inserted(s: State, prio: int, id: int, timeout: nat, frametime: nat): State {
    State(Spliced(s.run, InsertAt(s.run, prio), NewTask(s, prio, id, timeout, frametime)), s.log, s.next + 1, true)
  }

  /** The first entry with this ID that is not yet released, or the length of the list. */
  function FindTask(run: seq<Task>, id: int): (k: nat)
    ensures k <= |run|
    ensures k < |run| ==> run[k].id == id && run[k].status != Release
    ensures forall j :: 0 <= j < k ==> run[j].id != id || run[j].status == Release
  {
    if run == [] then 0
    else if run[0].id == id && run[0].status != Release then 0
    else 1 + FindTask(run[1..], id)
  }

  function Deleted(s: State, id: int): State {
    var k := FindTask(s.run, id);
    if k < |s.run| then s.(run := s.run[k := s.run[k].(status := Release)], armed := true) else s
  }

  predicate Leaves(t: Task, now: nat) {
    t.status == Release || TimeAfter(now, t.timeout)
  }

  function Marked(t: Task): Task {
    if t.status == Init then t.(status := Timeout) else t
  }

  function Staying(run: seq<Task>, now: nat): seq<Task> {
    if run == [] then [] else
    var n := |run| - 1;
    Staying(run[..n], now) + if Leaves(run[n], now) then [] else [run[n]]
  }

  /** The delete list: list_move puts each leaving task at its head. */
  function Leaving(run: seq<Task>, now: nat): seq<Task> {
    if run == [] then [] else
    var n := |run| - 1;
    (if Leaves(run[n], now) then [Marked(run[n])] else []) + Leaving(run[..n], now)
  }

  /** The signals for the delete list. */
  function Terminals(del: seq<Task>): seq<Signal> {
    if del == [] then []
    else (if del[0].status == Timeout then [Signal(del[0].uid, TimedOut)]
          else if del[0].status == Release then [Signal(del[0].uid, Released)] else []) + Terminals(del[1..])
  }

  /** The head of the list is started when it is not running yet. */
  function Started(s: State): State {
    if s.run == [] then s.(armed := false)
    else if s.run[0].running then s.(armed := true)
    else State([s.run[0].(running := true)] + s.run[1..], s.log + [Signal(s.run[0].uid, Start)], s.next, true)
  }

  function Ticked(s: State, now: nat): State {
    Started(State(Staying(s.run, now), s.log + Terminals(Leaving(s.run, now)), s.next, s.armed))
  }

  function Step(s: State, op: Op): State {
    match op
    case Insert(prio, id, timeout, frametime) => Inserted(s, prio, id, timeout, frametime)
    case Del(id) => Deleted(s, id)
    case Tick(now) => Ticked(s, now)
  }

  function Run(ops: seq<Op>): State {
    if ops == [] then EMPTY else Step(Run(ops[..|ops| - 1]), ops[|ops| - 1])
  }

  // ----- order of the run list

  /** a goes before b: higher priority, or the same and inserted earlier. */
  predicate Before(a: Task, b: Task) {
    a.prio > b.prio || (a.prio == b.prio && a.uid < b.uid)
  }

  /** Waiting entries sorted by descending priority and by arrival among equals. */
  ghost predicate WaitingSorted(ts: seq<Task>) {
    && (forall i :: 0 <= i < |ts| ==> Waiting(ts[i]))
    && (forall i, j :: 0 <= i < j < |ts| ==> Before(ts[i], ts[j]))
  }

  /** A nonempty list has a head that is first or running; the rest is waiting and sorted. */
  ghost predicate OrderInv(run: seq<Task>) {
    run == [] || (!Waiting(run[0]) && WaitingSorted(run[1..]))
  }

  lemma {:induction false} InsertAtMeans(run: seq<Task>, prio: int)
    ensures var k := InsertAt(run, prio);
      (forall i :: 0 <= i < k ==> !(Waiting(run[i]) && run[i].prio < prio)) &&
      (k < |run| ==> Waiting(run[k]) && run[k].prio < prio)
  {
    if run != [] && !(Waiting(run[0]) && run[0].prio < prio) {
      InsertAtMeans(run[1..], prio);
      var k := InsertAt(run[1..], prio);
      forall i | 0 <= i < k + 1
        ensures !(Waiting(run[i]) && run[i].prio < prio)
      {
        assert i > 0 ==> run[i] == run[1..][i - 1];
      }
    }
  }

  lemma SplicedAt(ts: seq<Task>, k: nat, x: Task)
    requires k <= |ts|
    ensures var ts' := Spliced(ts, k, x);
      |ts'| == |ts| + 1 && ts'[k] == x && (forall i :: 0 <= i < k ==> ts'[i] == ts[i]) &&
      (forall i :: k <= i < |ts| ==> ts'[i + 1] == ts[i]) && (forall i :: k < i <= |ts| ==> ts'[i] == ts[i - 1])
    ensures k > 0 ==> Spliced(ts, k, x)[1..] == Spliced(ts[1..], k - 1, x)
  {
  }

  /** Insertion never goes before the head, and keeps the waiting part sorted. */
  lemma InsertKeepsOrder(s: State, prio: int, id: int, timeout: nat, frametime: nat)
    requires OrderInv(s.run) && forall i :: 0 <= i < |s.run| ==> s.run[i].uid < s.next
    ensures OrderInv(Inserted(s, prio, id, timeout, frametime).run)
    ensures s.run != [] ==> Inserted(s, prio, id, timeout, frametime).run[0] == s.run[0]
  {
    hide Spliced, InsertAt, WaitingSorted;
    var run, x, k := s.run, NewTask(s, prio, id, timeout, frametime), InsertAt(s.run, prio);
    InsertAtMeans(run, prio);
    SplicedAt(run, k, x);
    if run == [] {
      AloneSorted(Spliced(run, k, x));
    } else {
      var tail := run[1..];
      assert forall i :: 0 <= i < |tail| ==> tail[i] == run[i + 1];
      SortedInsert(tail, k - 1, x);
    }
  }

  /** Insertion adds exactly one task, waiting and with the caller's parameters; it is first only in an empty list. */
  lemma InsertConserves(s: State, prio: int, id: int, timeout: nat, frametime: nat)
    ensures multiset(Inserted(s, prio, id, timeout, frametime).run)
         == multiset(s.run) + multiset{Task(s.next, prio, id, timeout, frametime, Init, false, s.run == [])}
  {
    var k := InsertAt(s.run, prio);
    assert s.run == s.run[..k] + s.run[k..];
  }

  lemma AloneSorted(ts: seq<Task>)
    requires |ts| == 1
    ensures WaitingSorted(ts[1..])
  {
  }

  lemma SortedInsert(ts: seq<Task>, k: nat, x: Task)
    requires WaitingSorted(ts) && k <= |ts| && Waiting(x)
    requires forall i :: 0 <= i < |ts| ==> ts[i].uid < x.uid
    requires forall i :: 0 <= i < k ==> !(Waiting(ts[i]) && ts[i].prio < x.prio)
    requires k < |ts| ==> ts[k].prio < x.prio
    ensures WaitingSorted(Spliced(ts, k, x))
  {
    hide Spliced;
    SplicedAt(ts, k, x);
    var ts' := Spliced(ts, k, x);
    forall i | 0 <= i < |ts|
      ensures if i < k then Before(ts[i], x) else Before(x, ts[i])
    {
    }
  }

  lemma DeleteKeepsOrder(s: State, id: int)
    requires OrderInv(s.run)
    ensures OrderInv(Deleted(s, id).run)
  {
    var k := FindTask(s.run, id);
    if k < |s.run| {
      var run' := s.run[k := s.run[k].(status := Release)];
      forall i | 0 <= i < |s.run| - 1
        ensures run'[1..][i].prio == s.run[1..][i].prio && run'[1..][i].uid == s.run[1..][i].uid
        ensures Waiting(run'[1..][i]) == Waiting(s.run[1..][i])
      {
      }
    }
  }

  lemma {:induction false} StayingIs(ts: seq<Task>, now: nat, x: Task)
    ensures x in Staying(ts, now) <==> x in ts && !Leaves(x, now)
  {
    hide Leaves;
    if ts != [] {
      var n := |ts| - 1;
      StayingIs(ts[..n], now, x);
      assert ts == ts[..n] + [ts[n]];
    }
  }

  lemma {:induction false} StayingHead(ts: seq<Task>, now: nat)
    requires ts != []
    ensures Staying(ts, now) == (if Leaves(ts[0], now) then [] else [ts[0]]) + Staying(ts[1..], now)
  {
    hide Leaves;
    var n := |ts| - 1;
    if n > 0 {
      StayingHead(ts[..n], now);
      assert ts[..n][1..] == ts[1..][..n - 1];
    } else {
      assert ts[..0] == [] && ts[1..] == [];
    }
  }

  lemma {:induction false} StayingSorted(ts: seq<Task>, now: nat)
    requires WaitingSorted(ts)
    ensures WaitingSorted(Staying(ts, now))
  {
    hide Leaves, Before, Waiting;
    if ts != [] {
      var n := |ts| - 1;
      StayingSorted(ts[..n], now);
      var rest := Staying(ts[..n], now);
      forall i | 0 <= i < |rest|
        ensures Before(rest[i], ts[n])
      {
        StayingIs(ts[..n], now, rest[i]);
        var k :| 0 <= k < n && ts[..n][k] == rest[i];
        assert ts[k] == rest[i];
      }
    }
  }

  function StartHead(run: seq<Task>): seq<Task> {
    if run == [] then [] else [run[0].(running := true)] + run[1..]
  }

  lemma TickedRun(s: State, now: nat)
    ensures Ticked(s, now).run == StartHead(Staying(s.run, now))
  {
    hide Leaves, Terminals, Staying;
    var m := Staying(s.run, now);
    if m != [] {
      assert m == [m[0]] + m[1..];
    }
  }

  lemma TickKeepsOrder(s: State, now: nat)
    requires OrderInv(s.run)
    ensures OrderInv(Ticked(s, now).run)
  {
    hide Leaves, Terminals, Before, Ticked;
    TickedRun(s, now);
    if s.run != [] {
      StayingHead(s.run, now);
      var stay := Staying(s.run[1..], now);
      StayingSorted(s.run[1..], now);
      var run' := StartHead(Staying(s.run, now));
      if !Leaves(s.run[0], now) {
        assert run'[1..] == stay;
      } else if stay != [] {
        assert Staying(s.run, now) == stay;
        assert run'[1..] == stay[1..];
      }
    }
  }

  /** A head that does not leave in a timer step is still the head after it, and is running. */
  lemma HeadStays(s: State, now: nat)
    requires s.run != [] && !Leaves(s.run[0], now)
    ensures var run' := Ticked(s, now).run; run' != [] && run'[0] == s.run[0].(running := true)
  {
    hide Leaves, Terminals, Ticked;
    TickedRun(s, now);
    StayingHead(s.run, now);
  }

  /** When the head leaves, the next one started is the highest-priority, oldest waiter that stays. */
  lemma NextStarted(s: State, now: nat)
    requires OrderInv(s.run) && s.run != [] && Leaves(s.run[0], now) && Ticked(s, now).run != []
    ensures var h := Ticked(s, now).run[0];
      h.running && h.(running := false) in s.run[1..] &&
      forall i :: 1 <= i < |s.run| && !Leaves(s.run[i], now) ==> s.run[i] == h.(running := false) || Before(h, s.run[i])
  {
    hide Leaves, Terminals, Ticked, Staying;
    TickedRun(s, now);
    StayingHead(s.run, now);
    var tail := s.run[1..];
    var stay := Staying(tail, now);
    assert Staying(s.run, now) == stay;
    StayingSorted(tail, now);
    StayingIs(tail, now, stay[0]);
    forall i | 1 <= i < |s.run| && !Leaves(s.run[i], now)
      ensures s.run[i] == stay[0] || Before(stay[0], s.run[i])
    {
      assert tail[i - 1] == s.run[i];
      StayingIs(tail, now, s.run[i]);
      var j :| 0 <= j < |stay| && stay[j] == s.run[i];
    }
  }
}
