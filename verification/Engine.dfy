/**
 The scheduler functions of cedar_ve.c on the lists they change, proved to take the machine's steps,
 and the delay estimate against the insertion it predicts.
 */
module Engines {
  import opened Scheduler
  import opened Signals

  const UINT: nat := 0x1_0000_0000

  function SumFrames(ts: seq<Task>): nat {
    if ts == [] then 0 else SumFrames(ts[..|ts| - 1]) + ts[|ts| - 1].frametime
  }

  /** The value of an unsigned 32-bit sum stored in an int. */
  function AsInt(u: nat): int {
    var w := u % UINT;
    if w < 0x8000_0000 then w else w - UINT
  }

  /** It is the 32-bit signed number that differs from the sum by a multiple of 2^32. */
  lemma AsIntMeans(u: nat)
    ensures -0x8000_0000 <= AsInt(u) < 0x8000_0000 && (AsInt(u) - u) % 0x1_0000_0000 == 0
    ensures u < 0x8000_0000 ==> AsInt(u) == u
  {
    assert u - u % UINT == UINT * (u / UINT);
  }

  /** The frame times of a list add up. */
  lemma {:induction false} SumFramesAdds(ts: seq<Task>, us: seq<Task>, t: Task)
    ensures SumFrames([t]) == t.frametime && SumFrames([]) == 0
    ensures SumFrames(ts + us) == SumFrames(ts) + SumFrames(us)
    decreases |us|
  {
    assert [t][..0] == [];
    if us == [] {
      assert ts + us == ts;
    } else {
      var n := |us| - 1;
      SumFramesAdds(ts, us[..n], t);
      assert (ts + us)[..|ts| + n] == ts + us[..n];
    }
  }

  predicate Counted(t: Task, prio: int) {
    t.prio >= prio || t.running || t.first
  }

  function DelaySum(run: seq<Task>, prio: int): nat {
    if run == [] then 0 else
    var n := |run| - 1;
    DelaySum(run[..n], prio) + if Counted(run[n], prio) then run[n].frametime else 0
  }

  lemma NoDelay(run: seq<Task>, prio: int)
    requires run == []
    ensures DelaySum(run, prio) % UINT == 0
  {
  }

  /** One more task in the 32-bit sum. */
  lemma DelayStep(run: seq<Task>, prio: int, i: nat)
    requires i < |run|
    ensures DelaySum(run[..i + 1], prio) % UINT ==
      (DelaySum(run[..i], prio) % UINT + if Counted(run[i], prio) then run[i].frametime else 0) % UINT
  {
    assert run[..i + 1][..i] == run[..i];
    var d, f := DelaySum(run[..i], prio), if Counted(run[i], prio) then run[i].frametime else 0;
    hide DelaySum;
    WrapAdd(d, f);
  }

  lemma WrapAdd(a: nat, b: nat)
    ensures (a % UINT + b) % UINT == (a + b) % UINT
  {
  }

  lemma InOrder(s: State)
    requires SchedInv(s)
    ensures OrderInv(s.run)
  {
  }

  /** The tasks that are counted are exactly those in front of the place where a new task would go. */
  lemma {:induction false} DelayIsAhead(run: seq<Task>, prio: int, m: nat)
    requires OrderInv(run) && m <= |run|
    ensures DelaySum(run[..m], prio) == SumFrames(run[..if m < InsertAt(run, prio) then m else InsertAt(run, prio)])
    decreases m
  {
    hide InsertAt;
    if m > 0 {
      DelayIsAhead(run, prio, m - 1);
      assert run[..m][..m - 1] == run[..m - 1];
      CountedIffAhead(run, prio, m - 1);
    }
  }

  lemma CountedIffAhead(run: seq<Task>, prio: int, i: nat)
    requires OrderInv(run) && i < |run|
    ensures Counted(run[i], prio) <==> i < InsertAt(run, prio)
  {
    hide InsertAt;
    InsertAtMeans(run, prio);
    var k := InsertAt(run, prio);
    if i >= k {
      assert k >= 1;
      assert run[1..][k - 1] == run[k] && run[1..][i - 1] == run[i];
    }
  }

  /** The first task with this ID that was not released yet is now marked released, and nothing else changed. */
  ghost predicate FirstReleased(ts: seq<Task>, ts': seq<Task>, id: int) {
    exists k :: 0 <= k < |ts| && MarkedAt(ts, ts', id, k)
  }

  ghost predicate MarkedAt(ts: seq<Task>, ts': seq<Task>, id: int, k: nat)
    requires k < |ts|
  {
    && ts[k].id == id && ts[k].status != Release && ts' == ts[k := ts[k].(status := Release)]
    && forall i :: 0 <= i < k ==> !(ts[i].id == id && ts[i].status != Release)
  }

  class Engine {
    var run: seq<Task>
    var del: seq<Task>
    var log: seq<Signal>
    var next: nat
    var armed: bool

    ghost function Now(): State
      reads this
    {
      State(run, log, next, armed)
    }

    /** The state between two steps: the delete list is empty and the machine's invariant holds. */
    ghost predicate Valid()
      reads this
    {
      SchedInv(Now()) && del == []
    }

    constructor ()
      ensures Valid() && Now() == EMPTY
    {
      run, del, log, next, armed := [], [], [], 0, false;
      new;
      EmptyKeeps();
    }

    /** cedardev_insert_task */
    method InsertTask(prio: int, id: int, timeout: nat, frametime: nat)
      requires Valid()
      modifies this
      ensures Valid() && Now() == Inserted(old(Now()), prio, id, timeout, frametime)
    {
      hide SchedInv;
      ghost var s := Now();
      var newTask := Task(next, prio, id, timeout, frametime, Init, false, false);
      if run == [] {
        newTask := newTask.(first := true);
      }
      var i := 0;
      while i < |run| && !(!run[i].first && !run[i].running && run[i].prio < prio)
        invariant i <= |run| && InsertAt(run, prio) == i + InsertAt(run[i..], prio)
      {
        assert run[i..][1..] == run[i + 1..];
        i := i + 1;
      }
      run := run[..i] + [newTask] + run[i..];
      next := next + 1;
      armed := true;
      InsertKeeps(s, prio, id, timeout, frametime);
    }

    /** cedardev_del_task */
    method DelTask(id: int) returns (r: int)
      requires Valid()
      modifies this
      ensures Valid() && Now() == Deleted(old(Now()), id)
      ensures r == if exists t :: t in old(run) && t.id == id && t.status != Release then 0 else -1
      ensures r == 0 ==> FirstReleased(old(run), run, id)
    {
      hide SchedInv;
      ghost var s := Now();
      DeleteKeeps(s, id);
      FindTaskMeans(run, id);
      for i := 0 to |run|
        invariant Now() == s && Valid() && FindTask(run, id) == i + FindTask(run[i..], id)
      {
        assert run[i..][1..] == run[i + 1..];
        if run[i].id == id && run[i].status != Release {
          run := run[i := run[i].(status := Release)];
          armed := true;
          assert MarkedAt(s.run, run, id, i);
          return 0;
        }
      }
      return -1;
    }

    /** cedardev_check_delay: the frame times of exactly the tasks that an insertion would leave ahead. */
    method CheckDelay(prio: int) returns (r: int)
      requires Valid()
      ensures var sum := SumFrames(run[..InsertAt(run, prio)]);
        && -0x8000_0000 <= r < 0x8000_0000 && (r - sum) % 0x1_0000_0000 == 0
        && (sum < 0x8000_0000 ==> r == sum)
    {
      hide DelaySum, SumFrames, SchedInv;
      var total: nat := 0;
      NoDelay(run[..0], prio);
      for i := 0 to |run|
        invariant total == DelaySum(run[..i], prio) % UINT
      {
        DelayStep(run, prio, i);
        if run[i].prio >= prio || run[i].running || run[i].first {
          total := (total + run[i].frametime) % UINT;
        }
      }
      InOrder(Now());
      DelayIsAhead(run, prio, |run|);
      assert run[..|run|] == run;
      r := if total < 0x8000_0000 then total else total - UINT;
      AsIntMeans(SumFrames(run[..InsertAt(run, prio)]));
    }

    /** cedar_engine_for_events at time now */
    method Events(now: nat)
      requires Valid()
      modifies this
      ensures Valid() && Now() == Ticked(old(Now()), now)
    {
      hide SchedInv, Leaves, Terminals;
      ghost var s := Now();
      TickKeeps(s, now);
      armed := false;
      Collect(now);
      SendTerminals();
      if run != [] {
        if !run[0].running {
          log := log + [Signal(run[0].uid, Start)];
          run := [run[0].(running := true)] + run[1..];
        }
        armed := true;
      }
    }

    /** The first loop: tasks that leave are moved to the head of the delete list. */
    method Collect(now: nat)
      requires del == []
      modifies this`run, this`del
      ensures run == Staying(old(run), now) && del == Leaving(old(run), now)
    {
      ghost var run0 := run;
      var i := 0;
      ghost var j := 0;
      CollectStart(run0, now);
      hide Leaves, Staying, Leaving;
      while i < |run|
        invariant j <= |run0| && i == |Staying(run0[..j], now)| && run == Staying(run0[..j], now) + run0[j..]
        invariant del == Leaving(run0[..j], now)
        decreases |run0| - j
      {
        CollectStep(run0, j, now);
        assert run[i] == run0[j] && run[i + 1..] == run0[j + 1..];
        if Leaves(run[i], now) {
          var t := run[i];
          if t.status == Init {
            t := t.(status := Timeout);
          }
          run := run[..i] + run[i + 1..];
          del := [t] + del;
        } else {
          i := i + 1;
        }
        j := j + 1;
      }
      assert run0[..j] == run0;
    }

    /** The second loop: each task of the delete list is signalled and freed. */
    method SendTerminals()
      modifies this`del, this`log
      ensures del == [] && log == old(log) + Terminals(old(del))
    {
      ghost var log0, del0 := log, del;
      while del != []
        invariant log + Terminals(del) == log0 + Terminals(del0)
        decreases |del|
      {
        var t := del[0];
        if t.status == Timeout {
          log := log + [Signal(t.uid, TimedOut)];
        } else if t.status == Release {
          log := log + [Signal(t.uid, Released)];
        }
        del := del[1..];
      }
    }
  }

  lemma CollectStart(run: seq<Task>, now: nat)
    ensures Staying(run[..0], now) == [] && Leaving(run[..0], now) == [] && run[0..] == run
  {
  }

  lemma CollectStep(run: seq<Task>, j: nat, now: nat)
    requires j < |run|
    ensures Staying(run[..j + 1], now) == Staying(run[..j], now) + if Leaves(run[j], now) then [] else [run[j]]
    ensures Leaving(run[..j + 1], now) ==
      (if Leaves(run[j], now) then [Marked(run[j])] else []) + Leaving(run[..j], now)
  {
    hide Leaves;
    assert run[..j + 1][..j] == run[..j];
  }

  lemma {:induction false} FindTaskMeans(run: seq<Task>, id: int)
    ensures FindTask(run, id) < |run| <==> exists t :: t in run && t.id == id && t.status != Release
    ensures forall i :: 0 <= i < FindTask(run, id) ==> !(run[i].id == id && run[i].status != Release)
  {
    if run != [] {
      FindTaskMeans(run[1..], id);
      assert run == [run[0]] + run[1..];
    }
  }
}
