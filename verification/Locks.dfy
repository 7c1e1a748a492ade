/**
 The per-file lock flags and the five device mutexes: IOCTL_GET_LOCK, IOCTL_RELEASE_LOCK and
 cedardev_release of cedar_ve.c, as a machine in which a mutex operation and the change of the
 flag word are separate steps.
 */
module Locks {

  datatype Lock = Vdec | Venc | Jdec | Reg00 | Reg04

  datatype Option<T> = None | Some(value: T)

  /** A u32 flag word, as the set of its bit positions: `|`, `&` and `& ~` are union, intersection and difference. */
  type Mask = set<nat>

  /** VE_LOCK_VDEC is 1 << 0, and so on. */
  function Bit(k: Lock): nat {
    match k
    case Vdec => 0
    case Venc => 1
    case Jdec => 2
    case Reg00 => 3
    case Reg04 => 4
  }

  /** The mutex that the ioctls take or release for a lock type; any other type logs an error and goes on. */
  function LockOf(lockType: Mask): Option<Lock> {
    if lockType == {0} then Some(Vdec)
    else if lockType == {1} then Some(Venc)
    else if lockType == {2} then Some(Jdec)
    else if lockType == {3} then Some(Reg00)
    else if lockType == {4} then Some(Reg04)
    else None
  }

  predicate HasBit(flags: Mask, k: Lock) {
    Bit(k) in flags
  }

  /**
   Where a file is inside an ioctl: between taking the mutex and setting the flag, or between clearing it and
   unlocking.
   */
  datatype Pc = Idle | Taken(lockType: Mask) | Cleared(lockType: Mask)

  datatype File = File(flags: Mask, pc: Pc)

  /** The open files, and for each held mutex the file whose call locked it. */
  datatype State = State(files: map<nat, File>, owner: map<Lock, nat>)

  const EMPTY := State(map[], map[])

  datatype Event =
    | Open(f: nat)
    | Take(f: nat, lockType: Mask)
    | SetFlag(f: nat)
    | ClearFlag(f: nat, lockType: Mask)
    | Unlock(f: nat)
    | Close(f: nat)

  predicate IdleFile(s: State, f: nat) {
    f in s.files && s.files[f].pc.Idle?
  }

  /** When the step can happen: one call at a time per file, and mutex_lock waits for a free mutex. */
  predicate Enabled(s: State, ev: Event) {
    match ev
    case Open(f) => f !in s.files
    case Take(f, lockType) => IdleFile(s, f) && (LockOf(lockType).Some? ==> LockOf(lockType).value !in s.owner)
    case SetFlag(f) => f in s.files && s.files[f].pc.Taken?
    case ClearFlag(f, lockType) => IdleFile(s, f) && s.files[f].flags * lockType != {}
    case Unlock(f) => f in s.files && s.files[f].pc.Cleared?
    case Close(f) => IdleFile(s, f)
  }

  function Apply(s: State, ev: Event): State
    requires Enabled(s, ev)
  {
    match ev
    case Open(f) => s.(files := s.files[f := File({}, Idle)])
    case Take(f, lockType) =>
      var files := s.files[f := s.files[f].(pc := Taken(lockType))];
      State(files, if LockOf(lockType).Some? then s.owner[LockOf(lockType).value := f] else s.owner)
    case SetFlag(f) => s.(files := s.files[f := File(s.files[f].flags + s.files[f].pc.lockType, Idle)])
    case ClearFlag(f, lockType) => s.(files := s.files[f := File(s.files[f].flags - lockType, Cleared(lockType))])
    case Unlock(f) =>
      var k := LockOf(s.files[f].pc.lockType);
      State(s.files[f := s.files[f].(pc := Idle)], if k.Some? then s.owner - {k.value} else s.owner)
    case Close(f) => State(s.files - {f}, s.owner - set k | k in s.owner && HasBit(s.files[f].flags, k))
  }

  /** Runs: every event is enabled in the state the earlier ones lead to. */
  function After(evs: seq<Event>): Option<State> {
    if evs == [] then Some(EMPTY) else
    var n := |evs| - 1;
    var s := After(evs[..n]);
    if s.Some? && Enabled(s.value, evs[n]) then Some(Apply(s.value, evs[n])) else None
  }

  /** Lock types are the five single bits. */
  predicate ValidType(ev: Event) {
    match ev
    case Take(_, lockType) => LockOf(lockType).Some?
    case ClearFlag(_, lockType) => LockOf(lockType).Some?
    case _ => true
  }

  // ----- the invariant

  /** A flag bit of an open file means that the file owns the mutex. */
  ghost predicate FlagsOwn(s: State) {
    forall f, k :: f in s.files && HasBit(s.files[f].flags, k) ==> k in s.owner && s.owner[k] == f
  }

  /** Inside an ioctl, the mutex is held and its flag bit is clear. */
  ghost predicate MidCall(s: State) {
    forall f :: f in s.files && !s.files[f].pc.Idle? ==>
      var k := LockOf(s.files[f].pc.lockType);
      k.Some? && k.value in s.owner && s.owner[k.value] == f && !HasBit(s.files[f].flags, k.value)
  }

  /** A held mutex belongs to an open file that has its bit set or is inside the call that changes it. */
  ghost predicate OwnersKnow(s: State) {
    forall k :: k in s.owner ==>
      s.owner[k] in s.files &&
      var f := s.files[s.owner[k]]; HasBit(f.flags, k) || (!f.pc.Idle? && LockOf(f.pc.lockType) == Some(k))
  }

  ghost predicate LockInv(s: State) {
    FlagsOwn(s) && MidCall(s) && OwnersKnow(s)
  }

  lemma TypeBit(lockType: Mask)
    requires LockOf(lockType).Some?
    ensures lockType == {Bit(LockOf(lockType).value)}
  {
  }

  /** The five types in the order of their bits. */
  lemma TypesInOrder()
    ensures LockOf({0}) == Some(Vdec) && LockOf({1}) == Some(Venc) && LockOf({2}) == Some(Jdec)
    ensures LockOf({3}) == Some(Reg00) && LockOf({4}) == Some(Reg04)
  {
    assert 0 !in {1} && 0 !in {2} && 0 !in {3} && 0 !in {4} && 1 !in {2} && 1 !in {3} && 1 !in {4};
    assert 2 !in {3} && 2 !in {4} && 3 !in {4};
  }

  lemma BitsDiffer(j: Lock, k: Lock)
    ensures Bit(j) == Bit(k) ==> j == k
  {
  }

  lemma OpenKeeps(s: State, f: nat)
    requires LockInv(s) && Enabled(s, Open(f))
    ensures LockInv(Apply(s, Open(f)))
  {
    hide LockOf;
  }

  lemma TakeKeeps(s: State, f: nat, k: Lock)
    requires LockInv(s) && Enabled(s, Take(f, {Bit(k)})) && LockOf({Bit(k)}) == Some(k)
    ensures LockInv(Apply(s, Take(f, {Bit(k)})))
  {
    hide HasBit, LockOf, Bit;
    var s' := Apply(s, Take(f, {Bit(k)}));
    assert forall g :: g in s.files ==> s'.files[g].flags == s.files[g].flags;
    assert FlagsOwn(s');
    assert MidCall(s');
  }

  lemma SetFlagKeeps(s: State, f: nat, k: Lock)
    requires LockInv(s) && Enabled(s, SetFlag(f)) && s.files[f].pc == Taken({Bit(k)}) && LockOf({Bit(k)}) == Some(k)
    ensures LockInv(Apply(s, SetFlag(f)))
  {
    hide LockOf, Bit;
    var s' := Apply(s, SetFlag(f));
    forall j ensures HasBit(s'.files[f].flags, j) <==> HasBit(s.files[f].flags, j) || j == k {
      BitsDiffer(j, k);
    }
    assert FlagsOwn(s');
    assert MidCall(s');
  }

  lemma ClearFlagKeeps(s: State, f: nat, k: Lock)
    requires LockInv(s) && Enabled(s, ClearFlag(f, {Bit(k)})) && LockOf({Bit(k)}) == Some(k)
    ensures LockInv(Apply(s, ClearFlag(f, {Bit(k)})))
  {
    hide LockOf, Bit;
    var s' := Apply(s, ClearFlag(f, {Bit(k)}));
    forall j ensures HasBit(s'.files[f].flags, j) <==> HasBit(s.files[f].flags, j) && j != k {
      BitsDiffer(j, k);
    }
    assert FlagsOwn(s');
    assert MidCall(s');
  }

  lemma UnlockKeeps(s: State, f: nat)
    requires LockInv(s) && Enabled(s, Unlock(f))
    ensures LockInv(Apply(s, Unlock(f)))
  {
    hide HasBit, LockOf;
    var s' := Apply(s, Unlock(f));
    assert forall g :: g in s.files ==> s'.files[g].flags == s.files[g].flags;
    assert FlagsOwn(s');
    assert MidCall(s');
  }

  lemma CloseKeeps(s: State, f: nat)
    requires LockInv(s) && Enabled(s, Close(f))
    ensures LockInv(Apply(s, Close(f)))
  {
    hide HasBit, LockOf;
    var s' := Apply(s, Close(f));
    assert FlagsOwn(s');
    assert MidCall(s');
  }

  lemma StepKeeps(s: State, ev: Event)
    requires LockInv(s) && Enabled(s, ev) && ValidType(ev)
    ensures LockInv(Apply(s, ev))
  {
    hide LockInv, Apply;
    match ev
    case Open(f) => OpenKeeps(s, f);
    case Take(f, lockType) =>
      TypeBit(lockType);
      TakeKeeps(s, f, LockOf(lockType).value);
    case SetFlag(f) =>
      MidTypes(s, f);
      TypeBit(s.files[f].pc.lockType);
      SetFlagKeeps(s, f, LockOf(s.files[f].pc.lockType).value);
    case ClearFlag(f, lockType) =>
      TypeBit(lockType);
      ClearFlagKeeps(s, f, LockOf(lockType).value);
    case Unlock(f) => UnlockKeeps(s, f);
    case Close(f) => CloseKeeps(s, f);
  }

  lemma MidTypes(s: State, f: nat)
    requires LockInv(s) && f in s.files && !s.files[f].pc.Idle?
    ensures LockOf(s.files[f].pc.lockType).Some?
  {
  }

  /** In every reachable state of every run with single-bit lock types. */
  lemma {:induction false} RunKeeps(evs: seq<Event>)
    requires After(evs).Some? && forall i :: 0 <= i < |evs| ==> ValidType(evs[i])
    ensures LockInv(After(evs).value)
  {
    hide LockInv, Apply, ValidType, Enabled;
    if evs == [] {
      EmptyKeeps();
    } else {
      var n := |evs| - 1;
      RunKeeps(evs[..n]);
      StepKeeps(After(evs[..n]).value, evs[n]);
    }
  }

  lemma EmptyKeeps()
    ensures LockInv(EMPTY)
  {
  }

  /** Mutual exclusion: two open files never have the same lock bit, and a set bit is a held mutex. */
  lemma MutualExclusion(evs: seq<Event>, f: nat, g: nat, k: Lock)
    requires After(evs).Some? && forall i :: 0 <= i < |evs| ==> ValidType(evs[i])
    requires var s := After(evs).value;
      f in s.files && g in s.files && HasBit(s.files[f].flags, k) && HasBit(s.files[g].flags, k)
    ensures f == g && k in After(evs).value.owner && After(evs).value.owner[k] == f
  {
    RunKeeps(evs);
    Excludes(After(evs).value, f, g, k);
  }

  lemma Excludes(s: State, f: nat, g: nat, k: Lock)
    requires LockInv(s) && f in s.files && g in s.files && HasBit(s.files[f].flags, k) && HasBit(s.files[g].flags, k)
    ensures f == g && k in s.owner && s.owner[k] == f
  {
    assert FlagsOwn(s);
    assert s.owner[k] == f;
    assert s.owner[k] == g;
  }

  /** No mutex stays held by a file that is not open, so closing a file gives back all it held. */
  lemma ClosedHoldsNothing(evs: seq<Event>, k: Lock)
    requires After(evs).Some? && forall i :: 0 <= i < |evs| ==> ValidType(evs[i])
    ensures var s := After(evs).value; k in s.owner ==> s.owner[k] in s.files
  {
    hide After, HasBit;
    RunKeeps(evs);
  }

  // ----- lock types that are not one of the five bits

  /** GET_LOCK and RELEASE_LOCK as whole calls of an idle file. */
  function GetLock(s: State, f: nat, lockType: Mask): State
    requires Enabled(s, Take(f, lockType))
  {
    Apply(Apply(s, Take(f, lockType)), SetFlag(f))
  }

  function ReleaseLock(s: State, f: nat, lockType: Mask): State
    requires Enabled(s, ClearFlag(f, lockType))
  {
    Apply(Apply(s, ClearFlag(f, lockType)), Unlock(f))
  }

  /** A type that names no mutex leaves the owners alone and only changes the flag word. */
  lemma NoMutex(s: State, f: nat, lockType: Mask)
    requires IdleFile(s, f) && LockOf(lockType).None?
    ensures GetLock(s, f, lockType) == State(s.files[f := File(s.files[f].flags + lockType, Idle)], s.owner)
    ensures Enabled(s, ClearFlag(f, lockType)) ==>
      ReleaseLock(s, f, lockType) == State(s.files[f := File(s.files[f].flags - lockType, Idle)], s.owner)
  {
    hide LockOf;
  }

  /** New flags for an idle file keep the invariant exactly when they have the same lock bits as before. */
  lemma FlagsExact(s: State, f: nat, flags: Mask)
    requires LockInv(s) && IdleFile(s, f)
    ensures LockInv(State(s.files[f := File(flags, Idle)], s.owner)) <==>
      forall k :: HasBit(flags, k) <==> HasBit(s.files[f].flags, k)
  {
    hide LockOf, HasBit;
    var s' := State(s.files[f := File(flags, Idle)], s.owner);
    if forall k :: HasBit(flags, k) <==> HasBit(s.files[f].flags, k) {
      assert FlagsOwn(s') && MidCall(s') && OwnersKnow(s');
    } else {
      var k :| HasBit(flags, k) != HasBit(s.files[f].flags, k);
      BitMatters(s, f, flags, k);
    }
  }

  lemma BitMatters(s: State, f: nat, flags: Mask, k: Lock)
    requires LockInv(s) && IdleFile(s, f) && HasBit(flags, k) != HasBit(s.files[f].flags, k)
    ensures !LockInv(State(s.files[f := File(flags, Idle)], s.owner))
  {
    hide LockOf, HasBit;
    var s' := State(s.files[f := File(flags, Idle)], s.owner);
    OwnsItsBits(s, f, k);
    if HasBit(flags, k) {
      assert HasBit(s'.files[f].flags, k);
      assert !FlagsOwn(s');
    } else {
      assert s'.owner[k] == f;
      assert !OwnersKnow(s');
    }
  }

  /** GET_LOCK keeps the invariant if and only if the type is one of the five bits or brings no new lock bit. */
  lemma GetLockExact(s: State, f: nat, lockType: Mask)
    requires LockInv(s) && Enabled(s, Take(f, lockType))
    ensures LockInv(GetLock(s, f, lockType)) <==>
      LockOf(lockType).Some? || forall k :: HasBit(lockType, k) ==> HasBit(s.files[f].flags, k)
  {
    hide LockInv, LockOf;
    if LockOf(lockType).Some? {
      StepKeeps(s, Take(f, lockType));
      StepKeeps(Apply(s, Take(f, lockType)), SetFlag(f));
    } else {
      NoMutex(s, f, lockType);
      FlagsExact(s, f, s.files[f].flags + lockType);
      assert forall k :: HasBit(s.files[f].flags + lockType, k) <==> HasBit(s.files[f].flags, k) || HasBit(lockType, k);
    }
  }

  /** RELEASE_LOCK keeps the invariant if and only if the type is one of the five bits or drops no lock bit. */
  lemma ReleaseExact(s: State, f: nat, lockType: Mask)
    requires LockInv(s) && Enabled(s, ClearFlag(f, lockType))
    ensures LockInv(ReleaseLock(s, f, lockType)) <==>
      LockOf(lockType).Some? || forall k :: HasBit(lockType, k) ==> !HasBit(s.files[f].flags, k)
  {
    hide LockInv, LockOf;
    if LockOf(lockType).Some? {
      StepKeeps(s, ClearFlag(f, lockType));
      StepKeeps(Apply(s, ClearFlag(f, lockType)), Unlock(f));
    } else {
      NoMutex(s, f, lockType);
      FlagsExact(s, f, s.files[f].flags - lockType);
      assert forall k :: HasBit(s.files[f].flags - lockType, k) <==>
        HasBit(s.files[f].flags, k) && !HasBit(lockType, k);
    }
  }

  /**
   When that file is then closed, exactly the mutexes of the dropped bits stay held by a file that is no longer
   open.
   */
  lemma LeakExact(s: State, f: nat, lockType: Mask, k: Lock)
    requires LockInv(s) && Enabled(s, ClearFlag(f, lockType))
    ensures var s' := Apply(ReleaseLock(s, f, lockType), Close(f));
      f !in s'.files &&
      (k in s'.owner && s'.owner[k] == f <==>
        LockOf(lockType).None? && HasBit(lockType, k) && HasBit(s.files[f].flags, k))
  {
    hide LockInv, LockOf;
    if LockOf(lockType).Some? {
      StepKeeps(s, ClearFlag(f, lockType));
      StepKeeps(Apply(s, ClearFlag(f, lockType)), Unlock(f));
      StepKeeps(ReleaseLock(s, f, lockType), Close(f));
      OwnersOpen(Apply(ReleaseLock(s, f, lockType), Close(f)), k);
    } else {
      NoMutex(s, f, lockType);
      OwnsItsBits(s, f, k);
    }
  }

  lemma OwnersOpen(s: State, k: Lock)
    requires LockInv(s)
    ensures k in s.owner ==> s.owner[k] in s.files
  {
    hide LockOf;
  }

  lemma OwnsItsBits(s: State, f: nat, k: Lock)
    requires LockInv(s) && IdleFile(s, f)
    ensures HasBit(s.files[f].flags, k) <==> k in s.owner && s.owner[k] == f
  {
    hide LockOf;
  }

  /**
   Closing a file after GET_LOCK unlocks a mutex that another file holds if and only if the type is not one
   of the five bits and has the bit of that mutex.
   */
  lemma StealExact(s: State, g: nat, lockType: Mask, k: Lock)
    requires LockInv(s) && Enabled(s, Take(g, lockType)) && k in s.owner && s.owner[k] != g
    ensures var s' := Apply(GetLock(s, g, lockType), Close(g));
      k !in s'.owner <==> LockOf(lockType).None? && HasBit(lockType, k)
    ensures var s' := Apply(GetLock(s, g, lockType), Close(g));
      s.owner[k] in s'.files && s'.files[s.owner[k]] == s.files[s.owner[k]]
  {
    hide LockInv, LockOf;
    OwnersOpen(s, k);
    OwnsItsBits(s, g, k);
    if LockOf(lockType).Some? {
      TypeBit(lockType);
      BitsDiffer(k, LockOf(lockType).value);
    } else {
      NoMutex(s, g, lockType);
    }
  }

  lemma AfterStep(all: seq<Event>, evs: seq<Event>, ev: Event, s: State, s': State)
    requires After(evs) == Some(s) && Enabled(s, ev) && s' == Apply(s, ev) && all == evs + [ev]
    ensures After(all) == Some(s')
  {
    hide Enabled, Apply;
    assert all[..|evs|] == evs;
  }

  /** GET_LOCK of the free Vdec lock by the first file. */
  lemma FirstLock()
    ensures After([Open(1), Take(1, {0}), SetFlag(1)]) == Some(State(map[1 := File({0}, Idle)], map[Vdec := 1]))
  {
    TwoBits();
    var s1, s2 := State(map[1 := File({}, Idle)], map[]), State(map[1 := File({}, Taken({0}))], map[Vdec := 1]);
    AfterStep([Open(1)], [], Open(1), EMPTY, s1);
    hide LockOf, After;
    AfterStep([Open(1), Take(1, {0})], [Open(1)], Take(1, {0}), s1, s2);
    assert {} + {0} == {0};
    AfterStep([Open(1), Take(1, {0}), SetFlag(1)], [Open(1), Take(1, {0})], SetFlag(1), s2,
              State(map[1 := File({0}, Idle)], map[Vdec := 1]));
  }

  /**
   Type 3 is the bits of Vdec and Venc and names no mutex: a real run in which closing a file unlocks another
   file's mutex.
   */
  lemma StolenInRun()
    ensures After([Open(1), Take(1, {0}), SetFlag(1), Open(2), Take(2, {0, 1}), SetFlag(2), Close(2)])
         == Some(State(map[1 := File({0}, Idle)], map[]))
  {
    TwoBits();
    hide LockOf, After;
    FirstLock();
    var evs := [Open(1), Take(1, {0}), SetFlag(1)];
    var s1 := State(map[1 := File({0}, Idle)], map[Vdec := 1]);
    var s2 := State(map[1 := File({0}, Idle), 2 := File({}, Idle)], map[Vdec := 1]);
    var s3 := State(map[1 := File({0}, Idle), 2 := File({}, Taken({0, 1}))], map[Vdec := 1]);
    var s4 := State(map[1 := File({0}, Idle), 2 := File({0, 1}, Idle)], map[Vdec := 1]);
    AfterStep(evs + [Open(2)], evs, Open(2), s1, s2);
    AfterStep(evs + [Open(2), Take(2, {0, 1})], evs + [Open(2)], Take(2, {0, 1}), s2, s3);
    assert {} + {0, 1} == {0, 1};
    AfterStep(evs + [Open(2), Take(2, {0, 1}), SetFlag(2)], evs + [Open(2), Take(2, {0, 1})], SetFlag(2), s3, s4);
    AfterStep([Open(1), Take(1, {0}), SetFlag(1), Open(2), Take(2, {0, 1}), SetFlag(2), Close(2)],
              evs + [Open(2), Take(2, {0, 1}), SetFlag(2)],
              Close(2), s4, State(map[1 := File({0}, Idle)], map[]));
  }

  /** And one in which RELEASE_LOCK with that type leaves a mutex held by a file that is no longer open. */
  lemma LeakedInRun()
    ensures After([Open(1), Take(1, {0}), SetFlag(1), ClearFlag(1, {0, 1}), Unlock(1), Close(1)])
         == Some(State(map[], map[Vdec := 1]))
  {
    TwoBits();
    hide LockOf, After;
    FirstLock();
    var evs := [Open(1), Take(1, {0}), SetFlag(1)];
    var s1 := State(map[1 := File({0}, Idle)], map[Vdec := 1]);
    var s2 := State(map[1 := File({}, Cleared({0, 1}))], map[Vdec := 1]);
    var s3 := State(map[1 := File({}, Idle)], map[Vdec := 1]);
    assert 0 in s1.files[1].flags * {0, 1} && {0} - {0, 1} == {};
    AfterStep(evs + [ClearFlag(1, {0, 1})], evs, ClearFlag(1, {0, 1}), s1, s2);
    AfterStep(evs + [ClearFlag(1, {0, 1}), Unlock(1)], evs + [ClearFlag(1, {0, 1})], Unlock(1), s2, s3);
    AfterStep([Open(1), Take(1, {0}), SetFlag(1), ClearFlag(1, {0, 1}), Unlock(1), Close(1)],
              evs + [ClearFlag(1, {0, 1}), Unlock(1)], Close(1), s3,
              State(map[], map[Vdec := 1]));
  }

  lemma TwoBits()
    ensures LockOf({0, 1}) == None && LockOf({0}) == Some(Vdec)
  {
    assert 0 in {0, 1} && 1 in {0, 1};
    assert 1 !in {0} && 0 !in {1} && 0 !in {2} && 0 !in {3} && 0 !in {4};
  }
}
