/**
 Whole runs of the coherence machine: what holds in every state, and that the driver's unmap is such
 a run.
 */
module Runs {
  import opened Layouts
  import opened Tables
  import opened Chunks
  import opened Coherence

  ghost predicate IsRun(l: Layout, v: nat, ss: seq<State>, evs: seq<Event>) {
    |ss| == |evs| + 1 && forall i :: 0 <= i < |evs| ==> Next(l, v, ss[i], evs[i], ss[i + 1])
  }

  /** A zeroed directory and flushed caches, as sunxi_iommu_domain_alloc and sunxi_iommu_hw_init leave them. */
  predicate Initial(l: Layout, s: State) {
    && |s.t.dir| == NUM_ENTRIES_PDE && (forall i :: 0 <= i < |s.t.dir| ==> s.t.dir[i] == 0) && s.t.mem == map[]
    && s.tlb == map[] && s.walk == map[] && s.phase == Free
  }

  ghost predicate DisciplinedRun(l: Layout, ss: seq<State>, evs: seq<Event>) {
    |ss| == |evs| + 1 && forall i :: 0 <= i < |evs| ==> Disciplined(l, ss[i], evs[i])
  }

  ghost predicate TearlessRun(l: Layout, ss: seq<State>, evs: seq<Event>) {
    |ss| == |evs| + 1 && forall i :: 0 <= i < |evs| ==> Tearless(l, ss[i], evs[i])
  }

  /** In every reachable state valid slots and live tables are in one-to-one correspondence. */
  lemma {:induction false} OwnershipInRuns(l: Layout, v: nat, ss: seq<State>, evs: seq<Event>, k: nat)
    requires IsRun(l, v, ss, evs) && Initial(l, ss[0]) && k < |ss|
    ensures Inv(l, ss[k].t) && PhaseOk(l, ss[k])
  {
    hide Inv, PhaseOk, Next;
    if k == 0 {
      InitialOk(l, ss[0]);
    } else {
      OwnershipInRuns(l, v, ss, evs, k - 1);
      OwnershipStep(l, v, ss[k - 1], evs[k - 1], ss[k]);
      PhaseStep(l, v, ss[k - 1], evs[k - 1], ss[k]);
    }
  }

  lemma InitialOk(l: Layout, s: State)
    requires Initial(l, s)
    ensures Inv(l, s.t) && PhaseOk(l, s) && WalkInv(l, s) && TlbInv(l, s) && forall v :: SlotsQuiet(l, v, s)
  {
    EmptyInv(l, s.t);
  }

  /**
   Versions V10 to V13, with devices doing anything at any time but tearing a link: whenever the lock is
   free, every walk-cache entry names the live table of its slot.
   */
  lemma WalkCoherentInRuns(l: Layout, v: nat, ss: seq<State>, evs: seq<Event>, k: nat)
    requires v < 0x14 && IsRun(l, v, ss, evs) && Initial(l, ss[0]) && k < |ss| && TearlessRun(l, ss, evs)
    ensures ss[k].phase.Free? ==>
      WalkCoherent(l, ss[k]) && forall sl :: sl in ss[k].walk ==> ss[k].walk[sl] in ss[k].t.mem
  {
    hide Inv, Next, DentValid, DentBase;
    WalkInvInRuns(l, v, ss, evs, k);
    OwnershipInRuns(l, v, ss, evs, k);
    if ss[k].phase.Free? {
      forall sl | sl in ss[k].walk
        ensures WalkOk(l, ss[k], sl) && ss[k].walk[sl] in ss[k].t.mem
      {
        LiveTable(l, ss[k].t, sl);
      }
    }
  }

  lemma {:induction false} WalkInvInRuns(l: Layout, v: nat, ss: seq<State>, evs: seq<Event>, k: nat)
    requires v < VERSION_V14 && IsRun(l, v, ss, evs) && Initial(l, ss[0]) && k < |ss| && TearlessRun(l, ss, evs)
    ensures WalkInv(l, ss[k])
  {
    hide Inv, Next, PhaseOk, WalkInv, Tearless;
    if k == 0 {
      InitialOk(l, ss[0]);
    } else {
      WalkInvInRuns(l, v, ss, evs, k - 1);
      OwnershipInRuns(l, v, ss, evs, k - 1);
      WalkStep(l, v, ss[k - 1], evs[k - 1], ss[k]);
    }
  }

  /** With disciplined devices both caches keep their invariants on every version from V12 on. */
  lemma {:induction false} CacheInvInRuns(l: Layout, v: nat, ss: seq<State>, evs: seq<Event>, k: nat)
    requires v >= VERSION_V12 && IsRun(l, v, ss, evs) && Initial(l, ss[0]) && k < |ss| && DisciplinedRun(l, ss, evs)
    ensures TlbInv(l, ss[k]) && WalkInv(l, ss[k]) && SlotsQuiet(l, v, ss[k])
  {
    hide Inv, Next, PhaseOk, WalkInv, TlbInv, Harmless, Tearless;
    if k == 0 {
      InitialOk(l, ss[0]);
    } else {
      CacheInvInRuns(l, v, ss, evs, k - 1);
      OwnershipInRuns(l, v, ss, evs, k - 1);
      TlbStep(l, v, ss[k - 1], evs[k - 1], ss[k]);
      if v < VERSION_V14 {
        WalkStep(l, v, ss[k - 1], evs[k - 1], ss[k]);
      } else {
        WalkStepRanged(l, v, ss[k - 1], evs[k - 1], ss[k]);
      }
    }
  }

  /**
   From V12 on, in any interleaving with disciplined devices: whenever the lock is free, every TLB
   entry is the current translation of its page, and the walk cache is coherent too.
   */
  lemma TlbCoherentInRuns(l: Layout, v: nat, ss: seq<State>, evs: seq<Event>, k: nat)
    requires v >= 0x12 && IsRun(l, v, ss, evs) && Initial(l, ss[0]) && k < |ss| && DisciplinedRun(l, ss, evs)
    ensures ss[k].phase.Free? ==>
      && (forall pg :: pg in ss[k].tlb ==> pg in Abs(l, ss[k].t) && ss[k].tlb[pg] == Abs(l, ss[k].t)[pg])
      && WalkCoherent(l, ss[k])
  {
    hide Inv, Next, EntryAt, DecodePte;
    CacheInvInRuns(l, v, ss, evs, k);
    if ss[k].phase.Free? {
      assert forall pg :: pg in ss[k].tlb ==> TlbOk(l, ss[k], pg);
    }
  }

  /** So a device that translates while the lock is free gets the page map's answer, from whichever cache. */
  lemma DeviceTranslates(l: Layout, v: nat, ss: seq<State>, evs: seq<Event>, k: nat, pg: nat, w: Word, s': State)
    requires v >= 0x12 && IsRun(l, v, ss, evs) && Initial(l, ss[0]) && k < |ss| && DisciplinedRun(l, ss, evs)
    requires ss[k].phase.Free? && Walks(l, ss[k], pg, w, s')
    ensures var m := Abs(l, ss[k].t);
      if pg in ss[k].tlb then pg in m && ss[k].tlb[pg] == m[pg]
      else if l.Slot(pg) in ss[k].walk || ValidSlot(ss[k].t, l.Slot(pg)) then
        (PteValid(w) <==> pg in m) && (pg in m ==> DecodePte(l, w) == m[pg])
      else pg !in m
  {
    hide Inv, Next, DecodePte, DentValid, DentBase, PteValid;
    TlbCoherentInRuns(l, v, ss, evs, k);
    CacheInvInRuns(l, v, ss, evs, k);
    OwnershipInRuns(l, v, ss, evs, k);
    var s := ss[k];
    if pg !in s.tlb && (l.Slot(pg) in s.walk || ValidSlot(s.t, l.Slot(pg))) {
      DeviceReads(l, s, pg, w, s');
      ProperEntry(l, s.t, pg);
    }
  }

  lemma ProperEntry(l: Layout, t: Table, pg: nat)
    requires Inv(l, t)
    ensures PteValid(EntryAt(l, t, pg)) <==> EntryAt(l, t, pg) != 0
  {
    assert !PteValid(0);
    hide PteValid, DentValid, DentBase;
    if ValidSlot(t, l.Slot(pg)) {
      LiveTable(l, t, l.Slot(pg));
    }
  }

  // ----- pages outside the range

  /** The range that the holder of the lock works on. */
  ghost predicate Working(s: State, lo: nat, hi: nat) {
    (s.phase.InMap? || s.phase.InUnmap?) && s.phase.lo == lo && s.phase.hi == hi
  }

  lemma EntryStep(l: Layout, v: nat, s: State, ev: Event, s': State, lo: nat, hi: nat, pg: nat)
    requires Inv(l, s.t) && PhaseOk(l, s) && Next(l, v, s, ev, s') && pg < l.NumPages()
    requires Working(s, lo, hi) || (s.phase.Free? && Working(s', lo, hi))
    ensures var e, e' := EntryAt(l, s.t, pg), EntryAt(l, s'.t, pg);
      e' == e || (!s.phase.Free? && InRange(lo, hi, pg) && (if s.phase.InMap? then e == 0 else e' == 0))
  {
    hide DentValid, DentBase, PteValid, Inv, EntryAt, PutWord, Drop, Install, ChunkCount, DecodePte,
         Layout.Slot;
    match ev
    case LinkTable(sl, b) => InstallEntry(l, s.t, sl, b, pg);
    case StoreEntry(p, e) => PutWordEntry(l, s.t, p, e, pg);
    case ZeroEntry(p) =>
      ChunkShape(l, s.phase.cur, s.phase.hi);
      PutWordEntry(l, s.t, p, 0, pg);
    case EndChunk => EndChunkEntry(l, s, s', pg);
    case _ =>
  }

  /**
   At every moment of a map or unmap, in any interleaving: every page outside the range keeps the entry
   it had when the lock was taken, and a page inside has its old entry, or is filled if it was empty (map)
   or is empty (unmap).
   */
  lemma {:induction false} OtherPagesKeep(l: Layout, v: nat, ss: seq<State>, evs: seq<Event>,
                                          i: nat, k: nat, lo: nat, hi: nat, pg: nat)
    requires IsRun(l, v, ss, evs) && Initial(l, ss[0]) && i < k < |ss| && ss[i].phase.Free? && pg < l.NumPages()
    requires forall j :: i < j <= k ==> Working(ss[j], lo, hi) && ss[j].phase.InMap? == ss[k].phase.InMap?
    ensures var e, e' := EntryAt(l, ss[i].t, pg), EntryAt(l, ss[k].t, pg);
      e' == e || (InRange(lo, hi, pg) && (if ss[k].phase.InMap? then e == 0 else e' == 0))
    decreases k
  {
    hide Inv, PhaseOk, Next, EntryAt;
    OwnershipInRuns(l, v, ss, evs, k - 1);
    EntryStep(l, v, ss[k - 1], evs[k - 1], ss[k], lo, hi, pg);
    if k - 1 > i {
      OtherPagesKeep(l, v, ss, evs, i, k - 1, lo, hi, pg);
    }
  }

  // ----- the driver's unmap as a run without device steps

  predicate DriverOnly(evs: seq<Event>) {
    forall i :: 0 <= i < |evs| ==> !evs[i].Access? && !evs[i].Evict?
  }

  /** What the unmap loop does to the table and the walk cache when nothing else runs. */
  function UnmapLoop(l: Layout, v: nat, s: State): State
    requires s.phase.InUnmap? && s.phase.stage.Clearing?
    decreases s.phase.hi - s.phase.cur
  {
    var cur, hi := s.phase.cur, s.phase.hi;
    if cur >= hi then s.(phase := Free) else
    var walk := if v < VERSION_V14 then s.walk - {l.Slot(cur)} else s.walk;
    if !ValidSlot(s.t, l.Slot(cur)) || Base(l, s.t, l.Slot(cur)) !in s.t.mem then s.(walk := walk, phase := Free) else
    ChunkShape(l, cur, hi);
    UnmapLoop(l, v, s.(t := DeleteChunk(l, s.t, cur, hi), walk := walk,
                       phase := s.phase.(cur := cur + ChunkCount(l, cur, hi))))
  }

  lemma {:induction false} UnmapLoopTable(l: Layout, v: nat, s: State)
    requires s.phase.InUnmap? && s.phase.stage.Clearing?
    ensures UnmapLoop(l, v, s).t == UnmapTable(l, s.t, s.phase.cur, s.phase.hi)
    ensures UnmapLoop(l, v, s).tlb == s.tlb && UnmapLoop(l, v, s).phase.Free?
    decreases s.phase.hi - s.phase.cur
  {
    hide DeleteChunk, DentValid, DentBase, ChunkCount, Layout.Slot;
    var cur, hi := s.phase.cur, s.phase.hi;
    if cur < hi && ValidSlot(s.t, l.Slot(cur)) && Base(l, s.t, l.Slot(cur)) in s.t.mem {
      ChunkShape(l, cur, hi);
      var walk := if v < VERSION_V14 then s.walk - {l.Slot(cur)} else s.walk;
      UnmapLoopTable(l, v, s.(t := DeleteChunk(l, s.t, cur, hi), walk := walk,
                              phase := s.phase.(cur := cur + ChunkCount(l, cur, hi))));
    }
  }

  /**
   Below V14 the loop drops from the walk cache the slot of every page that it clears, and no slot outside the
   range.
   */
  lemma {:induction false} LoopDropsSlots(l: Layout, v: nat, s: State, pg: nat)
    requires v < 0x14 && s.phase.InUnmap? && s.phase.stage.Clearing? && s.phase.cur <= s.phase.hi <= l.NumPages()
    requires Inv(l, s.t)
    ensures var walk := UnmapLoop(l, v, s).walk;
      && walk.Keys <= s.walk.Keys
      && (s.phase.cur <= pg < UnmapStop(l, s.t, s.phase.cur, s.phase.hi) ==> l.Slot(pg) !in walk)
    decreases s.phase.hi - s.phase.cur
  {
    hide DeleteChunk, DentValid, DentBase, Inv, ChunkCount, Layout.Slot, Layout.Index;
    var cur, hi := s.phase.cur, s.phase.hi;
    if cur < hi && ValidSlot(s.t, l.Slot(cur)) {
      LiveTable(l, s.t, l.Slot(cur));
      ChunkShape(l, cur, hi);
      ChunkPage(l, cur, hi, pg);
      DeleteChunkKeeps(l, s.t, cur, hi);
      StopAfterChunk(l, s.t, cur, hi);
      LoopDropsSlots(l, v, s.(t := DeleteChunk(l, s.t, cur, hi), walk := s.walk - {l.Slot(cur)},
                              phase := s.phase.(cur := cur + ChunkCount(l, cur, hi))), pg);
    }
  }

  /** Slots without a page of the range keep their entry on every version. */
  lemma {:induction false} LoopKeepsSlots(l: Layout, v: nat, s: State, sl: nat)
    requires s.phase.InUnmap? && s.phase.stage.Clearing? && sl in s.walk
    requires forall pg :: s.phase.cur <= pg < s.phase.hi ==> l.Slot(pg) != sl
    ensures var walk := UnmapLoop(l, v, s).walk; sl in walk && walk[sl] == s.walk[sl]
    decreases s.phase.hi - s.phase.cur
  {
    hide DeleteChunk, DentValid, DentBase, ChunkCount, Layout.Slot, Layout.Index;
    var cur, hi := s.phase.cur, s.phase.hi;
    if cur < hi {
      assert l.Slot(cur) != sl;
      if ValidSlot(s.t, l.Slot(cur)) && Base(l, s.t, l.Slot(cur)) in s.t.mem {
        ChunkShape(l, cur, hi);
        var walk := if v < VERSION_V14 then s.walk - {l.Slot(cur)} else s.walk;
        LoopKeepsSlots(l, v, s.(t := DeleteChunk(l, s.t, cur, hi), walk := walk,
                                phase := s.phase.(cur := cur + ChunkCount(l, cur, hi))), sl);
      }
    }
  }

  /** Runs that follow each other, and runs with one more step in front. */
  lemma JoinRuns(l: Layout, v: nat, ss: seq<State>, evs: seq<Event>, ss': seq<State>, evs': seq<Event>)
    requires IsRun(l, v, ss, evs) && IsRun(l, v, ss', evs') && ss[|evs|] == ss'[0]
    ensures IsRun(l, v, ss + ss'[1..], evs + evs') && (ss + ss'[1..])[0] == ss[0]
    ensures (ss + ss'[1..])[|evs + evs'|] == ss'[|evs'|]
  {
    hide Next;
    var all, es := ss + ss'[1..], evs + evs';
    forall i | 0 <= i < |es|
      ensures Next(l, v, all[i], es[i], all[i + 1])
    {
      if i >= |evs| {
        assert Next(l, v, ss'[i - |evs|], evs'[i - |evs|], ss'[i - |evs| + 1]);
      }
    }
  }

  lemma StepRun(l: Layout, v: nat, s: State, ev: Event, s': State)
    requires Next(l, v, s, ev, s')
    ensures IsRun(l, v, [s, s'], [ev])
  {
  }

  lemma ZeroOneMore(l: Layout, t: Table, cur: nat, hi: nat, i: nat)
    requires Inv(l, t) && cur < hi <= l.NumPages() && ValidSlot(t, l.Slot(cur)) && i < ChunkCount(l, cur, hi)
    ensures Base(l, t, l.Slot(cur)) in t.mem
    ensures var t1 := ZeroChunk(l, t, cur, i);
      LivePage(l, t1, cur + i) && PutWord(l, t1, cur + i, 0) == ZeroChunk(l, t, cur, i + 1)
  {
    hide DentValid, DentBase, PteValid, Inv;
    var s := l.Slot(cur);
    LiveTable(l, t, s);
    ChunkPage(l, cur, hi, cur + i);
    ChunkShape(l, cur, hi);
    var words := t.mem[Base(l, t, s)];
    var w1 := ZeroRun(words, l.Index(cur), i);
    assert w1[l.Index(cur) + i := 0] == ZeroRun(words, l.Index(cur), i + 1);
  }

  /** The memset of a chunk, entry by entry. */
  lemma {:induction false} ZeroSteps(l: Layout, v: nat, s: State, t: Table, i: nat)
    returns (ss: seq<State>, evs: seq<Event>)
    requires InClearing(s) && s.phase.hi <= l.NumPages() && Inv(l, t) && ValidSlot(t, l.Slot(s.phase.cur))
    requires Base(l, t, l.Slot(s.phase.cur)) in t.mem
    requires i <= ChunkCount(l, s.phase.cur, s.phase.hi) && s.t == ZeroChunk(l, t, s.phase.cur, i)
    ensures IsRun(l, v, ss, evs) && ss[0] == s && DriverOnly(evs)
    ensures ss[|evs|] == s.(t := ZeroChunk(l, t, s.phase.cur, ChunkCount(l, s.phase.cur, s.phase.hi)))
    decreases ChunkCount(l, s.phase.cur, s.phase.hi) - i
  {
    hide ZeroChunk, PutWord, DentValid, DentBase, PteValid, Inv, ChunkCount, LivePage, Layout.Slot;
    if i == ChunkCount(l, s.phase.cur, s.phase.hi) {
      ss, evs := [s], [];
    } else {
      ZeroOneMore(l, t, s.phase.cur, s.phase.hi, i);
      var s1 := s.(t := ZeroChunk(l, t, s.phase.cur, i + 1));
      var ss', evs' := ZeroSteps(l, v, s1, t, i + 1);
      LiveMeans(l, s.t, s.phase.cur + i);
      assert Next(l, v, s, ZeroEntry(s.phase.cur + i), s1);
      StepRun(l, v, s, ZeroEntry(s.phase.cur + i), s1);
      JoinRuns(l, v, [s, s1], [ZeroEntry(s.phase.cur + i)], ss', evs');
      ss, evs := [s, s1] + ss'[1..], [ZeroEntry(s.phase.cur + i)] + evs';
    }
  }

  lemma LiveMeans(l: Layout, t: Table, pg: nat)
    requires LivePage(l, t, pg)
    ensures ValidSlot(t, l.Slot(pg)) && Base(l, t, l.Slot(pg)) in t.mem
    ensures l.Index(pg) < |t.mem[Base(l, t, l.Slot(pg))]|
  {
  }

  /** One round of the unmap loop on a valid slot, from the memset to the advance of the address. */
  lemma ChunkRun(l: Layout, v: nat, s: State) returns (ss: seq<State>, evs: seq<Event>)
    requires InClearing(s) && s.phase.hi <= l.NumPages() && Inv(l, s.t) && ValidSlot(s.t, l.Slot(s.phase.cur))
    ensures Base(l, s.t, l.Slot(s.phase.cur)) in s.t.mem
    ensures |ss| == |evs| + 1 && IsRun(l, v, ss, evs) && ss[0] == s && DriverOnly(evs)
    ensures ss[|evs|] == s.(t := DeleteChunk(l, s.t, s.phase.cur, s.phase.hi),
                            walk := if v < VERSION_V14 then s.walk - {l.Slot(s.phase.cur)} else s.walk,
                            phase := s.phase.(cur := s.phase.cur + ChunkCount(l, s.phase.cur, s.phase.hi)))
  {
    hide ZeroChunk, DentValid, DentBase, PteValid, Inv, ChunkCount, Drop, EntryAt, Layout.Slot;
    var cur, hi, n := s.phase.cur, s.phase.hi, ChunkCount(l, s.phase.cur, s.phase.hi);
    LiveTable(l, s.t, l.Slot(cur));
    ZeroNone(l, s.t, cur);
    ss, evs := ZeroSteps(l, v, s, s.t, 0);
    var s1 := s.(t := ZeroChunk(l, s.t, cur, n));
    ZeroChunkKeeps(l, s.t, cur, n);
    forall pg | cur <= pg < cur + n
      ensures EntryAt(l, s1.t, pg) == 0
    {
      ZeroChunkEntry(l, s.t, cur, hi, pg);
    }
    var s2 := s1.(t := DeleteChunk(l, s.t, cur, hi), phase := s.phase.(stage := Invalidating(cur + n)));
    assert Next(l, v, s1, EndChunk, s2);
    StepRun(l, v, s1, EndChunk, s2);
    JoinRuns(l, v, ss, evs, [s1, s2], [EndChunk]);
    ss, evs := ss + [s1, s2][1..], evs + [EndChunk];
    var s3 := s2.(walk := if v < VERSION_V14 then s.walk - {l.Slot(cur)} else s.walk,
                  phase := s.phase.(cur := cur + n));
    assert Next(l, v, s2, Invalidate, s3);
    StepRun(l, v, s2, Invalidate, s3);
    JoinRuns(l, v, ss, evs, [s2, s3], [Invalidate]);
    ss, evs := ss + [s2, s3][1..], evs + [Invalidate];
  }

  lemma ZeroNone(l: Layout, t: Table, cur: nat)
    requires ValidSlot(t, l.Slot(cur)) && Base(l, t, l.Slot(cur)) in t.mem
    ensures ZeroChunk(l, t, cur, 0) == t
  {
    var words := t.mem[Base(l, t, l.Slot(cur))];
    assert ZeroRun(words, l.Index(cur), 0) == words;
    assert t.mem[Base(l, t, l.Slot(cur)) := words] == t.mem;
  }

  /** The unmap loop is a run of the machine that ends with the lock free in the state `UnmapLoop` gives. */
  lemma {:induction false} UnmapRun(l: Layout, v: nat, s: State) returns (ss: seq<State>, evs: seq<Event>)
    requires s.phase.InUnmap? && s.phase.stage.Clearing? && s.phase.cur <= s.phase.hi <= l.NumPages() && Inv(l, s.t)
    ensures |ss| == |evs| + 1 && IsRun(l, v, ss, evs) && DriverOnly(evs) && ss[0] == s
    ensures ss[|evs|] == UnmapLoop(l, v, s)
    decreases s.phase.hi - s.phase.cur
  {
    hide DeleteChunk, DentValid, DentBase, PteValid, Inv, ChunkCount, EntryAt, IsRun, Layout.Slot;
    var cur, hi := s.phase.cur, s.phase.hi;
    if cur == hi {
      StepRun(l, v, s, UnlockUnmap, s.(phase := Free));
      ss, evs := [s, s.(phase := Free)], [UnlockUnmap];
    } else if ValidSlot(s.t, l.Slot(cur)) {
      ss, evs := ChunkRun(l, v, s);
      var s1 := ss[|evs|];
      ChunkShape(l, cur, hi);
      DeleteChunkKeeps(l, s.t, cur, hi);
      var ss', evs' := UnmapRun(l, v, s1);
      JoinRuns(l, v, ss, evs, ss', evs');
      ss, evs := ss + ss'[1..], evs + evs';
    } else {
      ss, evs := SkipRun(l, v, s);
    }
  }

  /** A slot that is not valid ends the loop: the error code is added to the address as a size. */
  lemma SkipRun(l: Layout, v: nat, s: State) returns (ss: seq<State>, evs: seq<Event>)
    requires InClearing(s) && s.phase.hi <= l.NumPages() && !ValidSlot(s.t, l.Slot(s.phase.cur))
    ensures |ss| == |evs| + 1 && IsRun(l, v, ss, evs) && DriverOnly(evs) && ss[0] == s
    ensures ss[|evs|] == UnmapLoop(l, v, s)
  {
    hide DentValid, DentBase, PteValid, Layout.Slot;
    var cur, hi := s.phase.cur, s.phase.hi;
    var s1 := s.(phase := s.phase.(stage := Invalidating(hi)));
    var walk := if v < VERSION_V14 then s.walk - {l.Slot(cur)} else s.walk;
    var s2 := s.(walk := walk, phase := s.phase.(cur := hi));
    var s3 := s2.(phase := Free);
    ss, evs := [s, s1, s2, s3], [SkipChunk, Invalidate, UnlockUnmap];
    assert Next(l, v, s, SkipChunk, s1) && Next(l, v, s1, Invalidate, s2) && Next(l, v, s2, UnlockUnmap, s3);
  }

  /** A run of driver steps alone leads from s to s'. */
  ghost predicate Leads(l: Layout, v: nat, s: State, s': State) {
    exists ss, evs :: IsRun(l, v, ss, evs) && DriverOnly(evs) && ss[0] == s && ss[|evs|] == s'
  }

  lemma LeadsBy(l: Layout, v: nat, ss: seq<State>, evs: seq<Event>)
    requires IsRun(l, v, ss, evs) && DriverOnly(evs)
    ensures Leads(l, v, ss[0], ss[|evs|])
  {
    hide Next;
  }

  lemma LeadsStep(l: Layout, v: nat, s: State, ev: Event, s': State)
    requires Next(l, v, s, ev, s') && !ev.Access? && !ev.Evict?
    ensures Leads(l, v, s, s')
  {
    hide Next;
    LeadsBy(l, v, [s, s'], [ev]);
  }

  lemma LeadsJoin(l: Layout, v: nat, s: State, s1: State, s2: State)
    requires Leads(l, v, s, s1) && Leads(l, v, s1, s2)
    ensures Leads(l, v, s, s2)
  {
    hide Next;
    var ss, evs :| IsRun(l, v, ss, evs) && DriverOnly(evs) && ss[0] == s && ss[|evs|] == s1;
    var ss', evs' :| IsRun(l, v, ss', evs') && DriverOnly(evs') && ss'[0] == s1 && ss'[|evs'|] == s2;
    JoinRuns(l, v, ss, evs, ss', evs');
    LeadsBy(l, v, ss + ss'[1..], evs + evs');
  }

  /** The state right after the lock is taken and the ranged invalidations are done. */
  function Locked(l: Layout, v: nat, s: State, lo: nat, hi: nat): State {
    State(s.t, TlbAfter(l, v, s.tlb, lo, hi), WalkAfter(l, v, s.walk, lo, hi), InUnmap(lo, hi, lo, Clearing))
  }

  // ----- reachable states

  /** A run of driver and device steps in which no link is torn leads from s to s'. */
  ghost predicate Reach(l: Layout, v: nat, s: State, s': State) {
    exists ss, evs :: IsRun(l, v, ss, evs) && TearlessRun(l, ss, evs) && ss[0] == s && ss[|evs|] == s'
  }

  lemma ReachBy(l: Layout, v: nat, ss: seq<State>, evs: seq<Event>)
    requires IsRun(l, v, ss, evs) && TearlessRun(l, ss, evs)
    ensures Reach(l, v, ss[0], ss[|evs|])
  {
    hide Next, Tearless;
  }

  lemma ReachStep(l: Layout, v: nat, s: State, ev: Event, s': State)
    requires Next(l, v, s, ev, s') && Tearless(l, s, ev)
    ensures Reach(l, v, s, s')
  {
    hide Next, Tearless;
    ReachBy(l, v, [s, s'], [ev]);
  }

  lemma ReachLeads(l: Layout, v: nat, s: State, s': State)
    requires Leads(l, v, s, s')
    ensures Reach(l, v, s, s')
  {
    hide Next;
    var ss, evs :| IsRun(l, v, ss, evs) && DriverOnly(evs) && ss[0] == s && ss[|evs|] == s';
    ReachBy(l, v, ss, evs);
  }

  lemma JoinTearless(l: Layout, ss: seq<State>, evs: seq<Event>, ss': seq<State>, evs': seq<Event>)
    requires TearlessRun(l, ss, evs) && TearlessRun(l, ss', evs') && ss[|evs|] == ss'[0]
    ensures TearlessRun(l, ss + ss'[1..], evs + evs')
  {
    hide Tearless;
    var all, es := ss + ss'[1..], evs + evs';
    forall i | 0 <= i < |es|
      ensures Tearless(l, all[i], es[i])
    {
      if i >= |evs| {
        assert Tearless(l, ss'[i - |evs|], evs'[i - |evs|]);
      }
    }
  }

  lemma ReachJoin(l: Layout, v: nat, s: State, s1: State, s2: State)
    requires Reach(l, v, s, s1) && Reach(l, v, s1, s2)
    ensures Reach(l, v, s, s2)
  {
    hide Next, Tearless;
    var ss, evs :| IsRun(l, v, ss, evs) && TearlessRun(l, ss, evs) && ss[0] == s && ss[|evs|] == s1;
    var ss', evs' :| IsRun(l, v, ss', evs') && TearlessRun(l, ss', evs') && ss'[0] == s1 && ss'[|evs'|] == s2;
    JoinRuns(l, v, ss, evs, ss', evs');
    JoinTearless(l, ss, evs, ss', evs');
    ReachBy(l, v, ss + ss'[1..], evs + evs');
  }
}
