/**
 Inputs at which the code does not do what one would expect, each reached from an empty table by map
 calls that succeed, and runs from the initial state that end with a stale cache.
 */
module Failures {
  import opened Layouts
  import opened Tables
  import opened Chunks
  import opened Refinement
  import opened Dumps
  import opened Coherence
  import opened Runs
  import opened CallRuns
  import opened Staleness

  const NO_RIGHTS := Rights(false, false)
  const READ := Rights(true, false)

  /** The address of the only second-level table in these examples, and of the frames they map. */
  const TABLE: nat := 0x4000_0000
  const FRAME: nat := 0x5000_0000

  function EmptyTable(): Table {
    Table(seq(NUM_ENTRIES_PDE, i => 0), map[])
  }

  lemma EmptyTableInv(l: Layout)
    ensures Inv(l, EmptyTable()) && Abs(l, EmptyTable()) == map[] && |EmptyTable().dir| == NUM_ENTRIES_PDE
    ensures EmptyTable().mem == map[]
    ensures forall s :: !ValidSlot(EmptyTable(), s)
  {
    EmptyInv(l, EmptyTable());
    ZeroIsInvalid();
    hide DentValid;
  }

  /** The table after a first map call whose range lies in one slot. */
  function FirstMap(l: Layout, lo: nat, hi: nat, paddr: nat, prot: Rights): Table
    requires lo < l.NumPages()
  {
    FillTable(l, Install(l, EmptyTable(), l.Slot(lo), TABLE), lo, hi, ToIommu(l, paddr), prot)
  }

  lemma FirstMapEffect(l: Layout, lo: nat, hi: nat, paddr: nat, prot: Rights)
    requires lo < hi <= l.NumPages() && l.Slot(hi - 1) == l.Slot(lo) && LegalRange(l, lo, hi, paddr)
    ensures var t := FirstMap(l, lo, hi, paddr, prot);
      Inv(l, t) && Effect(l, EmptyTable(), MapOp(lo, hi, paddr, prot), true, t) &&
      forall s :: ValidSlot(t, s) <==> s == l.Slot(lo)
  {
    hide Inv, EntryAt, FillTable, DentValid, DentBase, Install, EmptyTable, Abs, ChunkWord, Layout.Index;
    var t0, s := EmptyTable(), l.Slot(lo);
    EmptyTableInv(l);
    var t1 := Install(l, t0, s, TABLE);
    InstallInv(l, t0, s, TABLE);
    forall pg | 0 <= pg < l.NumPages()
      ensures EntryAt(l, t1, pg) == EntryAt(l, t0, pg)
    {
      InstallEntry(l, t0, s, TABLE, pg);
    }
    DirLength(l, t1);
    assert SlotsValid(l, t1, lo, hi);
    assert Prepared(l, t0, t1, lo, hi);
    RelocatedAligned(l, paddr, 0);
    FillTableEntries(l, t1, lo, lo, hi, ToIommu(l, paddr), prot);
    var t := FirstMap(l, lo, hi, paddr, prot);
    forall k
      ensures ValidSlot(t, k) <==> k == s
    {
      assert ValidSlot(t, k) <==> ValidSlot(t1, k);
    }
  }

  lemma CarryCase()
    ensures LegalRange(V2, 0, 2, 0xFFFF_F000) && !NoCarry(V2, 0, 2, 0xFFFF_F000)
  {
    assert !KeepsHigh(V2, 0, 0xFFFF_F000, 1);
  }

  /** Two pages of physical memory around 4 GiB: the second page does not get its frame. */
  lemma CarryIsLost()
    ensures LegalRange(V2, 0, 2, 0xFFFF_F000) && !NoCarry(V2, 0, 2, 0xFFFF_F000)
    ensures var t := FirstMap(V2, 0, 2, 0xFFFF_F000, READ);
      Effect(V2, EmptyTable(), MapOp(0, 2, 0xFFFF_F000, READ), true, t) &&
      Abs(V2, t) != RangeMap(0, 2, 0xFFFF_F000, READ)
  {
    CarryCase();
    hide Inv, FirstMap, Abs, Effect, NoCarry, LegalRange;
    EmptyTableInv(V2);
    FirstMapEffect(V2, 0, 2, 0xFFFF_F000, READ);
    var op := MapOp(0, 2, 0xFFFF_F000, READ);
    EffectRefines(V2, EmptyTable(), op, true, FirstMap(V2, 0, 2, 0xFFFF_F000, READ));
    assert map[] + RangeMap(0, 2, 0xFFFF_F000, READ) == RangeMap(0, 2, 0xFFFF_F000, READ);
  }

  lemma NoCarryOnV1(lo: nat, hi: nat, paddr: nat)
    ensures NoCarry(V1, lo, hi, paddr)
  {
  }

  /** Page 256 alone is mapped; unmapping [0, 512) stops at the empty slot 0 and removes nothing. */
  lemma UnmapIsLost()
    ensures var t := FirstMap(V1, 256, 257, FRAME, READ);
      Effect(V1, EmptyTable(), MapOp(256, 257, FRAME, READ), true, t) &&
      256 in Abs(V1, t) && UnmapTable(V1, t, 0, 512) == t
  {
    hide Inv, FirstMap, Abs, Effect, NoCarry;
    EmptyTableInv(V1);
    FirstMapEffect(V1, 256, 257, FRAME, READ);
    var op, t := MapOp(256, 257, FRAME, READ), FirstMap(V1, 256, 257, FRAME, READ);
    NoCarryOnV1(256, 257, FRAME);
    EffectRefines(V1, EmptyTable(), op, true, t);
    assert 256 in RangeMap(256, 257, FRAME, READ);
    assert !ValidSlot(t, V1.Slot(0));
  }

  /**
   Page 0 without rights, then page 1 for reading, by two map calls: by `UniformExact` no dump shows the rights
   of both.
   */
  lemma RightsAreLost() returns (t: Table)
    ensures var t1 := FirstMap(V1, 0, 1, FRAME, NO_RIGHTS);
      Effect(V1, EmptyTable(), MapOp(0, 1, FRAME, NO_RIGHTS), true, t1) &&
      Effect(V1, t1, MapOp(1, 2, FRAME, READ), true, t)
    ensures Inv(V1, t) && RightsGap(V1, t, 0)
  {
    hide Inv, FirstMap, Abs, FillTable, EntryAt, DentValid, DentBase, PteValid, AccessMask;
    EmptyTableInv(V1);
    FirstMapEffect(V1, 0, 1, FRAME, NO_RIGHTS);
    var t1 := FirstMap(V1, 0, 1, FRAME, NO_RIGHTS);
    t := FillTable(V1, t1, 1, 2, ToIommu(V1, FRAME), READ);
    assert Prepared(V1, t1, t1, 1, 2);
    NoCarryOnV1(0, 1, FRAME);
    NoCarryOnV1(1, 2, FRAME);
    EffectRefines(V1, EmptyTable(), MapOp(0, 1, FRAME, NO_RIGHTS), true, t1);
    EffectRefines(V1, t1, MapOp(1, 2, FRAME, READ), true, t);
    assert 0 in RangeMap(0, 1, FRAME, NO_RIGHTS) && 1 in RangeMap(1, 2, FRAME, READ);
    MaskOfRights(V1, t, 0);
    MaskOfRights(V1, t, 1);
  }

  /** Pages 0 and 1 both mapped to one frame, by two map calls: no dump shows the physical address of both. */
  lemma FramesAreLost() returns (t: Table)
    ensures var t1 := FirstMap(V1, 0, 1, FRAME, READ);
      Effect(V1, EmptyTable(), MapOp(0, 1, FRAME, READ), true, t1) &&
      Effect(V1, t1, MapOp(1, 2, FRAME, READ), true, t)
    ensures Inv(V1, t) && PhysGap(V1, t, 0) && forall pg :: 0 <= pg ==> !RightsGap(V1, t, pg)
  {
    hide Inv, FirstMap, Abs, FillTable, EntryAt, DentValid, DentBase, PteValid, AccessMask, DecodePte;
    EmptyTableInv(V1);
    FirstMapEffect(V1, 0, 1, FRAME, READ);
    var t1 := FirstMap(V1, 0, 1, FRAME, READ);
    t := FillTable(V1, t1, 1, 2, ToIommu(V1, FRAME), READ);
    assert Prepared(V1, t1, t1, 1, 2);
    NoCarryOnV1(0, 1, FRAME);
    NoCarryOnV1(1, 2, FRAME);
    EffectRefines(V1, EmptyTable(), MapOp(0, 1, FRAME, READ), true, t1);
    EffectRefines(V1, t1, MapOp(1, 2, FRAME, READ), true, t);
    var m := Abs(V1, t);
    assert 0 in RangeMap(0, 1, FRAME, READ) && 1 in RangeMap(1, 2, FRAME, READ);
    assert forall pg :: pg in m ==> pg == 0 || pg == 1;
    MaskOfRights(V1, t, 0);
    MaskOfRights(V1, t, 1);
    forall pg | 0 <= pg
      ensures !RightsGap(V1, t, pg)
    {
      MappedInAbs(V1, t, pg);
    }
  }

  lemma MappedInAbs(l: Layout, t: Table, pg: nat)
    ensures Mapped(l, t, pg) && pg < l.NumPages() ==> pg in Abs(l, t)
  {
  }

  /** The access bits and the frame of a mapped page are those of its mapping. */
  lemma MaskOfRights(l: Layout, t: Table, pg: nat)
    requires pg in Abs(l, t)
    ensures Mapped(l, t, pg) && DecodePte(l, EntryAt(l, t, pg)) == Abs(l, t)[pg]
    ensures AccessMask(EntryAt(l, t, pg)) == FlagBits(Abs(l, t)[pg].rights)
  {
    hide EntryAt, AccessMask, MaskRights, PtePfn;
    var e := EntryAt(l, t, pg);
    RightsValue(e);
    FlagSplit(e);
  }

  lemma FlagSplit(e: nat)
    ensures e / 4 % 4 * 4 == (if e / 4 % 2 == 1 then 4 else 0) + (if e / 8 % 2 == 1 then 8 else 0)
  {
    assert e / 8 == e / 4 / 2;
  }

  // ----- runs from the initial state

  const START := State(EmptyTable(), map[], map[], Free)

  lemma StartInitial(l: Layout)
    ensures Initial(l, START)
  {
  }

  /** One page mapped by a whole map call, with both caches still empty. */
  lemma OnePageMapped(l: Layout, v: nat, pg: nat) returns (s: State)
    requires pg < l.NumPages()
    ensures Leads(l, v, START, s) && s.phase.Free? && s.tlb == map[] && s.walk == map[]
    ensures Inv(l, s.t) && Mapped(l, s.t, pg) && ValidSlot(s.t, l.Slot(pg))
  {
    hide Inv, EntryAt, FillTable, DentValid, DentBase, Install, EmptyTable, Abs, ChunkWord, TableAddress, Leads,
         Layout.Index, Layout.Slot;
    var t0, k := EmptyTable(), Link(l.Slot(pg), TABLE);
    EmptyTableInv(l);
    SlotInDir(l, t0, pg);
    TableAligned(l);
    var t1 := Install(l, t0, k.slot, k.base);
    InstallInv(l, t0, k.slot, k.base);
    assert Links(l, t0, [k], t1) by {
      assert [k][1..] == [];
    }
    assert SlotsValid(l, t1, pg, pg + 1);
    NothingMapped(l, pg);
    MapRun(l, v, START, pg, pg + 1, [k], t1, FRAME, READ);
    s := START.(t := FillTable(l, t1, pg, pg + 1, FRAME, READ));
    FillTableEntries(l, t1, pg, pg, pg + 1, FRAME, READ);
    FirstWord(l, pg);
  }

  lemma TableAligned(l: Layout)
    ensures TableAddress(l, TABLE)
  {
  }

  lemma NothingMapped(l: Layout, pg: nat)
    ensures !Mapped(l, EmptyTable(), pg)
  {
    EmptyTableInv(l);
    hide EmptyTable, DentValid;
  }

  lemma FirstWord(l: Layout, pg: nat)
    ensures ChunkWord(l, pg, FRAME, READ, pg) != 0
  {
    hide FillWord, DecodePte;
    FillDecodes(l, FRAME, READ, 0);
  }

  /** A run from an initial state that ends with the lock free. */
  ghost predicate WholeRun(l: Layout, v: nat, ss: seq<State>, evs: seq<Event>) {
    IsRun(l, v, ss, evs) && Initial(l, ss[0]) && ss[|evs|].phase.Free?
  }

  /**
   There is a run from the initial state in which [0, 8) is unmapped and after which the TLB is stale, also after
   the invalidations of sunxi_iommu_iotlb_sync.
   */
  lemma StaleTlbRun(l: Layout, v: nat) returns (s': State)
    requires v >= 0x12
    ensures Initial(l, START) && Reach(l, v, START, s') && s'.phase.Free?
    ensures !TlbCoherent(l, s') && !TlbCoherent(l, AfterSync(l, v, s', 0, 8))
  {
    hide Inv, EntryAt, DentValid, DentBase, Leads, Reach, TlbCoherent, START;
    StartInitial(l);
    var s := OnePageMapped(l, v, 4);
    ReachLeads(l, v, START, s);
    ValidStops(l, s.t, 0, 8);
    s' := StaleAfterAccess(l, v, s, 0, 8, 4);
    ReachJoin(l, v, START, s, s');
  }

  /** On V1 there is one in which no device is active during the unmap: the last page is cached before it. */
  lemma StaleTopRun(v: nat) returns (s1: State, s': State)
    requires v >= 0x12
    ensures Initial(V1, START) && Reach(V1, v, START, s1) && s1.phase.Free? && TlbCoherent(V1, s1)
    ensures Leads(V1, v, s1, s') && s'.phase.Free?
    ensures !TlbCoherent(V1, s') && !TlbCoherent(V1, AfterSync(V1, v, s', 0xF_FFFF, 0x10_0000))
  {
    hide Inv, EntryAt, DentValid, DentBase, PteValid, DecodePte, Leads, Reach, START;
    StartInitial(V1);
    var pg := V1.NumPages() - 1;
    var s := OnePageMapped(V1, v, pg);
    ReachLeads(V1, v, START, s);
    s1 := CanFill(V1, s, pg);
    FillsTranslation(V1, s, pg, EntryAt(V1, s.t, pg), s1);
    ReachStep(V1, v, s, Access(pg, EntryAt(V1, s.t, pg)), s1);
    ReachJoin(V1, v, START, s, s1);
    s' := StaleAtTop(V1, v, s1);
  }

  /**
   On V12 and V13 there is one in which the page is not mapped any more when it is accessed: its slot is in the walk
   cache, its table has been freed, and the slot waits for its invalidation.
   */
  lemma FreedTableRun(l: Layout, v: nat) returns (s': State)
    requires 0x12 <= v < 0x14
    ensures Initial(l, START) && Reach(l, v, START, s') && s'.phase.Free? && WalkCoherent(l, s')
    ensures !TlbCoherent(l, s') && !TlbCoherent(l, AfterSync(l, v, s', 0, l.NumPte()))
  {
    hide Inv, EntryAt, DentValid, DentBase, PteValid, DecodePte, Leads, Reach, TlbCoherent, START, UnmapStop;
    StartInitial(l);
    var s := OnePageMapped(l, v, 4);
    ReachLeads(l, v, START, s);
    var w, s1 := CanCacheSlot(l, s, 4);
    ReachStep(l, v, s, Access(4, w), s1);
    ReachJoin(l, v, START, s, s1);
    ValidStops(l, s.t, 0, l.NumPte());
    s' := StaleAfterFree(l, v, s1, 0, l.NumPte(), 4);
    ReachJoin(l, v, START, s1, s');
    ReachedCoherent(l, v, START, s');
  }

  lemma ReachedCoherent(l: Layout, v: nat, s: State, s': State)
    requires v < VERSION_V14 && Initial(l, s) && Reach(l, v, s, s') && s'.phase.Free?
    ensures WalkCoherent(l, s')
  {
    hide Next, Initial, WalkCoherent, Tearless;
    var ss, evs :| IsRun(l, v, ss, evs) && TearlessRun(l, ss, evs) && ss[0] == s && ss[|evs|] == s';
    WalkCoherentInRuns(l, v, ss, evs, |evs|);
  }

  /** From V14 on there is one after which the walk cache names a freed table. */
  lemma StaleWalkRun(l: Layout, v: nat) returns (s': State)
    requires v >= 0x14
    ensures Initial(l, START) && Reach(l, v, START, s') && s'.phase.Free? && !WalkCoherent(l, s')
  {
    hide Inv, EntryAt, DentValid, DentBase, Leads, Reach, WalkOk, START, UnmapStop;
    StartInitial(l);
    var s := OnePageMapped(l, v, 0);
    ReachLeads(l, v, START, s);
    ValidStops(l, s.t, 0, l.NumPte());
    s' := StaleWalk(l, v, s, 0, l.NumPte(), 0);
    ReachJoin(l, v, START, s, s');
  }

  /** A table above 4 GiB. */
  const HIGH_TABLE: nat := 0x1_4000_0000

  predicate HighTable(b: nat) {
    TableAddress(V2, b) && HighBits(V2, b) != 0
  }

  lemma SomeHighTable()
    ensures HighTable(HIGH_TABLE)
  {
  }

  /** The link of such a table into slot 0, with its first store made. */
  lemma HalfLinked(v: nat, b: nat) returns (s1: State, s2: State)
    requires HighTable(b)
    ensures Next(V2, v, START, LockMap(0, 1), s1) && Next(V2, v, s1, LinkTable(0, b), s2)
    ensures s2.phase == InMap(0, 1, LowStored(Link(0, b))) && s2.tlb == map[] && s2.walk == map[]
    ensures Inv(V2, s2.t) && PhaseOk(V2, s2) && s2.t.mem.Keys == {b}
  {
    hide DentValid, DentBase, MkDent, EmptyTable, Inv, EntryAt;
    EmptyTableInv(V2);
    s1 := START.(phase := InMap(0, 1, NoLink));
    s2 := State(Install(V2, EmptyTable(), 0, b), map[], map[], InMap(0, 1, LowStored(Link(0, b))));
    assert CanLink(V2, s1.t, Link(0, b));
    InstallInv(V2, EmptyTable(), 0, b);
  }

  /** A device walks through the half-written entry to where no table is. */
  lemma TornWalk(s2: State, b: nat) returns (w: Word, s3: State)
    requires HighTable(b)
    requires s2.phase == InMap(0, 1, LowStored(Link(0, b))) && s2.tlb == map[] && s2.walk == map[]
    requires Inv(V2, s2.t) && PhaseOk(V2, s2) && s2.t.mem.Keys == {b}
    ensures Walks(V2, s2, 0, w, s3) && s3.t == s2.t && s3.phase == s2.phase
    ensures 0 < |s3.t.dir| && 0 in s3.walk && s3.walk[0] != Base(V2, s3.t, 0)
    ensures 0 in s3.tlb && EntryAt(V2, s3.t, 0) == 0
  {
    LowDentExact(V2, b);
    DentRoundTrip(V2, b);
    TornEntry(V2, s2, 0);
    RightsValue(2);
    hide Inv, DentValid, DentBase, PteValid, DecodePte, MkDent, LowDent, EntryAt, HighBits, TableAddress, Layout.Slot;
    w := 2;
    s3 := s2.(walk := map[0 := DentBase(V2, LowDent(V2, b))], tlb := map[0 := DecodePte(V2, w)]);
  }

  /** Then the link is finished, and the caches stay as they are. */
  lemma TornEnd(v: nat, s3: State, b: nat) returns (s4: State, s5: State)
    requires s3.phase == InMap(0, 1, LowStored(Link(0, b))) && 0 < |s3.t.dir|
    requires 0 in s3.walk && s3.walk[0] != Base(V2, s3.t, 0) && 0 in s3.tlb && EntryAt(V2, s3.t, 0) == 0
    ensures Next(V2, v, s3, LinkHigh, s4) && Next(V2, v, s4, UnlockMap, s5)
    ensures s5.phase.Free? && !WalkCoherent(V2, s5) && !TlbCoherent(V2, s5)
  {
    hide DentValid, DentBase, EntryAt;
    s4 := s3.(phase := InMap(0, 1, NoLink));
    s5 := s4.(phase := Free);
    assert 0 in s5.walk && !WalkOk(V2, s5, 0);
    NotCoherent(V2, s5, 0);
  }

  /**
   On V2 there is a run, on every version and for every such table, in which a device walks through the half-written
   link to another address and leaves both caches stale.
   */
  lemma TornLinkRun(v: nat, b: nat) returns (ss: seq<State>, evs: seq<Event>)
    requires HighTable(b)
    ensures LinkTable(0, b) in evs
    ensures WholeRun(V2, v, ss, evs) && !WalkCoherent(V2, ss[|evs|]) && !TlbCoherent(V2, ss[|evs|])
  {
    hide Next, WalkCoherent, TlbCoherent, PhaseOk, Inv, Initial, START, Walks, EntryAt, DentBase;
    StartInitial(V2);
    var s1, s2 := HalfLinked(v, b);
    DirLength(V2, s2.t);
    var w, s3 := TornWalk(s2, b);
    AccessStep(V2, v, s2, 0, w, s3);
    var s4, s5 := TornEnd(v, s3, b);
    ss, evs := [START, s1, s2, s3, s4, s5],
      [LockMap(0, 1), LinkTable(0, b), Access(0, w), LinkHigh, UnlockMap];
  }

  lemma AccessStep(l: Layout, v: nat, s: State, pg: nat, w: Word, s': State)
    requires Walks(l, s, pg, w, s')
    ensures Next(l, v, s, Access(pg, w), s')
  {
    hide Walks;
  }

  ghost predicate WalkAlways(l: Layout, v: nat) {
    forall ss, evs :: WholeRun(l, v, ss, evs) ==> WalkCoherent(l, ss[|evs|])
  }

  ghost predicate WalkTearless(l: Layout, v: nat) {
    forall ss, evs :: WholeRun(l, v, ss, evs) && TearlessRun(l, ss, evs) ==> WalkCoherent(l, ss[|evs|])
  }

  /**
   With devices that do anything at any time, the walk cache is coherent whenever the lock is free, in all runs, if
   and only if the version is below V14 and the layout is V1; without torn links, if and only if it is below V14.
   */
  lemma WalkExact(l: Layout, v: nat)
    ensures WalkTearless(l, v) <==> v < 0x14
    ensures WalkAlways(l, v) <==> v < 0x14 && l.V1?
  {
    hide Next, Initial, WalkCoherent, Tearless, START;
    if v >= VERSION_V14 {
      var s' := StaleWalkRun(l, v);
      var ss, evs :| IsRun(l, v, ss, evs) && TearlessRun(l, ss, evs) && ss[0] == START && ss[|evs|] == s';
      assert WholeRun(l, v, ss, evs);
    } else {
      forall ss, evs | WholeRun(l, v, ss, evs) && TearlessRun(l, ss, evs)
        ensures WalkCoherent(l, ss[|evs|])
      {
        WalkCoherentInRuns(l, v, ss, evs, |evs|);
      }
      if l.V2? {
        SomeHighTable();
        var ss, evs := TornLinkRun(v, HIGH_TABLE);
      } else {
        forall ss, evs | IsRun(l, v, ss, evs)
          ensures TearlessRun(l, ss, evs)
        {
          NeverTorn(ss, evs);
        }
      }
    }
  }

  /** On V1 the second store does not exist, and no address has high bits. */
  lemma NeverTorn(ss: seq<State>, evs: seq<Event>)
    requires |ss| == |evs| + 1
    ensures TearlessRun(V1, ss, evs)
  {
  }
}
