/**
 sunxi_iommu_map, sunxi_iommu_unmap and sunxi_iommu_domain_free of sunxi-iommu-v1.c: the page table
 under the domain lock together with the two hardware caches that the driver invalidates.
 */
module Domains {
  import opened Layouts
  import opened Tables
  import opened Chunks
  import opened Prepare
  import opened PageTables
  import opened Coherence
  import opened Runs
  import opened CallRuns
  import opened Staleness
  import opened Refinement
  import Bits

  /** `iova & IOMMU_PT_MASK` and `SPAGE_ALIGN(iova + size)`. */
  function StartOf(iova: nat): nat {
    Bits.AndNot(iova, 0xfff)
  }

  function EndOf(iova: nat, size: nat): nat {
    Bits.AndNot(iova + size + 0xfff, 0xfff)
  }

  function Page(a: nat): nat {
    a / PAGE_SIZE
  }

  /** The pages touched by [iova, iova + size), rounded outwards. */
  lemma RoundedRange(iova: nat, size: nat)
    ensures StartOf(iova) % PAGE_SIZE == 0 && EndOf(iova, size) % PAGE_SIZE == 0 && StartOf(iova) <= EndOf(iova, size)
    ensures Page(StartOf(iova)) == iova / PAGE_SIZE
    ensures Page(EndOf(iova, size)) == (iova + size + 0xfff) / PAGE_SIZE
    ensures iova % PAGE_SIZE == 0 && size % PAGE_SIZE == 0 ==> StartOf(iova) == iova && EndOf(iova, size) == iova + size
  {
    RoundedDown(iova, size);
    hide StartOf, EndOf;
    var a, b := iova, iova + size + 0xfff;
    Multiple(a / PAGE_SIZE);
    Multiple(b / PAGE_SIZE);
    QuotientOrdered(a, b);
    if iova % PAGE_SIZE == 0 && size % PAGE_SIZE == 0 {
      Split1000(b, iova / 0x1000 + size / 0x1000, 0xfff);
    }
  }

  lemma RoundedDown(iova: nat, size: nat)
    ensures StartOf(iova) == PAGE_SIZE * (iova / PAGE_SIZE)
    ensures EndOf(iova, size) == PAGE_SIZE * ((iova + size + 0xfff) / PAGE_SIZE)
  {
    hide Bits.AndNot;
    Bits.Mask12(iova);
    Bits.Mask12(iova + size + 0xfff);
  }

  lemma Multiple(q: nat)
    ensures PAGE_SIZE * q % PAGE_SIZE == 0 && PAGE_SIZE * q / PAGE_SIZE == q
  {
    Split1000(PAGE_SIZE * q, q, 0);
  }

  lemma QuotientOrdered(a: nat, b: nat)
    requires a <= b
    ensures a / PAGE_SIZE <= b / PAGE_SIZE
  {
  }

  /** Added to the address of the slot that is not valid, the error code leaves the range. */
  ghost predicate ErrorLeaves(l: Layout, t: Table, iova: nat, size: nat) {
    RoundedRange(iova, size);
    EndOf(iova, size) <= PAGE_SIZE * UnmapStop(l, t, Page(StartOf(iova)), Page(EndOf(iova, size))) + 0xFFFF_FFEA
  }

  /** It always does for ranges of at most 2^32 - 22 bytes. */
  lemma SmallRangeLeaves(l: Layout, t: Table, iova: nat, size: nat)
    requires EndOf(iova, size) - StartOf(iova) <= 0xFFFF_FFEA
    ensures ErrorLeaves(l, t, iova, size)
  {
    hide StartOf, EndOf, UnmapStop;
    RoundedRange(iova, size);
  }

  class Domain {
    const pt: PageTable
    const version: nat
    /** The TLB and the walk cache of the hardware. */
    var tlb: map<nat, Mapping>
    var walk: map<nat, nat>

    ghost predicate Valid()
      reads this, pt, pt.dir
    {
      pt.Valid()
    }

    ghost function Now(phase: Phase): State
      reads this, pt, pt.dir
    {
      State(pt.View(), tlb, walk, phase)
    }

    /** The page map that clients of the domain see. */
    ghost function Pages(): map<nat, Mapping>
      reads this, pt, pt.dir
    {
      Abs(pt.l, pt.View())
    }

    constructor (l: Layout, version: nat)
      ensures Valid() && pt.l == l && this.version == version && fresh(pt) && fresh(pt.dir)
      ensures Initial(l, Now(Free)) && Pages() == map[]
    {
      pt := new PageTable(l);
      this.version := version;
      tlb, walk := map[], map[];
    }

    /**
     sunxi_iommu_map. It fails only when a slot that it visits had no table, and then changes no
     translation. A success stores the chunked
     fill, and the page map gains exactly the range if and only if no chunk crosses a 4 GiB multiple. On an
     empty range, where WARN_ON stays quiet, the call is a run of the coherence machine.
     */
    method Map(iova: nat, paddr: nat, size: nat, prot: Rights) returns (err: int, mapped: nat)
      requires Valid() && EndOf(iova, size) <= pt.l.VaSize()
      requires StartOf(iova) < EndOf(iova, size) ==> Reaches(pt.l, pt.View(), StartOf(iova), EndOf(iova, size))
      modifies pt`mem, pt.dir
      ensures Valid()
      ensures err == 0 || err == -12
      ensures err != 0 ==> AnyVisitedInvalid(pt.l, old(pt.View()), StartOf(iova), EndOf(iova, size))
      ensures err != 0 ==> Pages() == old(Pages())
      ensures mapped == if err == 0 then size else 0
      ensures var lo, hi := Page(StartOf(iova)), Page(EndOf(iova, size));
        err == 0 && LegalRange(pt.l, lo, hi, paddr) ==>
          (Pages() == old(Pages()) + RangeMap(lo, hi, paddr, prot) <==> NoCarry(pt.l, lo, hi, paddr))
      ensures var lo, hi := Page(StartOf(iova)), Page(EndOf(iova, size));
        LegalRange(pt.l, lo, hi, paddr) ==>
          Effect(pt.l, old(pt.View()), MapOp(lo, hi, paddr, prot), err == 0, pt.View())
      ensures var lo, hi := Page(StartOf(iova)), Page(EndOf(iova, size));
        err != 0 || !AnyMapped(pt.l, old(pt.View()), lo, hi) ==> Leads(pt.l, version, old(Now(Free)), Now(Free))
    {
      hide EntryAt, Inv, DentValid, DentBase, Reaches, StartOf, EndOf, FillTable, Bits.AndNot,
           LegalRange, NoCarry, RangeMap, Links, Leads, AnyMapped, Effect, Abs, SameEntries, Layout.Slot;
      var l := pt.l;
      ghost var t := pt.View();
      RoundedRange(iova, size);
      var iovaStart, iovaEnd := StartOf(iova), EndOf(iova, size);
      ghost var lo, hi := Page(iovaStart), Page(iovaEnd);
      ghost var s0, links := Now(Free), [];
      err, links := pt.PrepareL1(iovaStart, iovaEnd);
      mapped := 0;
      SameAbs(l, t, pt.View());
      if err != 0 {
        FailedEffect(l, t, pt.View(), lo, hi, paddr, prot);
        FailedMapRun(l, version, s0, lo, hi, links, pt.View());
        return -ENOMEM, 0;
      }
      ghost var t1 := pt.View();
      if iovaStart < iovaEnd {
        SlotsPrepared(l, t, t1, iovaStart, iovaEnd);
      }
      var warned := pt.PrepareL2(iovaStart, iovaEnd, paddr, prot);
      mapped := size;
      MapCall(l, version, s0, t1, pt.View(), links, lo, hi, paddr, prot);
    }

    /**
     sunxi_iommu_unmap, without devices: the state the machine's unmap run ends in. The pages from the
     start to the first slot that is not valid are gone and every other page keeps its translation.
     */
    method Unmap(iova: nat, size: nat) returns (unmapped: nat)
      requires Valid() && EndOf(iova, size) <= pt.l.VaSize() && ErrorLeaves(pt.l, pt.View(), iova, size)
      modifies this`tlb, this`walk, pt`mem, pt.dir
      ensures Valid() && unmapped == size
      ensures var lo, hi, s := Page(StartOf(iova)), Page(EndOf(iova, size)), old(Now(Free));
        Now(Free) == UnmapLoop(pt.l, version, Locked(pt.l, version, s, lo, hi))
      ensures Leads(pt.l, version, old(Now(Free)), Now(Free))
      ensures var lo, hi := Page(StartOf(iova)), Page(EndOf(iova, size));
        && lo <= hi && Pages() == old(Pages()) - PageSet(lo, UnmapStop(pt.l, old(pt.View()), lo, hi))
        && Effect(pt.l, old(pt.View()), UnmapOp(lo, hi), true, pt.View())
      ensures forall pg :: pg in tlb ==> pg in old(tlb) && tlb[pg] == old(tlb)[pg]
      ensures var lo, hi := Page(StartOf(iova)), Page(EndOf(iova, size));
        pt.l.V2? || hi != pt.l.NumPages() ==>
          && tlb.Keys == (set pg | pg in old(tlb) && !(version >= 0x12 && lo <= pg < hi))
          && (forall sl :: sl in walk ==> !WholeSlotIn(pt.l, lo, UnmapStop(pt.l, old(pt.View()), lo, hi), sl))
    {
      hide EntryAt, Inv, DentValid, DentBase, StartOf, EndOf, Bits.AndNot, DeleteChunk, ChunkCount, TlbAfter,
           WalkAfter, UnmapLoop, UnmapTable, UnmapStop, Leads, Layout.Slot, Layout.PdeIndex;
      var l := pt.l;
      RoundedRange(iova, size);
      var iovaStart, iovaEnd := StartOf(iova), EndOf(iova, size);
      ghost var s0, lo, hi := Now(Free), Page(iovaStart), Page(iovaEnd);
      ghost var locked := Locked(l, version, s0, lo, hi);
      ghost var stop := UnmapStop(l, s0.t, lo, hi);
      tlb := TlbAfter(l, version, tlb, iovaStart / PAGE_SIZE, iovaEnd / PAGE_SIZE);
      walk := WalkAfter(l, version, walk, iovaStart / PAGE_SIZE, iovaEnd / PAGE_SIZE);
      var a := iovaStart;
      if lo == hi {
        LoopUnfolds(l, version, locked);
      }
      while a < iovaEnd
        invariant Valid() && iovaStart <= a && (a < iovaEnd ==> a % PAGE_SIZE == 0)
        invariant a < iovaEnd ==> UnmapStop(l, pt.View(), Page(a), hi) == stop
        invariant a < iovaEnd ==>
          UnmapLoop(l, version, Now(InUnmap(lo, hi, Page(a), Clearing))) == UnmapLoop(l, version, locked)
        invariant a >= iovaEnd ==> Now(Free) == UnmapLoop(l, version, locked)
        decreases if a < iovaEnd then iovaEnd - a else 0
      {
        ghost var s, cur := Now(InUnmap(lo, hi, Page(a), Clearing)), Page(a);
        ChunkShape(l, cur, hi);
        Advance(a, ChunkCount(l, cur, hi));
        PdeIndexIsPage(l, a);
        LoopUnfolds(l, version, s);
        StopUnfolds(l, s.t, cur, hi);
        var r := pt.DeleteL2(a, iovaEnd);
        if version < VERSION_V14 {
          walk := walk - {l.PdeIndex(a)};
        }
        var tailSize: nat := if r < 0 then r + FOUR_GIB else r;
        a := a + tailSize;
        if a == iovaEnd && r >= 0 {
          LoopUnfolds(l, version, Now(InUnmap(lo, hi, hi, Clearing)));
        }
      }
      ghost var t := s0.t;
      UnmapLoopTable(l, version, locked);
      UnmapClears(l, t, lo, hi);
      ClearRefines(l, t, pt.View(), lo, UnmapStop(l, t, lo, hi));
      UnmapCallRun(l, version, s0, lo, hi);
      UnmapCaches(l, version, s0, lo, hi);
      unmapped := size;
    }

    /** sunxi_iommu_domain_free: no table is left and both caches are empty. */
    method DomainFree()
      requires Valid()
      modifies this`tlb, this`walk, pt`mem, pt.dir
      ensures Valid() && Initial(pt.l, Now(Free)) && Pages() == map[]
      ensures Effect(pt.l, old(pt.View()), ClearOp, true, pt.View())
      ensures Leads(pt.l, version, old(Now(Free)), Now(Free))
    {
      ghost var s0 := Now(Free);
      pt.Clear();
      tlb, walk := map[], map[];
      FreeRun(pt.l, version, s0, Now(Free));
    }
  }

  /**
   Exactly what a map call needs so that every slot of the range has a table when preparation succeeds: the
   last slot, the only one that can be missed, is visited or was valid before.
   */
  predicate Reaches(l: Layout, t: Table, start: nat, end: nat)
    requires start < end
  {
    StrideCovers(l, start, end) || ValidSlot(t, SlotOf(l, end - 1))
  }

  /** Preparation: from t to t1, no slot is lost, only visited ones are added, and all of those are valid. */
  ghost predicate PreparedSlots(l: Layout, t: Table, t1: Table, start: nat, end: nat) {
    forall s :: 0 <= s < NUM_ENTRIES_PDE ==> (ValidSlot(t1, s) <==> ValidSlot(t, s) || Visited(l, start, end, s))
  }

  /** After a successful preparation the slots of all pages of the range are valid if and only if it reaches them. */
  lemma SlotsPrepared(l: Layout, t: Table, t1: Table, start: nat, end: nat)
    requires start < end <= l.VaSize() && start % PAGE_SIZE == 0 && end % PAGE_SIZE == 0
    requires PreparedSlots(l, t, t1, start, end)
    ensures SlotsValid(l, t1, Page(start), Page(end)) <==> Reaches(l, t, start, end)
  {
    hide DentValid, Visited, StrideCovers, SlotOf, Layout.Slot;
    var last := SlotOf(l, end - 1);
    LastPage(l, start, end);
    CoverageExact(l, start, end);
    if Reaches(l, t, start, end) {
      forall pg | Page(start) <= pg < Page(end)
        ensures ValidSlot(t1, l.Slot(pg))
      {
        PageNeedsSlot(l, start, end, pg);
        if !StrideCovers(l, start, end) {
          OnlyLastMissed(l, start, end, l.Slot(pg));
        }
      }
    } else {
      OnlyLastMissed(l, start, end, last);
      assert !ValidSlot(t1, l.Slot(Page(end) - 1));
    }
  }

  lemma LastPage(l: Layout, start: nat, end: nat)
    requires start < end <= l.VaSize() && start % PAGE_SIZE == 0 && end % PAGE_SIZE == 0
    ensures Page(start) <= Page(end) - 1 && l.Slot(Page(end) - 1) == SlotOf(l, end - 1) < NUM_ENTRIES_PDE
    ensures NeededSlot(l, start, end, SlotOf(l, end - 1))
  {
    NestedQuotient(end - 1);
    assert (end - 1) / PAGE_SIZE == Page(end) - 1;
    PageNeedsSlot(l, start, end, Page(end) - 1);
  }

  lemma PageNeedsSlot(l: Layout, start: nat, end: nat, pg: nat)
    requires start < end <= l.VaSize() && start % PAGE_SIZE == 0 && end % PAGE_SIZE == 0
    requires Page(start) <= pg < Page(end)
    ensures NeededSlot(l, start, end, l.Slot(pg)) && l.Slot(pg) < NUM_ENTRIES_PDE
  {
    NestedQuotient(start);
    NestedQuotient(end - 1);
    assert (end - 1) / PAGE_SIZE >= pg;
  }

  /** What a map call has done, from the prepared table t1 and the filled one. */
  lemma MapCall(
      l: Layout, v: nat, s: State, t1: Table, t': Table, links: seq<Link>, lo: nat, hi: nat, paddr: nat, prot: Rights)
    requires s.phase.Free? && Inv(l, s.t) && Links(l, s.t, links, t1) && lo <= hi <= l.NumPages()
    requires SlotsValid(l, t1, lo, hi)
    requires t' == FillTable(l, t1, lo, hi, Bits.AndNot(ToIommu(l, paddr), 0xfff), prot)
    ensures LegalRange(l, lo, hi, paddr) ==>
      && (Abs(l, t') == Abs(l, s.t) + RangeMap(lo, hi, paddr, prot) <==> NoCarry(l, lo, hi, paddr))
      && Effect(l, s.t, MapOp(lo, hi, paddr, prot), true, t')
    ensures !AnyMapped(l, s.t, lo, hi) ==> Leads(l, v, s, s.(t := t'))
  {
    hide EntryAt, Inv, FillTable, Bits.AndNot, NoCarry, RangeMap, Abs, LegalRange, Links, Leads, SlotsValid;
    LinksKeep(l, s.t, links, t1);
    SameAbs(l, s.t, t1);
    if LegalRange(l, lo, hi, paddr) {
      MapMeans(l, t1, t', lo, hi, paddr, prot);
      assert Prepared(l, s.t, t1, lo, hi);
    }
    if !AnyMapped(l, s.t, lo, hi) {
      var x := ToIommu(l, paddr);
      hide ToIommu, AnyMapped, Effect;
      EmptyMapRun(l, v, s, t1, links, lo, hi, x, prot);
    }
  }

  lemma EmptyMapRun(l: Layout, v: nat, s: State, t1: Table, links: seq<Link>, lo: nat, hi: nat, x: nat, prot: Rights)
    requires s.phase.Free? && Inv(l, s.t) && Links(l, s.t, links, t1) && lo <= hi <= l.NumPages()
    requires SlotsValid(l, t1, lo, hi) && !AnyMapped(l, s.t, lo, hi)
    ensures Leads(l, v, s, s.(t := FillTable(l, t1, lo, hi, Bits.AndNot(x, 0xfff), prot)))
  {
    hide EntryAt, Inv, FillTable, Bits.AndNot, Links, Leads, SlotsValid;
    Bits.Mask12(x);
    Multiple(x / PAGE_SIZE);
    MapRun(l, v, s, lo, hi, links, t1, Bits.AndNot(x, 0xfff), prot);
  }

  lemma FailedEffect(l: Layout, t: Table, t': Table, lo: nat, hi: nat, paddr: nat, prot: Rights)
    requires Inv(l, t') && SameEntries(l, t, t')
    ensures Effect(l, t, MapOp(lo, hi, paddr, prot), false, t')
  {
    hide Inv, SameEntries;
  }

  lemma MapMeans(l: Layout, t: Table, t': Table, lo: nat, hi: nat, paddr: nat, prot: Rights)
    requires Inv(l, t) && LegalRange(l, lo, hi, paddr) && SlotsValid(l, t, lo, hi)
    requires t' == FillTable(l, t, lo, hi, Bits.AndNot(ToIommu(l, paddr), 0xfff), prot)
    ensures Abs(l, t') == Abs(l, t) + RangeMap(lo, hi, paddr, prot) <==> NoCarry(l, lo, hi, paddr)
    ensures t' == FillTable(l, t, lo, hi, ToIommu(l, paddr), prot)
  {
    hide EntryAt, Inv, FillTable, Bits.AndNot, NoCarry, RangeMap, SlotsValid, ChunkWord, Abs, Layout.Index;
    var x := ToIommu(l, paddr);
    Bits.Mask12(x);
    RelocatedAligned(l, paddr, 0);
    FillTableEntries(l, t, lo, lo, hi, x, prot);
    FillRefines(l, t, t', lo, hi, paddr, prot);
  }

  lemma StopUnfolds(l: Layout, t: Table, cur: nat, hi: nat)
    requires Inv(l, t) && cur < hi <= l.NumPages()
    ensures !ValidSlot(t, l.Slot(cur)) ==> UnmapStop(l, t, cur, hi) == cur
    ensures ValidSlot(t, l.Slot(cur)) ==>
      && Base(l, t, l.Slot(cur)) in t.mem && cur + ChunkCount(l, cur, hi) <= hi
      && UnmapStop(l, DeleteChunk(l, t, cur, hi), cur + ChunkCount(l, cur, hi), hi) == UnmapStop(l, t, cur, hi)
  {
    hide DeleteChunk, DentValid, DentBase, Inv, ChunkCount;
    if ValidSlot(t, l.Slot(cur)) {
      StopAfterChunk(l, t, cur, hi);
    }
  }

  /** What an unmap call leaves in the caches, on each version. */
  lemma UnmapCaches(l: Layout, v: nat, s: State, lo: nat, hi: nat)
    requires s.phase.Free? && Inv(l, s.t) && lo <= hi <= l.NumPages()
    ensures var s', stop := UnmapLoop(l, v, Locked(l, v, s, lo, hi)), UnmapStop(l, s.t, lo, hi);
      && (forall pg :: pg in s'.tlb ==> pg in s.tlb && s'.tlb[pg] == s.tlb[pg])
      && (l.V2? || hi != l.NumPages() ==>
            && s'.tlb.Keys == (set pg | pg in s.tlb && !(v >= 0x12 && lo <= pg < hi))
            && forall sl :: sl in s'.walk ==> !WholeSlotIn(l, lo, stop, sl))
      && (forall sl :: sl in s.walk && NoPageIn(l, lo, hi, sl) ==> sl in s'.walk && s'.walk[sl] == s.walk[sl])
  {
    hide Inv, UnmapLoop, UnmapTable, UnmapStop, DentValid, DentBase, WholeSlotIn, SlotInRange, Layout.Slot;
    var s1 := Locked(l, v, s, lo, hi);
    UnmapLoopTable(l, v, s1);
    if l.V2? || hi != l.NumPages() {
      forall sl | sl in UnmapLoop(l, v, s1).walk
        ensures !WholeSlotIn(l, lo, UnmapStop(l, s.t, lo, hi), sl)
      {
        NoWholeSlot(l, v, s, lo, hi, sl);
      }
    }
    forall sl | sl in s.walk && NoPageIn(l, lo, hi, sl)
      ensures var walk := UnmapLoop(l, v, s1).walk; sl in walk && walk[sl] == s.walk[sl]
    {
      NotDropped(l, v, s, lo, hi, sl);
      LoopKeepsSlots(l, v, s1, sl);
    }
  }

  /** No page of the range belongs to the slot. */
  ghost predicate NoPageIn(l: Layout, lo: nat, hi: nat, sl: nat) {
    forall pg :: lo <= pg < hi ==> l.Slot(pg) != sl
  }

  lemma NotDropped(l: Layout, v: nat, s: State, lo: nat, hi: nat, sl: nat)
    requires sl in s.walk && lo <= hi && NoPageIn(l, lo, hi, sl)
    ensures var walk := Locked(l, v, s, lo, hi).walk; sl in walk && walk[sl] == s.walk[sl]
  {
    hide SlotInRange, NoPageIn, RegisterEnd;
    if SlotInRange(l, lo, RegisterEnd(l, hi), sl) {
      DroppedHasPage(l, lo, hi, sl);
    }
  }

  lemma DroppedHasPage(l: Layout, lo: nat, hi: nat, sl: nat)
    requires lo <= hi && SlotInRange(l, lo, RegisterEnd(l, hi), sl)
    ensures !NoPageIn(l, lo, hi, sl)
  {
    var pg := if l.PageAt(sl, 0) < lo then lo else l.PageAt(sl, 0);
    assert lo <= pg < hi && l.Slot(pg) == sl;
  }

  lemma NoWholeSlot(l: Layout, v: nat, s: State, lo: nat, hi: nat, sl: nat)
    requires s.phase.Free? && Inv(l, s.t) && lo <= hi <= l.NumPages() && (l.V2? || hi != l.NumPages())
    requires sl in UnmapLoop(l, v, Locked(l, v, s, lo, hi)).walk
    ensures !WholeSlotIn(l, lo, UnmapStop(l, s.t, lo, hi), sl)
  {
    hide Inv, UnmapLoop, UnmapStop, DentValid, DentBase, SlotInRange, Layout.Slot;
    var s1, stop := Locked(l, v, s, lo, hi), UnmapStop(l, s.t, lo, hi);
    if WholeSlotIn(l, lo, stop, sl) {
      if v < 0x14 {
        var pg := l.PageAt(sl, 0);
        PageJoin(l, sl, 0);
        LoopDropsSlots(l, v, s1, pg);
      } else {
        LoopKeepsWalk(l, v, s1);
        WholeIsInRange(l, lo, hi, sl);
      }
    }
  }

  /** One round of the unmap loop, as an equation. */
  lemma LoopUnfolds(l: Layout, v: nat, s: State)
    requires s.phase.InUnmap? && s.phase.stage.Clearing? && Inv(l, s.t)
    ensures var cur, hi := s.phase.cur, s.phase.hi;
      var walk := if v < VERSION_V14 then s.walk - {l.Slot(cur)} else s.walk;
      && (cur >= hi ==> UnmapLoop(l, v, s) == s.(phase := Free))
      && (cur < hi && !ValidSlot(s.t, l.Slot(cur)) ==> UnmapLoop(l, v, s) == s.(walk := walk, phase := Free))
      && (cur < hi && ValidSlot(s.t, l.Slot(cur)) ==>
            && Base(l, s.t, l.Slot(cur)) in s.t.mem
            && UnmapLoop(l, v, s) == UnmapLoop(l, v, State(DeleteChunk(l, s.t, cur, hi), s.tlb, walk,
                 InUnmap(s.phase.lo, hi, cur + ChunkCount(l, cur, hi), Clearing))))
  {
    hide Inv, DentValid, DentBase, DeleteChunk, ChunkCount;
    if ValidSlot(s.t, l.Slot(s.phase.cur)) {
      LiveTable(l, s.t, l.Slot(s.phase.cur));
    }
  }

  lemma PdeIndexIsPage(l: Layout, a: nat)
    requires a < l.VaSize()
    ensures l.PdeIndex(a) == l.Slot(Page(a)) && Page(a) < l.NumPages()
  {
    hide Layout.PdeIndex;
    IndexValues(l, a);
    PageInRange(l, Page(a));
  }
}
