/**
 sunxi_pgtable_dump: the regions it prints, and that they are the mapped pages.
 */
module Dumps {
  import opened Layouts
  import opened Tables
  import opened PageTables

  /** One printed line: first address, bytes, CPU physical address of the first page and its access bits. */
  datatype Region = Region(iova: nat, size: nat, phys: nat, mask: nat)

  const NO_REGION := Region(0, 0, 0, 0)

  predicate Covers(r: Region, pg: nat) {
    r.iova <= PAGE_SIZE * pg < r.iova + r.size
  }

  ghost predicate Covered(regs: seq<Region>, pg: nat) {
    exists i :: 0 <= i < |regs| && Covers(regs[i], pg)
  }

  /**
   A region is a run of mapped pages that starts with a page of its address and rights. When those
   rights are not empty, all its pages have them; a region that starts without rights takes in any.
   */
  ghost predicate RegionOk(l: Layout, t: Table, r: Region) {
    && r.size > 0 && r.iova % PAGE_SIZE == 0 && r.size % PAGE_SIZE == 0
    && DecodePte(l, EntryAt(l, t, r.iova / PAGE_SIZE)).phys == r.phys
    && AccessMask(EntryAt(l, t, r.iova / PAGE_SIZE)) == r.mask
    && forall pg :: Covers(r, pg) ==>
         Mapped(l, t, pg) && (r.mask != 0 ==> AccessMask(EntryAt(l, t, pg)) == r.mask)
  }

  /** Regions come in increasing order without overlap; two that touch differ in rights, and the first one has some. */
  ghost predicate Ordered(regs: seq<Region>) {
    && (forall i, j :: 0 <= i < j < |regs| ==> regs[i].iova + regs[i].size <= regs[j].iova)
    && (forall i, j :: 0 <= i < j < |regs| && regs[i].iova + regs[i].size == regs[j].iova ==>
          regs[i].mask != 0 && regs[i].mask != regs[j].mask)
  }

  ghost predicate AllOk(l: Layout, t: Table, regs: seq<Region>) {
    forall i :: 0 <= i < |regs| ==> RegionOk(l, t, regs[i])
  }

  /** The regions are exactly the mapped pages below p. */
  ghost predicate Exact(l: Layout, t: Table, regs: seq<Region>, p: nat) {
    forall pg :: 0 <= pg ==> (Covered(regs, pg) <==> pg < p && Mapped(l, t, pg))
  }

  function Flush(regs: seq<Region>, act: Region): seq<Region> {
    if act.size > 0 then regs + [act] else regs
  }

  /** What holds of the printed regions and the active one before page p is looked at. */
  ghost predicate ScanInv(l: Layout, t: Table, regs: seq<Region>, act: Region, p: nat) {
    var all := Flush(regs, act);
    && AllOk(l, t, all) && Ordered(all) && Exact(l, t, all, p)
    && (act.size > 0 ==> act.iova + act.size == PAGE_SIZE * p)
    && (act.size == 0 ==> forall i :: 0 <= i < |regs| ==> regs[i].iova + regs[i].size < PAGE_SIZE * p)
  }

  /** The loop body for page p with entry e. */
  function ScanPage(l: Layout, regs: seq<Region>, act: Region, p: nat, e: Word): (seq<Region>, Region) {
    var ended := act.size > 0 && (!PteValid(e) || (act.mask != 0 && act.mask != AccessMask(e)));
    var regs1 := if ended then regs + [act] else regs;
    var act1 := if ended then act.(size := 0, mask := 0) else act;
    if !PteValid(e) then (regs1, act1) else
    var act2 := if act1.size == 0 then Region(PAGE_SIZE * p, 0, ToCpu(l, PtePfn(l, e)), AccessMask(e)) else act1;
    (regs1, act2.(size := act2.size + PAGE_SIZE))
  }

  /** A page that is not mapped, or a whole slot without a table, only ends the active region. */
  lemma SkipPages(l: Layout, t: Table, regs: seq<Region>, act: Region, p: nat, q: nat)
    requires ScanInv(l, t, regs, act, p) && p < q
    requires forall pg :: p <= pg < q ==> !Mapped(l, t, pg)
    ensures ScanInv(l, t, Flush(regs, act), act.(size := 0, mask := 0), q)
  {
    hide EntryAt, DecodePte, PteValid, AccessMask, RegionOk, Covered;
    var all := Flush(regs, act);
    if act.size > 0 {
      forall i | 0 <= i < |all|
        ensures all[i].iova + all[i].size <= PAGE_SIZE * p
      {
        assert i < |regs| ==> all[i].iova + all[i].size <= all[|regs|].iova;
      }
    }
  }

  /** One round of the inner loop keeps the invariant. */
  lemma ScanStep(l: Layout, t: Table, regs: seq<Region>, act: Region, p: nat, e: Word)
    requires ScanInv(l, t, regs, act, p) && e == EntryAt(l, t, p) && (e == 0 || PteValid(e))
    ensures var (regs', act') := ScanPage(l, regs, act, p, e); ScanInv(l, t, regs', act', p + 1)
  {
    hide EntryAt, DecodePte, PtePfn, AccessMask, RegionOk, Covered;
    if !PteValid(e) {
      SkipPages(l, t, regs, act, p, p + 1);
    } else if act.size > 0 && !(act.mask != 0 && act.mask != AccessMask(e)) {
      ZeroNotValid(e);
      ExtendRegion(l, t, regs, act, p, e);
    } else {
      ZeroNotValid(e);
      var all := Flush(regs, act);
      forall i | 0 <= i < |all|
        ensures all[i].iova + all[i].size <= PAGE_SIZE * p
        ensures all[i].iova + all[i].size == PAGE_SIZE * p ==> all[i].mask != 0 && all[i].mask != AccessMask(e)
      {
        if act.size > 0 && i < |regs| {
          assert all[i].iova + all[i].size <= all[|regs|].iova;
        }
      }
      StartRegion(l, t, all, p, e);
    }
  }

  /**
   sunxi_pgtable_dump: the printed regions are ordered and disjoint, touching ones differ in rights,
   and together they are exactly the mapped pages, whatever slot boundaries they span. They show the rights
   and the frame of every page if and only if the table has no gap of rights or of frames.
   */
  method Dump(pt: PageTable) returns (regions: seq<Region>)
    requires pt.Valid()
    ensures AllOk(pt.l, pt.View(), regions) && Ordered(regions)
    ensures forall pg :: 0 <= pg ==> (Covered(regions, pg) <==> pg in Abs(pt.l, pt.View()))
    ensures Uniform(pt.l, pt.View(), regions) && PhysShown(pt.l, pt.View(), regions) <==>
      forall pg :: 0 <= pg ==> !RightsGap(pt.l, pt.View(), pg) && !PhysGap(pt.l, pt.View(), pg)
  {
    hide EntryAt, DecodePte, PtePfn, AccessMask, RegionOk, Covered, DentValid, DentBase, Inv, Ordered,
         PteValid, Uniform, PhysShown, RightsGap, PhysGap, Layout.Slot, Layout.Index;
    var l := pt.l;
    ghost var t := pt.View();
    regions := [];
    var act := NO_REGION;
    ScanStart(l, t);
    for i := 0 to NUM_ENTRIES_PDE
      invariant ScanInv(l, t, regions, act, l.PageAt(i, 0))
    {
      if !DentValid(pt.dir[i]) {
        EmptySlot(l, t, i);
        SkipPages(l, t, regions, act, l.PageAt(i, 0), l.PageAt(i + 1, 0));
        if act.size != 0 {
          regions := regions + [act];
          act := act.(size := 0, mask := 0);
        }
      } else {
        regions, act := DumpTable(pt, i, regions, act);
      }
    }
    if act.size != 0 {
      regions := regions + [act];
    }
    AllPages(l, t, regions);
    ShownExact(l, t, regions);
  }

  /** The inner loop over one second-level table. */
  method DumpTable(pt: PageTable, i: nat, regs0: seq<Region>, act0: Region) returns (regs: seq<Region>, act: Region)
    requires pt.Valid() && ValidSlot(pt.View(), i) && i < NUM_ENTRIES_PDE
    requires ScanInv(pt.l, pt.View(), regs0, act0, pt.l.PageAt(i, 0))
    ensures ScanInv(pt.l, pt.View(), regs, act, pt.l.PageAt(i + 1, 0))
  {
    hide EntryAt, DecodePte, PtePfn, AccessMask, RegionOk, Covered, DentValid, DentBase, Inv, Ordered,
         PteValid, ScanInv, Layout.Slot, Layout.Index;
    var l := pt.l;
    ghost var t := pt.View();
    regs, act := regs0, act0;
    SlotTable(l, t, i);
    var table := pt.mem[DentBase(l, pt.dir[i])];
    for j := 0 to l.NumPte()
      invariant ScanInv(l, t, regs, act, l.PageAt(i, j))
    {
      var pent := table[j];
      ghost var regs1, act1 := regs, act;
      ScanStep(l, t, regs, act, l.PageAt(i, j), pent);
      if act.size != 0 {
        if !PteValid(pent) || (act.mask != 0 && act.mask != AccessMask(pent)) {
          regs := regs + [act];
          act := act.(size := 0, mask := 0);
        }
      }
      if PteValid(pent) {
        if act.size == 0 {
          act := Region(l.PageAt(i, j) * PAGE_SIZE, 0, ToCpu(l, PtePfn(l, pent)), AccessMask(pent));
        }
        act := act.(size := act.size + PAGE_SIZE);
      }
      assert (regs, act) == ScanPage(l, regs1, act1, l.PageAt(i, j), pent);
    }
  }

  lemma ScanStart(l: Layout, t: Table)
    ensures ScanInv(l, t, [], NO_REGION, 0)
  {
  }

  lemma EmptySlot(l: Layout, t: Table, i: nat)
    requires !ValidSlot(t, i)
    ensures forall pg :: l.PageAt(i, 0) <= pg < l.PageAt(i + 1, 0) ==> !Mapped(l, t, pg)
  {
    hide DentValid, DentBase;
  }

  lemma SlotTable(l: Layout, t: Table, i: nat)
    requires Inv(l, t) && ValidSlot(t, i)
    ensures Base(l, t, i) in t.mem && |t.mem[Base(l, t, i)]| == l.NumPte()
    ensures forall j :: 0 <= j < l.NumPte() ==>
      var e := t.mem[Base(l, t, i)][j]; e == EntryAt(l, t, l.PageAt(i, j)) && (e == 0 || PteValid(e))
  {
    hide DentValid, DentBase, PteValid;
    forall j | 0 <= j < l.NumPte()
      ensures l.Slot(l.PageAt(i, j)) == i && l.Index(l.PageAt(i, j)) == j
    {
      PageJoin(l, i, j);
    }
  }

  lemma AllPages(l: Layout, t: Table, regions: seq<Region>)
    requires Exact(l, t, regions, l.NumPages())
    ensures forall pg :: 0 <= pg ==> (Covered(regions, pg) <==> pg in Abs(l, t))
  {
    hide EntryAt, DecodePte, Covered;
  }

  /** A mapped page that starts a new region. */
  lemma StartRegion(l: Layout, t: Table, all: seq<Region>, p: nat, e: Word)
    requires AllOk(l, t, all) && Ordered(all) && Exact(l, t, all, p)
    requires e == EntryAt(l, t, p) && e != 0
    requires forall i :: 0 <= i < |all| ==> all[i].iova + all[i].size <= PAGE_SIZE * p
    requires forall i :: 0 <= i < |all| && all[i].iova + all[i].size == PAGE_SIZE * p ==>
      all[i].mask != 0 && all[i].mask != AccessMask(e)
    ensures ScanInv(l, t, all, Region(PAGE_SIZE * p, PAGE_SIZE, ToCpu(l, PtePfn(l, e)), AccessMask(e)), p + 1)
  {
    hide EntryAt, PtePfn, PteValid, AccessMask, RegionOk, Covered;
    var r := Region(PAGE_SIZE * p, PAGE_SIZE, ToCpu(l, PtePfn(l, e)), AccessMask(e));
    NewRegionOk(l, t, p, e);
    CoveredAppend(all, r);
    assert forall pg :: Covers(r, pg) <==> pg == p;
  }

  lemma NewRegionOk(l: Layout, t: Table, p: nat, e: Word)
    requires e == EntryAt(l, t, p) && e != 0
    ensures RegionOk(l, t, Region(PAGE_SIZE * p, PAGE_SIZE, ToCpu(l, PtePfn(l, e)), AccessMask(e)))
  {
    hide EntryAt, PtePfn, PteValid, AccessMask;
    var r := Region(PAGE_SIZE * p, PAGE_SIZE, ToCpu(l, PtePfn(l, e)), AccessMask(e));
    assert forall pg :: Covers(r, pg) ==> pg == p;
  }

  lemma CoveredAppend(regs: seq<Region>, r: Region)
    ensures forall pg :: Covered(regs + [r], pg) <==> Covered(regs, pg) || Covers(r, pg)
  {
    forall pg
      ensures Covered(regs + [r], pg) <==> Covered(regs, pg) || Covers(r, pg)
    {
      var all := regs + [r];
      if i :| 0 <= i < |regs| && Covers(regs[i], pg) {
        assert Covers(all[i], pg);
      }
      if Covers(r, pg) {
        assert Covers(all[|regs|], pg);
      }
    }
  }

  /** A mapped page that the active region takes in. */
  lemma ExtendRegion(l: Layout, t: Table, regs: seq<Region>, act: Region, p: nat, e: Word)
    requires ScanInv(l, t, regs, act, p) && act.size > 0
    requires e == EntryAt(l, t, p) && e != 0 && (act.mask != 0 ==> act.mask == AccessMask(e))
    ensures ScanInv(l, t, regs, act.(size := act.size + PAGE_SIZE), p + 1)
  {
    hide EntryAt, DecodePte, PteValid, AccessMask, Covered;
    var act' := act.(size := act.size + PAGE_SIZE);
    assert forall pg :: Covers(act', pg) <==> Covers(act, pg) || pg == p;
    CoveredAppend(regs, act);
    CoveredAppend(regs, act');
    assert RegionOk(l, t, (regs + [act])[|regs|]);
    assert RegionOk(l, t, act');
    forall i | 0 <= i < |regs|
      ensures RegionOk(l, t, regs[i])
    {
      assert RegionOk(l, t, (regs + [act])[i]);
    }
    OrderedExtend(regs, act);
  }

  lemma OrderedExtend(regs: seq<Region>, act: Region)
    requires Ordered(regs + [act])
    ensures Ordered(regs + [act.(size := act.size + PAGE_SIZE)])
  {
    var all := regs + [act];
    forall i | 0 <= i < |regs|
      ensures regs[i].iova + regs[i].size <= act.iova
      ensures regs[i].iova + regs[i].size == act.iova ==> regs[i].mask != 0 && regs[i].mask != act.mask
    {
      assert all[i] == regs[i] && all[|regs|] == act;
    }
    forall i, j | 0 <= i < j < |regs|
      ensures regs[i].iova + regs[i].size <= regs[j].iova
      ensures regs[i].iova + regs[i].size == regs[j].iova ==> regs[i].mask != 0 && regs[i].mask != regs[j].mask
    {
      assert all[i] == regs[i] && all[j] == regs[j];
    }
  }

  // ----- when the printed rights are those of every page

  ghost predicate Uniform(l: Layout, t: Table, regions: seq<Region>) {
    forall i, pg :: 0 <= i < |regions| && Covers(regions[i], pg) ==> AccessMask(EntryAt(l, t, pg)) == regions[i].mask
  }

  /** A page without rights directly before a mapped page that has some. */
  ghost predicate RightsGap(l: Layout, t: Table, pg: nat) {
    && pg + 1 < l.NumPages() && Mapped(l, t, pg) && Mapped(l, t, pg + 1)
    && AccessMask(EntryAt(l, t, pg)) == 0 && AccessMask(EntryAt(l, t, pg + 1)) != 0
  }

  /** The dump shows the rights of every page if and only if no page without rights is followed by one that has some. */
  lemma UniformExact(l: Layout, t: Table, regions: seq<Region>)
    requires AllOk(l, t, regions) && Ordered(regions) && Exact(l, t, regions, l.NumPages())
    ensures Uniform(l, t, regions) <==> forall pg :: 0 <= pg ==> !RightsGap(l, t, pg)
  {
    hide EntryAt, AccessMask, RegionOk, Covered, Mapped, Ordered;
    if pg :| 0 <= pg && RightsGap(l, t, pg) {
      GapBreaks(l, t, regions, pg);
    } else if !Uniform(l, t, regions) {
      var i, pg :| 0 <= i < |regions| && Covers(regions[i], pg) && AccessMask(EntryAt(l, t, pg)) != regions[i].mask;
      forall p: nat | Covers(regions[i], p)
        ensures p < l.NumPages()
      {
        CoveredBy(regions, i, p);
      }
      var g := FindGap(l, t, regions[i], pg);
    }
  }

  /** Regions that cover neighbouring pages: the same one, or two that touch. */
  lemma GapBreaks(l: Layout, t: Table, regions: seq<Region>, pg: nat)
    requires AllOk(l, t, regions) && Ordered(regions) && Exact(l, t, regions, l.NumPages())
    requires RightsGap(l, t, pg)
    ensures !Uniform(l, t, regions)
  {
    hide EntryAt, AccessMask, RegionOk, Covers, Ordered;
    assert Covered(regions, pg) && Covered(regions, pg + 1);
    var i :| 0 <= i < |regions| && Covers(regions[i], pg);
    var j :| 0 <= j < |regions| && Covers(regions[j], pg + 1);
    if i != j {
      Neighbours(l, t, regions, i, j, pg);
    }
  }

  lemma CoveredBy(regs: seq<Region>, i: nat, pg: nat)
    requires i < |regs| && Covers(regs[i], pg)
    ensures Covered(regs, pg)
  {
  }

  lemma Neighbours(l: Layout, t: Table, regions: seq<Region>, i: nat, j: nat, pg: nat)
    requires Ordered(regions) && AllOk(l, t, regions)
    requires i < |regions| && j < |regions| && Covers(regions[i], pg) && Covers(regions[j], pg + 1) && i != j
    ensures i < j && regions[i].iova + regions[i].size == regions[j].iova
    ensures regions[i].mask != 0 && regions[i].mask != regions[j].mask
  {
    hide EntryAt, AccessMask, DecodePte, Mapped;
    var r, q := regions[i], regions[j];
    assert RegionOk(l, t, r) && RegionOk(l, t, q);
    assert r.iova == PAGE_SIZE * (r.iova / PAGE_SIZE) && r.size == PAGE_SIZE * (r.size / PAGE_SIZE);
  }

  /** A region with a page of other rights has a first such page, right after one without rights. */
  lemma FindGap(l: Layout, t: Table, r: Region, pg: nat) returns (g: nat)
    requires RegionOk(l, t, r) && Covers(r, pg) && AccessMask(EntryAt(l, t, pg)) != r.mask
    requires forall p: nat :: Covers(r, p) ==> p < l.NumPages()
    ensures RightsGap(l, t, g)
    decreases pg
  {
    hide EntryAt, AccessMask, DecodePte;
    assert r.mask == 0;
    assert PAGE_SIZE * (r.iova / PAGE_SIZE) == r.iova;
    assert Covers(r, pg - 1);
    if AccessMask(EntryAt(l, t, pg - 1)) == 0 {
      g := pg - 1;
    } else {
      g := FindGap(l, t, r, pg - 1);
    }
  }

  // ----- when the printed physical address is that of every page

  function Frame(l: Layout, t: Table, pg: nat): nat {
    DecodePte(l, EntryAt(l, t, pg)).phys
  }

  /** The frames of a region's pages follow the printed physical address. */
  ghost predicate PhysShown(l: Layout, t: Table, regions: seq<Region>) {
    forall i, pg :: 0 <= i < |regions| && Covers(regions[i], pg) ==>
      Frame(l, t, pg) == regions[i].phys + (PAGE_SIZE * pg - regions[i].iova)
  }

  /** Two mapped neighbours with the same rights whose frames are not neighbours. */
  ghost predicate PhysGap(l: Layout, t: Table, pg: nat) {
    && pg + 1 < l.NumPages() && Mapped(l, t, pg) && Mapped(l, t, pg + 1)
    && AccessMask(EntryAt(l, t, pg)) == AccessMask(EntryAt(l, t, pg + 1))
    && Frame(l, t, pg + 1) != Frame(l, t, pg) + PAGE_SIZE
  }

  /** The dump shows rights and physical address of every page if and only if there is neither kind of gap. */
  lemma ShownExact(l: Layout, t: Table, regions: seq<Region>)
    requires AllOk(l, t, regions) && Ordered(regions) && Exact(l, t, regions, l.NumPages())
    ensures Uniform(l, t, regions) && PhysShown(l, t, regions) <==>
      forall pg :: 0 <= pg ==> !RightsGap(l, t, pg) && !PhysGap(l, t, pg)
  {
    hide EntryAt, AccessMask, RegionOk, Covered, Mapped, Ordered, Frame, Covers;
    UniformExact(l, t, regions);
    if Uniform(l, t, regions) {
      if pg :| 0 <= pg && PhysGap(l, t, pg) {
        PhysBreaks(l, t, regions, pg);
      } else {
        forall i, pg | 0 <= i < |regions| && Covers(regions[i], pg)
          ensures Frame(l, t, pg) == regions[i].phys + (PAGE_SIZE * pg - regions[i].iova)
        {
          FramesFollow(l, t, regions, i, pg);
        }
      }
    }
  }

  /** With uniform rights, neighbours with the same rights are in one region, which cannot show both frames. */
  lemma PhysBreaks(l: Layout, t: Table, regions: seq<Region>, pg: nat)
    requires AllOk(l, t, regions) && Ordered(regions) && Exact(l, t, regions, l.NumPages())
    requires Uniform(l, t, regions) && PhysGap(l, t, pg)
    ensures !PhysShown(l, t, regions)
  {
    hide EntryAt, AccessMask, RegionOk, Covers, Ordered, Frame;
    assert Covered(regions, pg) && Covered(regions, pg + 1);
    var i :| 0 <= i < |regions| && Covers(regions[i], pg);
    var j :| 0 <= j < |regions| && Covers(regions[j], pg + 1);
    if i != j {
      Neighbours(l, t, regions, i, j, pg);
    }
  }

  /** Without gaps the frames of a region's pages follow its physical address, page by page. */
  lemma {:induction false} FramesFollow(l: Layout, t: Table, regions: seq<Region>, i: nat, pg: nat)
    requires AllOk(l, t, regions) && Exact(l, t, regions, l.NumPages()) && Uniform(l, t, regions)
    requires i < |regions| && Covers(regions[i], pg) && forall p :: 0 <= p ==> !PhysGap(l, t, p)
    ensures Frame(l, t, pg) == regions[i].phys + (PAGE_SIZE * pg - regions[i].iova)
    decreases pg
  {
    hide EntryAt, AccessMask, Covered, DecodePte;
    var r := regions[i];
    assert RegionOk(l, t, r) && PAGE_SIZE * (r.iova / PAGE_SIZE) == r.iova;
    if PAGE_SIZE * pg != r.iova {
      assert Covers(r, pg - 1);
      FramesFollow(l, t, regions, i, pg - 1);
      CoveredBy(regions, i, pg);
      assert !PhysGap(l, t, pg - 1);
    }
  }
}
