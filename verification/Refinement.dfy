/**
 Whole runs of map, unmap and clear calls: the two-level table refines a plain map from pages to
 frames and rights.
 */
module Refinement {
  import opened Layouts
  import opened Tables
  import opened Chunks
  import opened Prepare

  /** One call, with the pages it is about. */
  datatype Op =
    | MapOp(lo: nat, hi: nat, paddr: nat, prot: Rights)
    | UnmapOp(lo: nat, hi: nat)
    | ClearOp

  /** What the call does to a plain page map; ok tells whether a map call found memory. */
  function Plain(m: map<nat, Mapping>, op: Op, ok: bool): map<nat, Mapping> {
    match op
    case MapOp(lo, hi, paddr, prot) => if ok then m + RangeMap(lo, hi, paddr, prot) else m
    case UnmapOp(lo, hi) => m - PageSet(lo, hi)
    case ClearOp => map[]
  }

  /** The plain map after the first k calls. */
  function PlainAfter(ops: seq<Op>, oks: seq<bool>, k: nat): map<nat, Mapping>
    requires k <= |ops| == |oks|
  {
    if k == 0 then map[] else Plain(PlainAfter(ops, oks, k - 1), ops[k - 1], oks[k - 1])
  }

  /** Pages inside the address space, and frames that the hardware can name when the map call finds memory. */
  predicate InBounds(l: Layout, op: Op, ok: bool) {
    match op
    case MapOp(lo, hi, paddr, prot) => ok ==> LegalRange(l, lo, hi, paddr)
    case UnmapOp(lo, hi) => lo <= hi <= l.NumPages()
    case ClearOp => true
  }

  /** No chunk of a map loses a carry, and nothing is mapped behind the slot where an unmap stops. */
  ghost predicate Allowed(l: Layout, t: Table, op: Op, ok: bool)
    requires InBounds(l, op, ok)
  {
    match op
    case MapOp(lo, hi, paddr, prot) => ok ==> NoCarry(l, lo, hi, paddr)
    case UnmapOp(lo, hi) => forall pg :: UnmapStop(l, t, lo, hi) <= pg < hi ==> !Mapped(l, t, pg)
    case ClearOp => true
  }

  /** The call's effect on the table, as `PageTable` and `Domain` are proved to have it. */
  ghost predicate Effect(l: Layout, t: Table, op: Op, ok: bool, t': Table) {
    match op
    case MapOp(lo, hi, paddr, prot) =>
      if ok then exists t1 :: Prepared(l, t, t1, lo, hi) && t' == FillTable(l, t1, lo, hi, ToIommu(l, paddr), prot)
      else Inv(l, t') && SameEntries(l, t, t')
    case UnmapOp(lo, hi) => t' == UnmapTable(l, t, lo, hi)
    case ClearOp => |t'.dir| == NUM_ENTRIES_PDE && t'.mem == map[] && forall s :: 0 <= s < |t'.dir| ==> t'.dir[s] == 0
  }

  /** The state between directory preparation and fill, including slots the loop prepares beyond the range. */
  ghost predicate Prepared(l: Layout, t: Table, t1: Table, lo: nat, hi: nat) {
    Inv(l, t1) && SameEntries(l, t, t1) && SlotsValid(l, t1, lo, hi)
  }

  /** Any one call acts on the page map as the plain operation, if and only if it is allowed. */
  lemma EffectRefines(l: Layout, t: Table, op: Op, ok: bool, t': Table)
    requires Inv(l, t) && InBounds(l, op, ok) && Effect(l, t, op, ok, t')
    ensures Inv(l, t')
    ensures Abs(l, t') == Plain(Abs(l, t), op, ok) <==> Allowed(l, t, op, ok)
  {
    hide Inv, EntryAt, FillTable, UnmapTable, NoCarry, ChunkWord, DecodePte, LegalRange, UnmapStop,
         Layout.Index, Layout.Slot;
    match op
    case MapOp(lo, hi, paddr, prot) =>
      if ok {
        var t1 :| Prepared(l, t, t1, lo, hi) && t' == FillTable(l, t1, lo, hi, ToIommu(l, paddr), prot);
        MapRefines(l, t, t1, lo, hi, paddr, prot);
      } else {
        SameAbs(l, t, t');
      }
    case UnmapOp(lo, hi) =>
      UnmapClears(l, t, lo, hi);
      UnmapExact(l, t, lo, hi);
    case ClearOp => EmptyInv(l, t');
  }

  lemma MapRefines(l: Layout, t: Table, t1: Table, lo: nat, hi: nat, paddr: nat, prot: Rights)
    requires Prepared(l, t, t1, lo, hi) && LegalRange(l, lo, hi, paddr)
    ensures var t' := FillTable(l, t1, lo, hi, ToIommu(l, paddr), prot);
      Inv(l, t') && (Abs(l, t') == Abs(l, t) + RangeMap(lo, hi, paddr, prot) <==> NoCarry(l, lo, hi, paddr))
  {
    hide Inv, EntryAt, FillTable, NoCarry, ChunkWord, DecodePte, Abs, RangeMap, Layout.Index;
    SameAbs(l, t, t1);
    RelocatedAligned(l, paddr, 0);
    FillTableEntries(l, t1, lo, lo, hi, ToIommu(l, paddr), prot);
    FillRefines(l, t1, FillTable(l, t1, lo, hi, ToIommu(l, paddr), prot), lo, hi, paddr, prot);
  }

  /** A run of calls within bounds, with the tables between them, from a table that maps nothing. */
  ghost predicate CallRun(l: Layout, ts: seq<Table>, ops: seq<Op>, oks: seq<bool>) {
    && |ts| == |ops| + 1 && |oks| == |ops| && Inv(l, ts[0]) && Abs(l, ts[0]) == map[]
    && (forall i :: 0 <= i < |ops| ==> InBounds(l, ops[i], oks[i]))
    && forall i :: 0 <= i < |ops| ==> Effect(l, ts[i], ops[i], oks[i], ts[i + 1])
  }

  lemma {:induction false} OwnershipInCalls(l: Layout, ts: seq<Table>, ops: seq<Op>, oks: seq<bool>, k: nat)
    requires CallRun(l, ts, ops, oks) && k < |ts|
    ensures Inv(l, ts[k])
  {
    hide Inv, Abs, Effect, Allowed, Plain, InBounds;
    if k > 0 {
      OwnershipInCalls(l, ts, ops, oks, k - 1);
      EffectRefines(l, ts[k - 1], ops[k - 1], oks[k - 1], ts[k]);
    }
  }

  /**
   The refinement, for every run and every pattern of allocation failures: the table stands for the plain
   map after each of the first k calls if and only if all of them are allowed.
   */
  lemma {:induction false} RunRefines(l: Layout, ts: seq<Table>, ops: seq<Op>, oks: seq<bool>, k: nat)
    requires CallRun(l, ts, ops, oks) && k < |ts|
    ensures Inv(l, ts[k])
    ensures (forall i :: 0 <= i <= k ==> Abs(l, ts[i]) == PlainAfter(ops, oks, i)) <==>
      forall i :: 0 <= i < k ==> Allowed(l, ts[i], ops[i], oks[i])
  {
    hide Inv, Abs, Effect, Allowed, Plain, InBounds;
    OwnershipInCalls(l, ts, ops, oks, k);
    if k > 0 {
      OwnershipInCalls(l, ts, ops, oks, k - 1);
      RunRefines(l, ts, ops, oks, k - 1);
      EffectRefines(l, ts[k - 1], ops[k - 1], oks[k - 1], ts[k]);
      assert PlainAfter(ops, oks, k) == Plain(PlainAfter(ops, oks, k - 1), ops[k - 1], oks[k - 1]);
    }
  }

  // ----- what the IOMMU core does

  /**
   Blocks from pgsize_bitmap, aligned to their size, and only mapped pages are unmapped: a condition on the
   plain map alone.
   */
  predicate BlockAllowed(l: Layout, m: map<nat, Mapping>, op: Op) {
    match op
    case MapOp(lo, hi, paddr, prot) =>
      && LegalRange(l, lo, hi, paddr) && BlockSize(PAGE_SIZE * (hi - lo))
      && SizeAligned(PAGE_SIZE * lo, PAGE_SIZE * (hi - lo)) && SizeAligned(paddr, PAGE_SIZE * (hi - lo))
    case UnmapOp(lo, hi) => lo <= hi <= l.NumPages() && forall pg :: lo <= pg < hi ==> pg in m
    case ClearOp => true
  }

  lemma BlockIsAllowed(l: Layout, t: Table, op: Op, ok: bool)
    requires BlockAllowed(l, Abs(l, t), op)
    ensures InBounds(l, op, ok) && Allowed(l, t, op, ok)
  {
    hide DentValid, DentBase, DecodePte, NoCarry, UnmapStop;
    match op
    case MapOp(lo, hi, paddr, prot) => BlockNoCarry(l, lo, hi, paddr, PAGE_SIZE * (hi - lo));
    case UnmapOp(lo, hi) =>
      forall pg | lo <= pg < hi
        ensures ValidSlot(t, l.Slot(pg))
      {
        assert pg in Abs(l, t);
      }
      ValidStops(l, t, lo, hi);
    case ClearOp =>
  }

  /** So a run whose calls are judged by the plain map alone refines it. */
  lemma {:induction false} BlockRunRefines(l: Layout, ts: seq<Table>, ops: seq<Op>, oks: seq<bool>, k: nat)
    requires CallRun(l, ts, ops, oks) && k < |ts|
    requires forall i :: 0 <= i < k ==> BlockAllowed(l, PlainAfter(ops, oks, i), ops[i])
    ensures forall i :: 0 <= i <= k ==> Abs(l, ts[i]) == PlainAfter(ops, oks, i)
    ensures forall i :: 0 <= i < k ==> Allowed(l, ts[i], ops[i], oks[i])
  {
    hide Inv, Abs, Effect, Allowed, BlockAllowed, Plain, InBounds;
    if k > 0 {
      BlockRunRefines(l, ts, ops, oks, k - 1);
      BlockIsAllowed(l, ts[k - 1], ops[k - 1], oks[k - 1]);
    }
    RunRefines(l, ts, ops, oks, k);
  }

  /** Unmap undoes map: on an empty range the page map is back where it was. */
  lemma MapUnmapRoundTrip(l: Layout, t: Table, lo: nat, hi: nat, x: nat, prot: Rights)
    requires Inv(l, t) && lo <= hi <= l.NumPages() && x % PAGE_SIZE == 0 && SlotsValid(l, t, lo, hi)
    requires forall pg :: lo <= pg < hi ==> !Mapped(l, t, pg)
    ensures Abs(l, UnmapTable(l, FillTable(l, t, lo, hi, x, prot), lo, hi)) == Abs(l, t)
  {
    hide Inv, FillTable, UnmapTable, DentValid, DentBase, DecodePte, ChunkWord, EntryAt, Layout.Index;
    var t1 := FillTable(l, t, lo, hi, x, prot);
    FillTableEntries(l, t, lo, lo, hi, x, prot);
    assert SlotsValid(l, t1, lo, hi);
    ValidStops(l, t1, lo, hi);
    UnmapClears(l, t1, lo, hi);
    var t2 := UnmapTable(l, t1, lo, hi);
    assert x + PAGE_SIZE * (lo - lo) == x;
    forall pg | 0 <= pg < l.NumPages()
      ensures EntryAt(l, t2, pg) == EntryAt(l, t, pg)
    {
      assert lo <= pg < hi ==> !Mapped(l, t, pg);
    }
    SameAbs(l, t, t2);
  }
}
