/**
 Which directory slots the preparation loop visits, when they cover the range to be mapped, and
 why the block sizes that the driver advertises always meet the conditions of the map path.
 */
module Prepare {
  import opened Layouts
  import opened Chunks

  /** Slot s is visited by the loop that steps from address a to `end` by one slot at a time. */
  predicate Visited(l: Layout, a: nat, end: nat, s: nat)
    decreases end - a
  {
    a <= end && (l.PdeIndex(a) == s || Visited(l, a + l.SpdSize(), end, s))
  }

  function SlotOf(l: Layout, a: nat): nat {
    match l case V1 => a / 0x10_0000 case V2 => a / 0x40_0000
  }

  function SlotOffset(l: Layout, a: nat): nat {
    match l case V1 => a % 0x10_0000 case V2 => a % 0x40_0000
  }

  /** The last slot number the loop reaches, before it is wrapped to the directory's size. */
  function LastSlot(l: Layout, a: nat, end: nat): nat
    requires a <= end
  {
    SlotOf(l, a) + SlotOf(l, end - a)
  }

  lemma PdeIndexIsSlot(l: Layout, a: nat)
    ensures l.PdeIndex(a) == SlotOf(l, a) % NUM_ENTRIES_PDE
  {
    hide Layout.PdeIndex;
    IndexValues(l, a);
  }

  lemma SlotStep(l: Layout, a: nat, end: nat)
    requires a <= end
    ensures SlotOf(l, a + l.SpdSize()) == SlotOf(l, a) + 1
    ensures a + l.SpdSize() <= end ==> LastSlot(l, a + l.SpdSize(), end) == LastSlot(l, a, end)
    ensures a + l.SpdSize() > end ==> LastSlot(l, a, end) == SlotOf(l, a)
    ensures end <= l.VaSize() ==> LastSlot(l, a, end) <= NUM_ENTRIES_PDE
  {
  }

  /** The visited slots are an interval of the directory, and slot 0 when the loop wraps at the very top. */
  lemma {:induction false} VisitedSlots(l: Layout, a: nat, end: nat, s: nat)
    requires a <= end <= l.VaSize() && s < NUM_ENTRIES_PDE
    ensures Visited(l, a, end, s) <==>
      SlotOf(l, a) <= s <= LastSlot(l, a, end) || (s == 0 && LastSlot(l, a, end) == NUM_ENTRIES_PDE)
    decreases end - a
  {
    hide Layout.PdeIndex, LastSlot, SlotOf;
    PdeIndexIsSlot(l, a);
    SlotStep(l, a, end);
    SlotBound(l, a, end);
    if a + l.SpdSize() <= end {
      VisitedSlots(l, a + l.SpdSize(), end, s);
    }
  }

  lemma SlotBound(l: Layout, a: nat, end: nat)
    requires a <= end <= l.VaSize()
    ensures SlotOf(l, a) <= NUM_ENTRIES_PDE && SlotOf(l, a) <= LastSlot(l, a, end)
  {
  }

  /** The slots that pages of [start, end) need. */
  predicate NeededSlot(l: Layout, start: nat, end: nat, s: nat)
    requires start < end
  {
    SlotOf(l, start) <= s <= SlotOf(l, end - 1)
  }

  /** What a caller can check: the offset into the first slot against the bytes used of the last one. */
  predicate StrideCovers(l: Layout, start: nat, end: nat)
    requires start < end
  {
    SlotOffset(l, start) <= SlotOffset(l, end - 1) + 1
  }

  /** Preparation reaches every slot of the range if and only if the offsets allow it. */
  lemma CoverageExact(l: Layout, start: nat, end: nat)
    requires start < end <= l.VaSize()
    ensures (forall s :: 0 <= s < NUM_ENTRIES_PDE && NeededSlot(l, start, end, s) ==> Visited(l, start, end, s)) <==>
      StrideCovers(l, start, end)
  {
    hide Visited, LastSlot, SlotOf, StrideCovers;
    StrideArithmetic(l, start, end);
    var last := SlotOf(l, end - 1);
    VisitedSlots(l, start, end, last);
    if StrideCovers(l, start, end) {
      forall s | 0 <= s < NUM_ENTRIES_PDE && NeededSlot(l, start, end, s)
        ensures Visited(l, start, end, s)
      {
        VisitedSlots(l, start, end, s);
      }
    } else {
      assert NeededSlot(l, start, end, last);
    }
  }

  /** When the offsets do not allow it, the last slot is the only one that is missed. */
  lemma OnlyLastMissed(l: Layout, start: nat, end: nat, s: nat)
    requires start < end <= l.VaSize() && s < NUM_ENTRIES_PDE && NeededSlot(l, start, end, s)
    requires !StrideCovers(l, start, end)
    ensures Visited(l, start, end, s) <==> s != SlotOf(l, end - 1)
  {
    hide Visited, LastSlot, SlotOf, StrideCovers;
    StrideArithmetic(l, start, end);
    VisitedSlots(l, start, end, s);
  }

  /** A range from the middle of slot 0 to the first page of slot 1: slot 1 is needed and not visited. */
  lemma UncoveredRange()
    ensures !StrideCovers(V1, 0x8_0000, 0x10_1000)
    ensures NeededSlot(V1, 0x8_0000, 0x10_1000, 1) && !Visited(V1, 0x8_0000, 0x10_1000, 1)
  {
    VisitedSlots(V1, 0x8_0000, 0x10_1000, 1);
  }

  lemma StrideArithmetic(l: Layout, start: nat, end: nat)
    requires start < end <= l.VaSize()
    ensures SlotOf(l, end - 1) <= LastSlot(l, start, end) <==> StrideCovers(l, start, end)
    ensures SlotOf(l, end - 1) <= LastSlot(l, start, end) + 1
    ensures SlotOf(l, start) <= SlotOf(l, end - 1) < NUM_ENTRIES_PDE
    ensures LastSlot(l, start, end) == NUM_ENTRIES_PDE && SlotOf(l, end - 1) == 0 ==> SlotOf(l, start) == 0
  {
  }

  // ----- blocks from pgsize_bitmap

  predicate BlockSize(size: nat) {
    size in {0x1000, 0x4000, 0x1_0000, 0x4_0000, 0x10_0000, 0x40_0000, 0x100_0000}
  }

  /** The seven sizes are 4 KiB times the powers of 4 up to 16 MiB. */
  lemma BlockSizes(size: nat)
    ensures BlockSize(size) <==> exists k :: 0 <= k < 7 && size == 4096 * Power4(k)
  {
    assert Power4(0) == 1 && Power4(1) == 4 && Power4(2) == 16 && Power4(3) == 64;
    assert Power4(4) == 256 && Power4(5) == 1024 && Power4(6) == 4096;
    if BlockSize(size) {
      var k := if size == 0x1000 then 0 else if size == 0x4000 then 1 else if size == 0x1_0000 then 2
               else if size == 0x4_0000 then 3 else if size == 0x10_0000 then 4 else if size == 0x40_0000 then 5 else 6;
      assert size == 4096 * Power4(k);
    }
  }

  function Power4(k: nat): nat {
    if k == 0 then 1 else 4 * Power4(k - 1)
  }

  predicate SizeAligned(a: nat, size: nat)
    requires BlockSize(size)
  {
    a % size == 0
  }

  lemma OffsetOf(l: Layout, a: nat, q: nat, o: nat)
    requires a == l.SpdSize() * q + o && o < l.SpdSize()
    ensures SlotOffset(l, a) == o
  {
    match l
    case V1 => Offset1M(a, q, o);
    case V2 => Offset4M(a, q, o);
  }

  lemma Offset1M(a: nat, q: nat, o: nat)
    requires a == 0x10_0000 * q + o && o < 0x10_0000
    ensures a % 0x10_0000 == o
  {
  }

  lemma Offset4M(a: nat, q: nat, o: nat)
    requires a == 0x40_0000 * q + o && o < 0x40_0000
    ensures a % 0x40_0000 == o
  {
  }

  /** A block that fits into a slot starts where enough of the slot is left; a larger one starts at its beginning. */
  lemma BlockOffset(l: Layout, iova: nat, size: nat)
    requires BlockSize(size) && SizeAligned(iova, size)
    ensures if size < l.SpdSize() then SlotOffset(l, iova) + size <= l.SpdSize() else SlotOffset(l, iova) == 0
  {
    match l
    case V1 => BlockOffset1(iova, size);
    case V2 => BlockOffset2(iova, size);
  }

  lemma BlockOffset1(iova: nat, size: nat)
    requires BlockSize(size) && SizeAligned(iova, size)
    ensures if size < 0x10_0000 then SlotOffset(V1, iova) + size <= 0x10_0000 else SlotOffset(V1, iova) == 0
  {
    hide SlotOffset;
    var k := iova / size;
    if size == 0x1000 {
      OffsetOf(V1, iova, k / 0x100, k % 0x100 * 0x1000);
    } else if size == 0x4000 {
      OffsetOf(V1, iova, k / 0x40, k % 0x40 * 0x4000);
    } else if size == 0x1_0000 {
      OffsetOf(V1, iova, k / 0x10, k % 0x10 * 0x1_0000);
    } else if size == 0x4_0000 {
      OffsetOf(V1, iova, k / 4, k % 4 * 0x4_0000);
    } else {
      OffsetOf(V1, iova, if size == 0x10_0000 then k else if size == 0x40_0000 then 4 * k else 0x10 * k, 0);
    }
  }

  lemma BlockOffset2(iova: nat, size: nat)
    requires BlockSize(size) && SizeAligned(iova, size)
    ensures if size < 0x40_0000 then SlotOffset(V2, iova) + size <= 0x40_0000 else SlotOffset(V2, iova) == 0
  {
    hide SlotOffset;
    var k := iova / size;
    if size == 0x1000 {
      OffsetOf(V2, iova, k / 0x400, k % 0x400 * 0x1000);
    } else if size == 0x4000 {
      OffsetOf(V2, iova, k / 0x100, k % 0x100 * 0x4000);
    } else if size == 0x1_0000 {
      OffsetOf(V2, iova, k / 0x40, k % 0x40 * 0x1_0000);
    } else if size == 0x4_0000 {
      OffsetOf(V2, iova, k / 0x10, k % 0x10 * 0x4_0000);
    } else if size == 0x10_0000 {
      OffsetOf(V2, iova, k / 4, k % 4 * 0x10_0000);
    } else {
      OffsetOf(V2, iova, if size == 0x40_0000 then k else 4 * k, 0);
    }
  }

  /** Every size-aligned block is covered by the preparation loop. */
  lemma BlockCovered(l: Layout, iova: nat, size: nat)
    requires BlockSize(size) && SizeAligned(iova, size)
    ensures StrideCovers(l, iova, iova + size)
  {
    BlockOffset(l, iova, size);
    if size < l.SpdSize() {
      OffsetOf(l, iova + size - 1, SlotOf(l, iova), SlotOffset(l, iova) + size - 1);
    }
  }

  /** A size-aligned physical block lies between two 4 GiB multiples, so its chunks lose no carry. */
  lemma BlockNoCarry(l: Layout, lo: nat, hi: nat, paddr: nat, size: nat)
    requires BlockSize(size) && SizeAligned(paddr, size) && size == PAGE_SIZE * (hi - lo) && lo <= hi
    ensures NoCarry(l, lo, hi, paddr)
  {
    BlockBelow4G(paddr, size);
    var x := ToIommu(l, paddr);
    forall pg | lo <= pg < hi
      ensures KeepsHigh(l, lo, paddr, pg)
    {
      var c := ChunkStart(l, lo, pg);
      hide ChunkStart;
      if l.V2? {
        SameQuotient(l, paddr, PAGE_SIZE * (c - lo), PAGE_SIZE * (pg - lo));
      }
    }
  }

  lemma BlockBelow4G(paddr: nat, size: nat)
    requires BlockSize(size) && SizeAligned(paddr, size)
    ensures paddr % FOUR_GIB + size <= FOUR_GIB
  {
    var k := paddr / size;
    if size == 0x1000 {
      Split4G(paddr, k / 0x10_0000, k % 0x10_0000 * 0x1000);
    } else if size == 0x4000 {
      Split4G(paddr, k / 0x4_0000, k % 0x4_0000 * 0x4000);
    } else if size == 0x1_0000 {
      Split4G(paddr, k / 0x1_0000, k % 0x1_0000 * 0x1_0000);
    } else if size == 0x4_0000 {
      Split4G(paddr, k / 0x4000, k % 0x4000 * 0x4_0000);
    } else if size == 0x10_0000 {
      Split4G(paddr, k / 0x1000, k % 0x1000 * 0x10_0000);
    } else if size == 0x40_0000 {
      Split4G(paddr, k / 0x400, k % 0x400 * 0x40_0000);
    } else {
      Split4G(paddr, k / 0x100, k % 0x100 * 0x100_0000);
    }
  }

  lemma SameQuotient(l: Layout, paddr: nat, i: nat, j: nat)
    requires i <= j && paddr % FOUR_GIB + j < FOUR_GIB
    ensures (ToIommu(l, paddr) + i) / FOUR_GIB == (ToIommu(l, paddr) + j) / FOUR_GIB
  {
  }
}
