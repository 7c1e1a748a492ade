/**
 How a range of pages is cut into chunks at directory-slot boundaries, what the fill loop stores in
 them, and what the filled and cleared tables mean as plain page maps.
 */
module Chunks {
  import opened Layouts
  import opened Tables

  /** Pages handled in one round of the loops: up to the end of the slot or of the range. */
  function ChunkCount(l: Layout, cur: nat, hi: nat): nat
    requires cur < hi
  {
    var tail := l.NumPte() - l.Index(cur);
    if cur + tail > hi then hi - cur else tail
  }

  /** A chunk is not empty, stays inside one slot and ends at the range's end or at a slot boundary. */
  lemma ChunkShape(l: Layout, cur: nat, hi: nat)
    requires cur < hi
    ensures var n := ChunkCount(l, cur, hi);
      0 < n && cur + n <= hi && l.Index(cur) + n <= l.NumPte() && (cur + n == hi || l.Index(cur + n) == 0) &&
      (n == l.NumPte() ==> l.Index(cur) == 0)
  {
  }

  lemma ChunkPage(l: Layout, cur: nat, hi: nat, pg: nat)
    requires cur < hi
    ensures cur <= pg < cur + ChunkCount(l, cur, hi) ==>
      l.Slot(pg) == l.Slot(cur) && l.Index(pg) == l.Index(cur) + (pg - cur)
    ensures l.Slot(pg) == l.Slot(cur) && pg < hi ==> pg < cur + ChunkCount(l, cur, hi)
    ensures l.Slot(pg) == l.Slot(cur) ==> l.Index(pg) - l.Index(cur) == pg - cur
  {
  }

  /** The first page of the chunk that holds pg, for a range that starts at lo. */
  function ChunkStart(l: Layout, lo: nat, pg: nat): (c: nat)
    requires lo <= pg
    ensures lo <= c <= pg
  {
    if lo < l.PageAt(l.Slot(pg), 0) then l.PageAt(l.Slot(pg), 0) else lo
  }

  // ----- filling

  /** The word stored for page pg when the range from lo is mapped to the IOMMU address x. */
  function ChunkWord(l: Layout, lo: nat, x: nat, prot: Rights, pg: nat): Word
    requires lo <= pg
  {
    var c := ChunkStart(l, lo, pg);
    FillWord(l, x + PAGE_SIZE * (c - lo), prot, pg - c)
  }

  function FilledAt(l: Layout, words: seq<Word>, i: nat, n: nat, x: nat, prot: Rights, k: nat): Word
    requires k < |words|
  {
    if i <= k < i + n then FillWord(l, x, prot, k - i) else words[k]
  }

  /** The contents of one second-level table after a chunk of n entries from index i has been stored. */
  function FillWords(l: Layout, words: seq<Word>, i: nat, n: nat, x: nat, prot: Rights): seq<Word> {
    seq(|words|, k requires 0 <= k < |words| => FilledAt(l, words, i, n, x, prot, k))
  }

  predicate SlotsValid(l: Layout, t: Table, lo: nat, hi: nat) {
    forall pg :: lo <= pg < hi ==> ValidSlot(t, l.Slot(pg))
  }

  /** n entries from page cur on, with x the IOMMU address of page cur. */
  function FillPart(l: Layout, t: Table, cur: nat, n: nat, x: nat, prot: Rights): Table
    requires ValidSlot(t, l.Slot(cur)) && Base(l, t, l.Slot(cur)) in t.mem
  {
    var s := l.Slot(cur);
    SetTable(l, t, s, FillWords(l, t.mem[Base(l, t, s)], l.Index(cur), n, x, prot))
  }

  function FillChunk(l: Layout, t: Table, cur: nat, hi: nat, x: nat, prot: Rights): Table
    requires cur < hi && ValidSlot(t, l.Slot(cur)) && Base(l, t, l.Slot(cur)) in t.mem
  {
    FillPart(l, t, cur, ChunkCount(l, cur, hi), x, prot)
  }

  /** The table after the fill loop has run from page cur, with x the IOMMU address of page cur. */
  function FillTable(l: Layout, t: Table, cur: nat, hi: nat, x: nat, prot: Rights): Table
    decreases hi - cur
  {
    if cur >= hi || !ValidSlot(t, l.Slot(cur)) || Base(l, t, l.Slot(cur)) !in t.mem then t else
    ChunkShape(l, cur, hi);
    var n := ChunkCount(l, cur, hi);
    FillTable(l, FillChunk(l, t, cur, hi, x, prot), cur + n, hi, x + PAGE_SIZE * n, prot)
  }

  lemma FillTableStep(l: Layout, t: Table, cur: nat, hi: nat, x: nat, prot: Rights)
    requires Inv(l, t) && cur < hi && ValidSlot(t, l.Slot(cur))
    ensures Base(l, t, l.Slot(cur)) in t.mem
    ensures var n := ChunkCount(l, cur, hi);
      FillTable(l, t, cur, hi, x, prot) ==
        FillTable(l, FillChunk(l, t, cur, hi, x, prot), cur + n, hi, x + PAGE_SIZE * n, prot)
  {
    hide Inv, DentValid, DentBase, FillChunk, ChunkCount;
    LiveTable(l, t, l.Slot(cur));
  }

  lemma FillTableDone(l: Layout, t: Table, hi: nat, x: nat, prot: Rights)
    ensures FillTable(l, t, hi, hi, x, prot) == t
  {
  }

  ghost predicate FilledTo(l: Layout, t: Table, t': Table, lo: nat, hi: nat, x: nat, prot: Rights) {
    forall pg :: 0 <= pg < l.NumPages() ==>
      EntryAt(l, t', pg) == if lo <= pg < hi then ChunkWord(l, lo, x, prot, pg) else EntryAt(l, t, pg)
  }

  lemma FillWordsGood(l: Layout, words: seq<Word>, i: nat, n: nat, x: nat, prot: Rights)
    requires GoodWords(l, words) && x % PAGE_SIZE == 0 && n <= l.NumPte()
    ensures GoodWords(l, FillWords(l, words, i, n, x, prot))
  {
    hide FillWord, PteValid;
    var w' := FillWords(l, words, i, n, x, prot);
    forall k | 0 <= k < |w'|
      ensures w'[k] == 0 || PteValid(w'[k])
    {
      if i <= k < i + n {
        FillDecodes(l, x, prot, k - i);
      }
    }
  }

  lemma FillChunkKeeps(l: Layout, t: Table, cur: nat, hi: nat, x: nat, prot: Rights)
    requires Inv(l, t) && cur < hi && ValidSlot(t, l.Slot(cur)) && x % PAGE_SIZE == 0
    ensures Base(l, t, l.Slot(cur)) in t.mem
    ensures Inv(l, FillChunk(l, t, cur, hi, x, prot))
  {
    hide FillWord, FillWords, PteValid, GoodWords, DentValid, Base, SetTable, Layout.Slot;
    var s := l.Slot(cur);
    LiveTable(l, t, s);
    ChunkShape(l, cur, hi);
    var n := ChunkCount(l, cur, hi);
    assert n <= l.NumPte();
    FillWordsGood(l, t.mem[Base(l, t, s)], l.Index(cur), n, x, prot);
    SetTableInv(l, t, s, FillWords(l, t.mem[Base(l, t, s)], l.Index(cur), n, x, prot));
  }

  lemma LiveTable(l: Layout, t: Table, s: nat)
    requires Inv(l, t) && ValidSlot(t, s)
    ensures Base(l, t, s) in t.mem && GoodWords(l, t.mem[Base(l, t, s)])
    ensures |t.mem[Base(l, t, s)]| == l.NumPte()
  {
    hide DentValid, DentBase;
  }

  lemma FillChunkEntry(l: Layout, t: Table, lo: nat, cur: nat, hi: nat, x: nat, prot: Rights, pg: nat)
    requires Inv(l, t) && lo <= cur < hi && ValidSlot(t, l.Slot(cur)) && x % PAGE_SIZE == 0
    requires cur == lo || l.Index(cur) == 0
    ensures Base(l, t, l.Slot(cur)) in t.mem
    ensures EntryAt(l, FillChunk(l, t, cur, hi, x + PAGE_SIZE * (cur - lo), prot), pg)
         == if cur <= pg < cur + ChunkCount(l, cur, hi) then ChunkWord(l, lo, x, prot, pg) else EntryAt(l, t, pg)
  {
    hide FillWord, PteValid, GoodWords, DentValid, DentBase;
    var s, y := l.Slot(cur), x + PAGE_SIZE * (cur - lo);
    LiveTable(l, t, s);
    var words := t.mem[Base(l, t, s)];
    var n := ChunkCount(l, cur, hi);
    var words' := FillWords(l, words, l.Index(cur), n, y, prot);
    FillWordsGood(l, words, l.Index(cur), n, y, prot);
    SetTableEntry(l, t, s, words', pg);
    ChunkPage(l, cur, hi, pg);
  }

  /** Only table contents change in a chunk: the directory, and so slot validity, stays. */
  lemma FillChunkDir(l: Layout, t: Table, cur: nat, hi: nat, x: nat, prot: Rights)
    requires cur < hi && ValidSlot(t, l.Slot(cur)) && Base(l, t, l.Slot(cur)) in t.mem
    ensures FillChunk(l, t, cur, hi, x, prot).dir == t.dir
  {
  }

  /** The whole fill: every page of the range gets its chunk's word, every other entry stays. */
  lemma {:induction false} FillTableEntries(l: Layout, t: Table, lo: nat, cur: nat, hi: nat, x: nat, prot: Rights)
    requires Inv(l, t) && lo <= cur <= hi <= l.NumPages() && x % PAGE_SIZE == 0 && SlotsValid(l, t, cur, hi)
    requires cur == lo || cur == hi || l.Index(cur) == 0
    ensures var t' := FillTable(l, t, cur, hi, x + PAGE_SIZE * (cur - lo), prot);
      Inv(l, t') && t'.dir == t.dir &&
      forall pg :: 0 <= pg < l.NumPages() ==>
        EntryAt(l, t', pg) == if cur <= pg < hi then ChunkWord(l, lo, x, prot, pg) else EntryAt(l, t, pg)
    decreases hi - cur
  {
    hide EntryAt, ChunkWord, FillChunk, Base, DentValid, Inv, ChunkCount, Layout.Slot, Layout.Index;
    if cur < hi {
      var y := x + PAGE_SIZE * (cur - lo);
      var n := ChunkCount(l, cur, hi);
      ChunkShape(l, cur, hi);
      AlignedOffset(x, cur - lo);
      FillChunkKeeps(l, t, cur, hi, y, prot);
      FillChunkDir(l, t, cur, hi, y, prot);
      var t1 := FillChunk(l, t, cur, hi, y, prot);
      assert SlotsValid(l, t1, cur + n, hi);
      FillTableEntries(l, t1, lo, cur + n, hi, x, prot);
      assert y + PAGE_SIZE * n == x + PAGE_SIZE * (cur + n - lo);
      var t' := FillTable(l, t, cur, hi, y, prot);
      assert t' == FillTable(l, t1, cur + n, hi, y + PAGE_SIZE * n, prot);
      forall pg | 0 <= pg < l.NumPages()
        ensures EntryAt(l, t', pg) == if cur <= pg < hi then ChunkWord(l, lo, x, prot, pg) else EntryAt(l, t, pg)
      {
        FillChunkEntry(l, t, lo, cur, hi, x, prot, pg);
      }
    }
  }

  lemma AlignedOffset(x: nat, k: nat)
    requires x % PAGE_SIZE == 0
    ensures (x + PAGE_SIZE * k) % PAGE_SIZE == 0
  {
  }

  /** The page map of a contiguous range. */
  function RangeMap(lo: nat, hi: nat, paddr: nat, prot: Rights): map<nat, Mapping> {
    map pg: nat | lo <= pg < hi :: Mapping(FrameAt(lo, paddr, pg), prot)
  }

  function FrameAt(lo: nat, paddr: nat, pg: nat): nat
    requires lo <= pg
  {
    paddr + PAGE_SIZE * (pg - lo)
  }

  predicate LegalRange(l: Layout, lo: nat, hi: nat, paddr: nat) {
    && lo <= hi <= l.NumPages() && paddr % PAGE_SIZE == 0
    && PHYS_OFFSET <= paddr && paddr + PAGE_SIZE * (hi - lo) <= l.VaSize() + PHYS_OFFSET
  }

  /** No chunk of the range crosses a 4 GiB multiple of the physical address, where V2 would lose a carry. */
  predicate NoCarry(l: Layout, lo: nat, hi: nat, paddr: nat) {
    forall pg :: lo <= pg < hi ==> KeepsHigh(l, lo, paddr, pg)
  }

  /** The chunk that holds page pg has not crossed a 4 GiB multiple before reaching it. */
  predicate KeepsHigh(l: Layout, lo: nat, paddr: nat, pg: nat)
    requires lo <= pg
  {
    var c := ChunkStart(l, lo, pg);
    SameHigh(l, ToIommu(l, paddr) + PAGE_SIZE * (c - lo), pg - c)
  }

  lemma RelocatedOffset(l: Layout, paddr: nat, k: nat)
    requires LegalPhys(l, paddr) && LegalPhys(l, paddr + k)
    ensures ToCpu(l, (ToIommu(l, paddr) + k) % l.VaSize()) == paddr + k
  {
  }

  lemma ChunkWordDecodes(l: Layout, lo: nat, paddr: nat, prot: Rights, pg: nat)
    requires lo <= pg && paddr % PAGE_SIZE == 0 && LegalPhys(l, paddr) && LegalPhys(l, FrameAt(lo, paddr, pg))
    ensures var e := ChunkWord(l, lo, ToIommu(l, paddr), prot, pg);
      e != 0 && PteValid(e) &&
      (DecodePte(l, e) == Mapping(FrameAt(lo, paddr, pg), prot) <==> KeepsHigh(l, lo, paddr, pg))
  {
    hide FillWord, DecodePte, PteValid, SameHigh;
    var c := ChunkStart(l, lo, pg);
    var x := ToIommu(l, paddr) + PAGE_SIZE * (c - lo);
    assert x % PAGE_SIZE == 0 by {
      RelocatedAligned(l, paddr, c - lo);
    }
    assert pg - c < l.NumPte();
    FillDecodes(l, x, prot, pg - c);
    RelocatedOffset(l, paddr, PAGE_SIZE * (pg - lo));
    assert x + PAGE_SIZE * (pg - c) == ToIommu(l, paddr) + PAGE_SIZE * (pg - lo);
  }

  lemma RelocatedAligned(l: Layout, paddr: nat, k: nat)
    requires paddr % PAGE_SIZE == 0
    ensures (ToIommu(l, paddr) + PAGE_SIZE * k) % PAGE_SIZE == 0
  {
  }

  /** A filled table maps exactly the range in addition, if and only if no chunk loses a carry. */
  lemma FillRefines(l: Layout, t: Table, t': Table, lo: nat, hi: nat, paddr: nat, prot: Rights)
    requires LegalRange(l, lo, hi, paddr) && FilledTo(l, t, t', lo, hi, ToIommu(l, paddr), prot)
    ensures Abs(l, t') == Abs(l, t) + RangeMap(lo, hi, paddr, prot) <==> NoCarry(l, lo, hi, paddr)
  {
    hide ChunkWord, EntryAt, DecodePte, PteValid, KeepsHigh, LegalPhys, FrameAt;
    forall pg | lo <= pg < hi
      ensures Mapped(l, t', pg)
      ensures DecodePte(l, EntryAt(l, t', pg)) == Mapping(FrameAt(lo, paddr, pg), prot) <==> KeepsHigh(l, lo, paddr, pg)
    {
      FrameLegal(l, lo, hi, paddr, pg);
      ChunkWordDecodes(l, lo, paddr, prot, pg);
    }
    var m, m', r := Abs(l, t), Abs(l, t'), RangeMap(lo, hi, paddr, prot);
    assert m'.Keys == (m + r).Keys;
    if pg :| lo <= pg < hi && !KeepsHigh(l, lo, paddr, pg) {
      assert pg in r && pg in m' && m'[pg] != (m + r)[pg];
    }
  }

  lemma FrameLegal(l: Layout, lo: nat, hi: nat, paddr: nat, pg: nat)
    requires LegalRange(l, lo, hi, paddr) && lo <= pg < hi
    ensures LegalPhys(l, paddr) && LegalPhys(l, FrameAt(lo, paddr, pg))
  {
  }

  // ----- clearing

  function ZeroedAt(words: seq<Word>, i: nat, n: nat, k: nat): Word
    requires k < |words|
  {
    if i <= k < i + n then 0 else words[k]
  }

  /** The memset of n entries from index i. */
  function ZeroRun(words: seq<Word>, i: nat, n: nat): seq<Word> {
    seq(|words|, k requires 0 <= k < |words| => ZeroedAt(words, i, n, k))
  }

  function ZeroChunk(l: Layout, t: Table, cur: nat, n: nat): Table
    requires ValidSlot(t, l.Slot(cur)) && Base(l, t, l.Slot(cur)) in t.mem
  {
    var s := l.Slot(cur);
    SetTable(l, t, s, ZeroRun(t.mem[Base(l, t, s)], l.Index(cur), n))
  }

  /** One call of sunxi_pgtable_delete_l2_tables on a valid slot: a whole slot's table is unlinked and freed. */
  function DeleteChunk(l: Layout, t: Table, cur: nat, hi: nat): Table
    requires cur < hi && ValidSlot(t, l.Slot(cur)) && Base(l, t, l.Slot(cur)) in t.mem
  {
    var n := ChunkCount(l, cur, hi);
    var t1 := ZeroChunk(l, t, cur, n);
    if n == l.NumPte() then Drop(l, t1, l.Slot(cur)) else t1
  }

  /** The table after the unmap loop has run from page cur. */
  function UnmapTable(l: Layout, t: Table, cur: nat, hi: nat): Table
    decreases hi - cur
  {
    if cur >= hi || !ValidSlot(t, l.Slot(cur)) || Base(l, t, l.Slot(cur)) !in t.mem then t else
    ChunkShape(l, cur, hi);
    UnmapTable(l, DeleteChunk(l, t, cur, hi), cur + ChunkCount(l, cur, hi), hi)
  }

  /** Where the unmap loop stops: the first chunk whose slot is not valid, or the end of the range. */
  function UnmapStop(l: Layout, t: Table, cur: nat, hi: nat): (stop: nat)
    requires cur <= hi
    ensures cur <= stop <= hi
    decreases hi - cur
  {
    if cur == hi then hi else if !ValidSlot(t, l.Slot(cur)) then cur else
    ChunkShape(l, cur, hi);
    UnmapStop(l, t, cur + ChunkCount(l, cur, hi), hi)
  }

  lemma ZeroRunGood(l: Layout, words: seq<Word>, i: nat, n: nat)
    requires GoodWords(l, words)
    ensures GoodWords(l, ZeroRun(words, i, n))
    ensures i == 0 && n == l.NumPte() ==> ZeroRun(words, i, n) == ZeroWords(l)
  {
    hide PteValid;
  }

  lemma ZeroChunkKeeps(l: Layout, t: Table, cur: nat, n: nat)
    requires Inv(l, t) && ValidSlot(t, l.Slot(cur))
    ensures Base(l, t, l.Slot(cur)) in t.mem
    ensures Inv(l, ZeroChunk(l, t, cur, n)) && ZeroChunk(l, t, cur, n).dir == t.dir
  {
    hide PteValid, GoodWords, DentValid, ZeroRun, DentBase, ZeroWords, Layout.Slot;
    var s := l.Slot(cur);
    LiveTable(l, t, s);
    ZeroRunGood(l, t.mem[Base(l, t, s)], l.Index(cur), n);
    SetTableInv(l, t, s, ZeroRun(t.mem[Base(l, t, s)], l.Index(cur), n));
  }

  lemma ZeroChunkEntry(l: Layout, t: Table, cur: nat, hi: nat, pg: nat)
    requires Inv(l, t) && cur < hi && ValidSlot(t, l.Slot(cur))
    ensures Base(l, t, l.Slot(cur)) in t.mem
    ensures EntryAt(l, ZeroChunk(l, t, cur, ChunkCount(l, cur, hi)), pg)
         == if cur <= pg < cur + ChunkCount(l, cur, hi) then 0 else EntryAt(l, t, pg)
  {
    hide PteValid, GoodWords, DentValid, DentBase, ZeroWords;
    var s, n := l.Slot(cur), ChunkCount(l, cur, hi);
    LiveTable(l, t, s);
    var words := t.mem[Base(l, t, s)];
    ZeroRunGood(l, words, l.Index(cur), n);
    SetTableEntry(l, t, s, ZeroRun(words, l.Index(cur), n), pg);
    ChunkPage(l, cur, hi, pg);
  }

  /** One delete call keeps ownership, drops at most its own slot and clears exactly its chunk. */
  lemma DeleteChunkKeeps(l: Layout, t: Table, cur: nat, hi: nat)
    requires Inv(l, t) && cur < hi && ValidSlot(t, l.Slot(cur))
    ensures Base(l, t, l.Slot(cur)) in t.mem
    ensures var t' := DeleteChunk(l, t, cur, hi);
      Inv(l, t') && forall s :: 0 <= s < |t.dir| && s != l.Slot(cur) ==> (ValidSlot(t', s) <==> ValidSlot(t, s))
  {
    hide PteValid, GoodWords, DentValid, ZeroChunk, DentBase, ZeroWords, Inv, Drop, Layout.Slot;
    var s, n := l.Slot(cur), ChunkCount(l, cur, hi);
    ZeroChunkKeeps(l, t, cur, n);
    var t1 := ZeroChunk(l, t, cur, n);
    assert ValidSlot(t1, s);
    DropInv(l, t1, s);
  }

  lemma DeleteChunkEntry(l: Layout, t: Table, cur: nat, hi: nat, pg: nat)
    requires Inv(l, t) && cur < hi && ValidSlot(t, l.Slot(cur))
    ensures Base(l, t, l.Slot(cur)) in t.mem
    ensures EntryAt(l, DeleteChunk(l, t, cur, hi), pg)
         == if cur <= pg < cur + ChunkCount(l, cur, hi) then 0 else EntryAt(l, t, pg)
  {
    hide PteValid, GoodWords, DentValid, ZeroChunk, DentBase, ZeroWords, Inv, Drop, EntryAt, ChunkCount;
    var s, n := l.Slot(cur), ChunkCount(l, cur, hi);
    ZeroChunkKeeps(l, t, cur, n);
    ZeroChunkEntry(l, t, cur, hi, pg);
    var t1 := ZeroChunk(l, t, cur, n);
    if n == l.NumPte() {
      assert ValidSlot(t1, s);
      DropEntry(l, t1, s, pg);
      ChunkShape(l, cur, hi);
      WholeSlot(l, cur, pg);
    }
  }

  lemma WholeSlot(l: Layout, cur: nat, pg: nat)
    requires l.Index(cur) == 0
    ensures l.Slot(pg) == l.Slot(cur) <==> cur <= pg < cur + l.NumPte()
  {
  }

  ghost predicate ClearedTo(l: Layout, t: Table, t': Table, lo: nat, hi: nat) {
    forall pg :: 0 <= pg < l.NumPages() ==>
      EntryAt(l, t', pg) == if lo <= pg < hi then 0 else EntryAt(l, t, pg)
  }

  function PageSet(lo: nat, hi: nat): set<nat> {
    set pg: nat | lo <= pg < hi && InRange(lo, hi, pg)
  }

  predicate InRange(lo: nat, hi: nat, pg: nat) {
    lo <= pg < hi
  }

  lemma ClearRefines(l: Layout, t: Table, t': Table, lo: nat, hi: nat)
    requires ClearedTo(l, t, t', lo, hi)
    ensures Abs(l, t') == Abs(l, t) - PageSet(lo, hi)
  {
    hide EntryAt, DecodePte;
  }

  lemma {:induction false} StopSame(l: Layout, t: Table, t': Table, cur: nat, hi: nat)
    requires cur <= hi && |t'.dir| == |t.dir|
    requires forall pg :: cur <= pg < hi ==> (ValidSlot(t', l.Slot(pg)) <==> ValidSlot(t, l.Slot(pg)))
    ensures UnmapStop(l, t', cur, hi) == UnmapStop(l, t, cur, hi)
    decreases hi - cur
  {
    if cur < hi {
      ChunkShape(l, cur, hi);
      StopSame(l, t, t', cur + ChunkCount(l, cur, hi), hi);
    }
  }

  lemma LaterSlot(l: Layout, cur: nat, hi: nat, pg: nat)
    requires cur < hi && cur + ChunkCount(l, cur, hi) <= pg < hi
    ensures l.Slot(pg) != l.Slot(cur)
  {
  }

  /** Deleting a chunk does not move the stopping point. */
  lemma StopAfterChunk(l: Layout, t: Table, cur: nat, hi: nat)
    requires Inv(l, t) && cur < hi <= l.NumPages() && ValidSlot(t, l.Slot(cur))
    ensures Base(l, t, l.Slot(cur)) in t.mem && cur + ChunkCount(l, cur, hi) <= hi
    ensures UnmapStop(l, DeleteChunk(l, t, cur, hi), cur + ChunkCount(l, cur, hi), hi) == UnmapStop(l, t, cur, hi)
  {
    hide DeleteChunk, Base, DentValid, Inv, ChunkCount, Layout.Slot, Layout.Index;
    var n := ChunkCount(l, cur, hi);
    ChunkShape(l, cur, hi);
    DeleteChunkKeeps(l, t, cur, hi);
    var t1 := DeleteChunk(l, t, cur, hi);
    DirLength(l, t);
    DirLength(l, t1);
    forall pg | cur + n <= pg < hi
      ensures ValidSlot(t1, l.Slot(pg)) <==> ValidSlot(t, l.Slot(pg))
    {
      LaterSlot(l, cur, hi, pg);
      SlotInDir(l, t, pg);
    }
    StopSame(l, t, t1, cur + n, hi);
  }

  /** The whole unmap: exactly the pages from the start to the stopping point lose their entry. */
  lemma {:induction false} UnmapClears(l: Layout, t: Table, cur: nat, hi: nat)
    requires Inv(l, t) && cur <= hi <= l.NumPages()
    ensures var t' := UnmapTable(l, t, cur, hi); Inv(l, t') && ClearedTo(l, t, t', cur, UnmapStop(l, t, cur, hi))
    decreases hi - cur
  {
    hide EntryAt, DeleteChunk, Base, DentValid, Inv, ChunkCount, Layout.Slot, Layout.Index;
    if cur < hi && ValidSlot(t, l.Slot(cur)) {
      var n := ChunkCount(l, cur, hi);
      ChunkShape(l, cur, hi);
      DeleteChunkKeeps(l, t, cur, hi);
      var t1 := DeleteChunk(l, t, cur, hi);
      UnmapClears(l, t1, cur + n, hi);
      StopAfterChunk(l, t, cur, hi);
      var t' := UnmapTable(l, t, cur, hi);
      assert t' == UnmapTable(l, t1, cur + n, hi);
      forall pg | 0 <= pg < l.NumPages()
        ensures EntryAt(l, t', pg) == if cur <= pg < UnmapStop(l, t, cur, hi) then 0 else EntryAt(l, t, pg)
      {
        DeleteChunkEntry(l, t, cur, hi, pg);
      }
    }
  }

  lemma SlotInDir(l: Layout, t: Table, pg: nat)
    requires Inv(l, t) && pg < l.NumPages()
    ensures l.Slot(pg) < |t.dir|
  {
    PageSplit(l, pg);
  }

  lemma {:induction false} ValidStops(l: Layout, t: Table, cur: nat, hi: nat)
    requires cur <= hi && SlotsValid(l, t, cur, hi)
    ensures UnmapStop(l, t, cur, hi) == hi
    decreases hi - cur
  {
    if cur < hi {
      ChunkShape(l, cur, hi);
      ValidStops(l, t, cur + ChunkCount(l, cur, hi), hi);
    }
  }

  /** The stopping point is the first page of the range whose slot is not valid, or the end of the range. */
  lemma {:induction false} StopIsFirst(l: Layout, t: Table, cur: nat, hi: nat)
    requires cur <= hi
    ensures var stop := UnmapStop(l, t, cur, hi);
      SlotsValid(l, t, cur, stop) && (stop < hi ==> !ValidSlot(t, l.Slot(stop)))
    decreases hi - cur
  {
    hide DentValid, ChunkCount, Layout.Slot, Layout.Index;
    if cur < hi && ValidSlot(t, l.Slot(cur)) {
      var n := ChunkCount(l, cur, hi);
      ChunkShape(l, cur, hi);
      StopIsFirst(l, t, cur + n, hi);
      forall pg | cur <= pg < cur + n
        ensures ValidSlot(t, l.Slot(pg))
      {
        ChunkPage(l, cur, hi, pg);
      }
    }
  }

  /**
   Unmap removes exactly its range if and only if no page is still mapped behind the first
   slot that is not valid, where the error code is taken for a step.
   */
  lemma UnmapExact(l: Layout, t: Table, lo: nat, hi: nat)
    requires Inv(l, t) && lo <= hi <= l.NumPages()
    ensures Abs(l, UnmapTable(l, t, lo, hi)) == Abs(l, t) - PageSet(lo, hi) <==>
      forall pg :: UnmapStop(l, t, lo, hi) <= pg < hi ==> !Mapped(l, t, pg)
  {
    hide EntryAt, UnmapTable, DecodePte, Inv;
    var t', stop := UnmapTable(l, t, lo, hi), UnmapStop(l, t, lo, hi);
    UnmapClears(l, t, lo, hi);
    ClearRefines(l, t, t', lo, stop);
    if pg :| stop <= pg < hi && Mapped(l, t, pg) {
      assert pg in Abs(l, t') && pg in PageSet(lo, hi);
    } else {
      assert Abs(l, t) - PageSet(lo, stop) == Abs(l, t) - PageSet(lo, hi);
    }
  }
}
