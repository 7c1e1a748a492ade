/**
 The functions of sunxi-iommu-pgtable.c on a directory array and the second-level tables in memory,
 proved against the table values of `Tables`, `Chunks` and `Prepare`.
 */
module PageTables {
  import opened Layouts
  import opened Tables
  import opened Chunks
  import opened Prepare
  import Bits

  const ENOMEM: int := 12
  const EINVAL: int := 22

  class PageTable {
    const l: Layout
    const dir: array<Word>
    /** The live second-level tables, by the physical address of their base. */
    var mem: map<nat, seq<Word>>

    ghost function View(): Table
      reads this, dir
    {
      Table(dir[..], mem)
    }

    ghost predicate Valid()
      reads this, dir
    {
      dir.Length == NUM_ENTRIES_PDE && Inv(l, View())
    }

    /** sunxi_pgtable_alloc */
    constructor (l: Layout)
      ensures this.l == l && Valid() && fresh(dir) && Abs(l, View()) == map[]
      ensures mem == map[] && forall s :: 0 <= s < NUM_ENTRIES_PDE ==> dir[s] == 0
    {
      this.l := l;
      dir := new Word[NUM_ENTRIES_PDE](i => 0);
      mem := map[];
      new;
      EmptyInv(l, View());
    }

    /** sunxi_alloc_iopte: the allocator may fail, and otherwise returns any unused aligned block. */
    method AllocIopte(s: nat) returns (ok: bool)
      requires Valid() && s < NUM_ENTRIES_PDE && !ValidSlot(View(), s)
      modifies this`mem, dir
      ensures Valid() && SameEntries(l, old(View()), View())
      ensures !ok ==> View() == old(View())
      ensures ok ==> exists b: nat :: TableAddress(l, b) && b !in old(mem) && View() == Install(l, old(View()), s, b)
      ensures ok ==> forall s' :: 0 <= s' < NUM_ENTRIES_PDE ==>
        (ValidSlot(View(), s') <==> ValidSlot(old(View()), s') || s' == s)
    {
      hide EntryAt, DentValid, DentBase, MkDent, Inv, TableAddress, ZeroWords;
      ghost var t := View();
      var b: nat := *;
      ok := TableAddress(l, b) && b !in mem;
      if ok {
        mem := mem[b := ZeroWords(l)];
        dir[s] := MkDent(l, b);
        DirLength(l, t);
        assert View() == Install(l, t, s, b);
        InstallInv(l, t, s, b);
        forall pg | 0 <= pg < l.NumPages()
          ensures EntryAt(l, View(), pg) == EntryAt(l, t, pg)
        {
          InstallEntry(l, t, s, b, pg);
        }
      }
    }

    /**
     sunxi_pgtable_prepare_l1_tables: no translation changes, no slot is lost, only visited slots are
     added, on success all of them are valid, and it fails only when one of them has no table.
     */
    method PrepareL1(iovaStart: nat, iovaEnd: nat) returns (err: int, ghost links: seq<Link>)
      requires Valid()
      modifies this`mem, dir
      ensures Valid() && SameEntries(l, old(View()), View()) && Links(l, old(View()), links, View())
      ensures err == 0 || err == -12
      ensures err != 0 ==> AnyVisitedInvalid(l, View(), iovaStart, iovaEnd)
      ensures forall s :: 0 <= s < NUM_ENTRIES_PDE && ValidSlot(old(View()), s) ==> ValidSlot(View(), s)
      ensures forall s :: 0 <= s < NUM_ENTRIES_PDE && ValidSlot(View(), s) ==>
        ValidSlot(old(View()), s) || Visited(l, iovaStart, iovaEnd, s)
      ensures err == 0 ==>
        forall s :: 0 <= s < NUM_ENTRIES_PDE && Visited(l, iovaStart, iovaEnd, s) ==> ValidSlot(View(), s)
    {
      hide EntryAt, DentValid, DentBase, MkDent, Inv, TableAddress, Install, Layout.PdeIndex;
      var iova := iovaStart;
      ghost var t := View();
      links := [];
      while iova <= iovaEnd
        invariant Valid() && SameEntries(l, t, View()) && Links(l, t, links, View())
        invariant forall s :: 0 <= s < NUM_ENTRIES_PDE && ValidSlot(t, s) ==> ValidSlot(View(), s)
        invariant forall s :: 0 <= s < NUM_ENTRIES_PDE && ValidSlot(View(), s) ==>
          ValidSlot(t, s) || Visited(l, iovaStart, iovaEnd, s)
        invariant forall s :: 0 <= s < NUM_ENTRIES_PDE && Visited(l, iovaStart, iovaEnd, s) ==>
          ValidSlot(View(), s) || Visited(l, iova, iovaEnd, s)
        invariant forall s :: Visited(l, iova, iovaEnd, s) ==> Visited(l, iovaStart, iovaEnd, s)
        decreases iovaEnd - iova
      {
        PdeIndexIsSlot(l, iova);
        var s := l.PdeIndex(iova);
        if !DentValid(dir[s]) {
          ghost var t1 := View();
          var ok := AllocIopte(s);
          if !ok {
            assert Visited(l, iovaStart, iovaEnd, s) && !ValidSlot(View(), s);
            return -ENOMEM, links;
          }
          ghost var b: nat :| TableAddress(l, b) && b !in t1.mem && View() == Install(l, t1, s, b);
          LinksAppend(l, t, links, t1, Link(s, b));
          links := links + [Link(s, b)];
        }
        iova := iova + l.SpdSize();
      }
      return 0, links;
    }

    /** The inner loop of sunxi_pgtable_prepare_l2_tables over one chunk. */
    method FillEntries(s: nat, i: nat, n: nat, x: nat, prot: Rights) returns (warned: bool)
      requires ValidSlot(View(), s) && Base(l, View(), s) in mem && i + n <= |mem[Base(l, View(), s)]|
      modifies this`mem
      ensures View() == SetTable(l, old(View()), s, FillWords(l, old(mem)[Base(l, old(View()), s)], i, n, x, prot))
      ensures warned <==> exists k :: i <= k < i + n && old(mem)[Base(l, old(View()), s)][k] != 0
    {
      hide DentValid, DentBase, MkPte;
      var base := DentBase(l, dir[s]);
      var pentVal := MkPte(l, x, prot);
      ghost var words := mem[base];
      warned := false;
      assert words == FillWords(l, words, i, 0, x, prot);
      assert mem == mem[base := words];
      for k := 0 to n
        invariant base in mem && mem == old(mem)[base := FillWords(l, words, i, k, x, prot)]
        invariant warned <==> exists j :: i <= j < i + k && words[j] != 0
      {
        if mem[base][i + k] != 0 {
          warned := true;
        }
        var pent: Word := (pentVal + PAGE_SIZE * k) % FOUR_GIB;
        var table: seq<Word> := mem[base][i + k := pent];
        mem := mem[base := table];
        assert mem[base] == FillWords(l, words, i, k + 1, x, prot);
      }
    }

    /**
     One round of the outer loop of sunxi_pgtable_prepare_l2_tables, from page cur of a range that ends at page
     hi.
     */
    method FillRound(iova: nat, iovaEnd: nat, paddrStart: nat, prot: Rights, ghost cur: nat, ghost hi: nat)
      returns (tailSize: nat, warned: bool)
      requires Valid() && iova == PAGE_SIZE * cur && iovaEnd == PAGE_SIZE * hi && cur < hi <= l.NumPages()
      requires paddrStart % PAGE_SIZE == 0 && ValidSlot(View(), l.Slot(cur))
      modifies this`mem
      ensures Valid() && tailSize == PAGE_SIZE * ChunkCount(l, cur, hi)
      ensures Base(l, old(View()), l.Slot(cur)) in old(View()).mem
      ensures View() == FillChunk(l, old(View()), cur, hi, paddrStart, prot)
      ensures warned <==> AnyMapped(l, old(View()), cur, cur + ChunkCount(l, cur, hi))
    {
      hide EntryAt, DentValid, DentBase, MkPte, Inv, FillWords, SetTable, ChunkCount, Layout.PdeIndex,
           Layout.PteIndex, Layout.Slot, Layout.Index;
      ghost var t := View();
      IndexValues(l, iova);
      PageInRange(l, cur);
      TailIsChunk(l, iova, iovaEnd);
      ChunkShape(l, cur, hi);
      LiveTable(l, t, l.Slot(cur));
      ChunkWarned(l, t, cur, hi);
      FillChunkKeeps(l, t, cur, hi, paddrStart, prot);
      var tailCount := l.NumPte() - l.PteIndex(iova);
      tailSize := tailCount * PAGE_SIZE;
      if iova + tailSize > iovaEnd {
        tailSize := iovaEnd - iova;
        tailCount := tailSize / PAGE_SIZE;
      }
      warned := FillEntries(l.PdeIndex(iova), l.PteIndex(iova), tailCount, paddrStart, prot);
    }

    /**
     sunxi_pgtable_prepare_l2_tables: the chunked fill, and whether WARN_ON fired, which is exactly
     when some page of the range was mapped before.
     */
    method PrepareL2(iovaStart: nat, iovaEnd: nat, paddr: nat, prot: Rights) returns (warned: bool)
      requires Valid() && iovaStart % PAGE_SIZE == 0 && iovaEnd % PAGE_SIZE == 0 && iovaStart <= iovaEnd <= l.VaSize()
      requires SlotsValid(l, View(), iovaStart / PAGE_SIZE, iovaEnd / PAGE_SIZE)
      modifies this`mem
      ensures Valid()
      ensures View() == FillTable(l, old(View()), iovaStart / PAGE_SIZE, iovaEnd / PAGE_SIZE,
                                  Bits.AndNot(ToIommu(l, paddr), 0xfff), prot)
      ensures warned <==> AnyMapped(l, old(View()), iovaStart / PAGE_SIZE, iovaEnd / PAGE_SIZE)
    {
      hide EntryAt, DentValid, DentBase, Inv, FillChunk, ChunkCount, AnyMapped, FillTable, SameFrom,
           Bits.AndNot, ToIommu, Layout.Slot, Layout.Index;
      ghost var t, lo, hi := View(), iovaStart / PAGE_SIZE, iovaEnd / PAGE_SIZE;
      var paddrStart: nat := Bits.AndNot(ToIommu(l, paddr), 0xfff);
      Bits.Mask12(ToIommu(l, paddr));
      ghost var x, cur := paddrStart, lo;
      var iova := iovaStart;
      warned := false;
      NoneMapped(l, t, lo);
      SameFromStart(l, t, lo);
      while iova < iovaEnd
        invariant Valid() && lo <= cur <= hi && iova == PAGE_SIZE * cur && dir[..] == t.dir
        invariant paddrStart % PAGE_SIZE == 0
        invariant FillTable(l, View(), cur, hi, paddrStart, prot) == FillTable(l, t, lo, hi, x, prot)
        invariant SameFrom(l, t, View(), cur)
        invariant warned <==> AnyMapped(l, t, lo, cur)
      {
        ghost var t1, n := View(), ChunkCount(l, cur, hi);
        assert ValidSlot(t, l.Slot(cur)) && ValidSlot(t1, l.Slot(cur));
        RoundFills(l, t, t1, lo, cur, hi, paddrStart, prot);
        var tailSize, w := FillRound(iova, iovaEnd, paddrStart, prot, cur, hi);
        warned := warned || w;
        iova := iova + tailSize;
        paddrStart := paddrStart + tailSize;
        cur := cur + n;
      }
      FillTableDone(l, View(), hi, paddrStart, prot);
    }

    /** sunxi_free_iopte: what is freed is the base of a live table whose entries are all zero. */
    method FreeIopte(pent: nat)
      requires pent in mem && mem[pent] == ZeroWords(l)
      modifies this`mem
      ensures mem == old(mem) - {pent}
    {
      mem := mem - {pent};
    }

    /**
     sunxi_pgtable_delete_l2_tables: clears one chunk and returns its size, or an error for a slot that is not
     valid.
     */
    method DeleteL2(iovaStart: nat, iovaEnd: nat) returns (r: int)
      requires Valid() && iovaStart % PAGE_SIZE == 0 && iovaEnd % PAGE_SIZE == 0 && iovaStart < iovaEnd <= l.VaSize()
      modifies this`mem, dir
      ensures Valid()
      ensures var t, cur, hi := old(View()), iovaStart / PAGE_SIZE, iovaEnd / PAGE_SIZE;
        if ValidSlot(t, l.Slot(cur)) then
          Base(l, t, l.Slot(cur)) in t.mem && View() == DeleteChunk(l, t, cur, hi) &&
          r == PAGE_SIZE * ChunkCount(l, cur, hi)
        else View() == t && r == -22
    {
      hide EntryAt, DentValid, DentBase, MkPte, Inv, ChunkCount, ZeroRun, ZeroWords, GoodWords,
           Layout.PdeIndex, Layout.PteIndex, Layout.Slot, Layout.Index;
      ghost var t, cur, hi := View(), iovaStart / PAGE_SIZE, iovaEnd / PAGE_SIZE;
      IndexValues(l, iovaStart);
      PageInRange(l, cur);
      TailIsChunk(l, iovaStart, iovaEnd);
      ChunkShape(l, cur, hi);
      SlotInDir(l, t, cur);
      var tailCount: nat := l.NumPte() - l.PteIndex(iovaStart);
      var tailSize: nat := tailCount * PAGE_SIZE;
      if iovaStart + tailSize > iovaEnd {
        tailSize := iovaEnd - iovaStart;
        tailCount := tailSize / PAGE_SIZE;
      }
      var s := l.PdeIndex(iovaStart);
      if !DentValid(dir[s]) {
        return -EINVAL;
      }
      LiveTable(l, t, s);
      DeleteChunkKeeps(l, t, cur, hi);
      var base, i := DentBase(l, dir[s]), l.PteIndex(iovaStart);
      var pent := base + 4 * i;
      ZeroRunGood(l, mem[base], i, tailCount);
      mem := mem[base := ZeroRun(mem[base], i, tailCount)];
      if tailSize == l.SpdSize() {
        dir[s] := 0;
        FreeIopte(pent);
      }
      r := tailSize;
    }

    /** sunxi_pgtable_iova_to_phys: the frame of the page plus the offset, and 0 exactly when the page is not mapped. */
    method IovaToPhys(iova: nat) returns (r: nat)
      requires Valid()
      ensures var pg := iova / PAGE_SIZE % l.NumPages();
        if pg in Abs(l, View()) then r == Abs(l, View())[pg].phys + iova % PAGE_SIZE && r != 0 else r == 0
    {
      hide EntryAt, DentValid, DentBase, Inv, PtePfn, Layout.PdeIndex, Layout.PteIndex;
      var s := l.PdeIndex(iova);
      WalkReads(l, View(), iova);
      r := 0;
      if DentValid(dir[s]) {
        var pent := mem[DentBase(l, dir[s])][l.PteIndex(iova)];
        if pent != 0 {
          r := ToCpu(l, PtePfn(l, pent) + Bits.And(iova, 0xfff));
          Bits.Mask12(iova);
          PfnOffset(l, pent, iova % PAGE_SIZE);
        }
      }
    }

    /** sunxi_pgtable_invalid_helper: 0 exactly when the page is mapped. */
    method InvalidHelper(iova: nat) returns (r: int)
      requires Valid()
      ensures r == if iova / PAGE_SIZE % l.NumPages() in Abs(l, View()) then 0 else 1
    {
      hide EntryAt, DentBase, Inv, DecodePte, Layout.PdeIndex, Layout.PteIndex;
      var s := l.PdeIndex(iova);
      WalkReads(l, View(), iova);
      if Bits.And(dir[s], 3) != 1 {
        return 1;
      }
      var pent := mem[DentBase(l, dir[s])][l.PteIndex(iova)];
      if Bits.And(pent, 2) == 0 {
        return 1;
      }
      return 0;
    }

    /** sunxi_pgtable_clear: every slot is cleared, every table is freed and nothing stays mapped. */
    method Clear()
      requires Valid()
      modifies this`mem, dir
      ensures Valid() && mem == map[] && Abs(l, View()) == map[]
      ensures forall s :: 0 <= s < NUM_ENTRIES_PDE ==> dir[s] == 0
    {
      hide EntryAt, DentValid, DentBase, Inv, ZeroWords, GoodWords;
      for i := 0 to NUM_ENTRIES_PDE
        invariant Valid() && forall s :: 0 <= s < i ==> dir[s] == 0
      {
        ghost var t := View();
        if DentValid(dir[i]) {
          LiveTable(l, t, i);
          ZeroGood(l);
          SetTableInv(l, t, i, ZeroWords(l));
          DropInv(l, SetTable(l, t, i, ZeroWords(l)), i);
          var pent := DentBase(l, dir[i]);
          mem := mem[pent := ZeroWords(l)];
          dir[i] := 0;
          FreeIopte(pent);
          assert View() == Drop(l, SetTable(l, t, i, ZeroWords(l)), i);
        } else {
          InvalidIsZero(l, t, i);
        }
      }
      NoSlotsNoTables(l, View());
      EmptyInv(l, View());
    }
  }

  lemma PageInRange(l: Layout, pg: nat)
    ensures pg < l.NumPages() ==> l.Slot(pg) % NUM_ENTRIES_PDE == l.Slot(pg)
  {
  }

  /** The byte arithmetic of the loops is the chunk arithmetic on pages. */
  lemma TailIsChunk(l: Layout, iova: nat, iovaEnd: nat)
    requires iova % PAGE_SIZE == 0 && iovaEnd % PAGE_SIZE == 0 && iova < iovaEnd
    ensures var cur, hi := iova / PAGE_SIZE, iovaEnd / PAGE_SIZE;
      var tail := l.NumPte() - l.Index(cur);
      cur < hi &&
      ChunkCount(l, cur, hi) == if iova + tail * PAGE_SIZE > iovaEnd then (iovaEnd - iova) / PAGE_SIZE else tail
    ensures (iovaEnd - iova) % PAGE_SIZE == 0
  {
  }

  /** Some slot that the preparation visits has no table. */
  ghost predicate AnyVisitedInvalid(l: Layout, t: Table, start: nat, end: nat) {
    exists s :: 0 <= s < NUM_ENTRIES_PDE && Visited(l, start, end, s) && !ValidSlot(t, s)
  }

  ghost predicate AnyMapped(l: Layout, t: Table, lo: nat, hi: nat) {
    exists pg :: lo <= pg < hi && Mapped(l, t, pg)
  }

  ghost predicate SameFrom(l: Layout, t: Table, t': Table, cur: nat) {
    forall pg :: cur <= pg ==> EntryAt(l, t', pg) == EntryAt(l, t, pg)
  }

  lemma SameFromStart(l: Layout, t: Table, lo: nat)
    ensures SameFrom(l, t, t, lo)
  {
  }

  lemma Advance(a: nat, n: nat)
    requires a % PAGE_SIZE == 0
    ensures (a + PAGE_SIZE * n) / PAGE_SIZE == a / PAGE_SIZE + n && (a + PAGE_SIZE * n) % PAGE_SIZE == 0
  {
  }

  lemma NoneMapped(l: Layout, t: Table, lo: nat)
    ensures !AnyMapped(l, t, lo, lo)
  {
  }

  lemma MappedSplit(l: Layout, t: Table, t1: Table, lo: nat, cur: nat, mid: nat)
    requires lo <= cur <= mid && SameFrom(l, t, t1, cur)
    ensures AnyMapped(l, t, lo, mid) <==> AnyMapped(l, t, lo, cur) || AnyMapped(l, t1, cur, mid)
  {
    hide EntryAt;
    assert forall pg :: cur <= pg ==> (Mapped(l, t1, pg) <==> Mapped(l, t, pg));
  }

  lemma FillChunkLater(l: Layout, t: Table, t1: Table, cur: nat, hi: nat, x: nat, prot: Rights)
    requires Inv(l, t1) && cur < hi && ValidSlot(t1, l.Slot(cur)) && x % PAGE_SIZE == 0 && SameFrom(l, t, t1, cur)
    ensures Base(l, t1, l.Slot(cur)) in t1.mem
    ensures SameFrom(l, t, FillChunk(l, t1, cur, hi, x, prot), cur + ChunkCount(l, cur, hi))
  {
    hide EntryAt, Inv, FillChunk, DentValid, DentBase, ChunkCount;
    LiveTable(l, t1, l.Slot(cur));
    ChunkShape(l, cur, hi);
    var t2 := FillChunk(l, t1, cur, hi, x, prot);
    forall pg | cur + ChunkCount(l, cur, hi) <= pg
      ensures EntryAt(l, t2, pg) == EntryAt(l, t, pg)
    {
      FillChunkEntry(l, t1, cur, cur, hi, x, prot, pg);
    }
  }

  /** One round of the outer loop, for its invariant. */
  lemma RoundFills(l: Layout, t: Table, t1: Table, lo: nat, cur: nat, hi: nat, x: nat, prot: Rights)
    requires Inv(l, t1) && lo <= cur < hi && ValidSlot(t1, l.Slot(cur)) && x % PAGE_SIZE == 0 && SameFrom(l, t, t1, cur)
    ensures Base(l, t1, l.Slot(cur)) in t1.mem
    ensures var n, t2 := ChunkCount(l, cur, hi), FillChunk(l, t1, cur, hi, x, prot);
      && 0 < n && cur + n <= hi && (x + PAGE_SIZE * n) % PAGE_SIZE == 0
      && t2.dir == t1.dir && SameFrom(l, t, t2, cur + n)
      && FillTable(l, t1, cur, hi, x, prot) == FillTable(l, t2, cur + n, hi, x + PAGE_SIZE * n, prot)
      && (AnyMapped(l, t, lo, cur + n) <==> AnyMapped(l, t, lo, cur) || AnyMapped(l, t1, cur, cur + n))
  {
    hide EntryAt, DentValid, DentBase, Inv, FillChunk, ChunkCount, AnyMapped, FillTable, SameFrom,
         Layout.Slot, Layout.Index;
    var n := ChunkCount(l, cur, hi);
    ChunkShape(l, cur, hi);
    FillTableStep(l, t1, cur, hi, x, prot);
    FillChunkDir(l, t1, cur, hi, x, prot);
    FillChunkLater(l, t, t1, cur, hi, x, prot);
    MappedSplit(l, t, t1, lo, cur, cur + n);
    AlignedOffset(x, n);
  }

  lemma ChunkWarned(l: Layout, t: Table, cur: nat, hi: nat)
    requires Inv(l, t) && cur < hi && ValidSlot(t, l.Slot(cur))
    ensures var s, i, n := l.Slot(cur), l.Index(cur), ChunkCount(l, cur, hi);
      Base(l, t, s) in t.mem && i + n <= |t.mem[Base(l, t, s)]| &&
      ((exists k :: i <= k < i + n && t.mem[Base(l, t, s)][k] != 0) <==> AnyMapped(l, t, cur, cur + n))
  {
    hide DentValid, DentBase, Inv;
    var s, i, n := l.Slot(cur), l.Index(cur), ChunkCount(l, cur, hi);
    LiveTable(l, t, s);
    ChunkShape(l, cur, hi);
    var words := t.mem[Base(l, t, s)];
    forall pg | cur <= pg < cur + n
      ensures EntryAt(l, t, pg) == words[i + (pg - cur)]
    {
      ChunkPage(l, cur, hi, pg);
    }
    if k :| i <= k < i + n && words[k] != 0 {
      assert Mapped(l, t, cur + (k - i));
    }
  }

  /** The directory and table words read by a walk are the entry of the page. */
  lemma WalkReads(l: Layout, t: Table, iova: nat)
    requires Inv(l, t)
    ensures var s, i, pg := l.PdeIndex(iova), l.PteIndex(iova), iova / PAGE_SIZE % l.NumPages();
      s < |t.dir| && pg < l.NumPages() &&
      if ValidSlot(t, s) then
        Base(l, t, s) in t.mem && i < |t.mem[Base(l, t, s)]| && t.mem[Base(l, t, s)][i] == EntryAt(l, t, pg) &&
        (EntryAt(l, t, pg) == 0 || PteValid(EntryAt(l, t, pg)))
      else EntryAt(l, t, pg) == 0
  {
    hide DentValid, DentBase, Inv;
    IndexValues(l, iova);
    WrapPage(l, iova / PAGE_SIZE);
    DirLength(l, t);
    var s := l.PdeIndex(iova);
    if ValidSlot(t, s) {
      LiveTable(l, t, s);
    }
  }

  lemma WrapPage(l: Layout, p: nat)
    ensures var pg := p % l.NumPages();
      pg < l.NumPages() && l.Slot(pg) == l.Slot(p) % NUM_ENTRIES_PDE && l.Index(pg) == l.Index(p)
  {
    var q, pg := p / l.NumPages(), p % l.NumPages();
    match l
    case V1 =>
      Split100(p, 0x1000 * q + pg / 0x100, pg % 0x100);
      Split1000(0x1000 * q + pg / 0x100, q, pg / 0x100);
    case V2 =>
      Split400(p, 0x1000 * q + pg / 0x400, pg % 0x400);
      Split1000(0x1000 * q + pg / 0x400, q, pg / 0x400);
  }

  /** Relocating the address of a byte is relocating its frame. */
  lemma PfnOffset(l: Layout, e: Word, o: nat)
    requires o < PAGE_SIZE
    ensures ToCpu(l, PtePfn(l, e) + o) == DecodePte(l, e).phys + o && DecodePte(l, e).phys > 0
  {
    hide PtePfn, MaskRights, AccessMask;
    PtePfnValue(l, e);
    PageToCpu(l, e / PAGE_SIZE + if l.V1? then 0 else e / 0x100 % 4 * 0x10_0000, o);
  }

  lemma PageToCpu(l: Layout, k: nat, o: nat)
    requires o < PAGE_SIZE
    ensures ToCpu(l, PAGE_SIZE * k + o) == ToCpu(l, PAGE_SIZE * k) + o && ToCpu(l, PAGE_SIZE * k) > 0
  {
  }
}
