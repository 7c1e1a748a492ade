/**
 The domain lock, the page table and the two hardware caches as one state machine. The driver's
 functions appear as the single stores and register writes they make, in their order; devices walk
 the table and fill the caches between any two of them.
 */
module Coherence {
  import opened Layouts
  import opened Tables
  import opened Chunks

  const VERSION_V12: nat := 0x12
  const VERSION_V14: nat := 0x14

  datatype Stage =
    | Clearing                    // about to call, or inside, sunxi_pgtable_delete_l2_tables
    | Invalidating(next: nat)     // it has returned; the walk cache is next, then page `next`

  /** Between the two stores of a V2 link only the first one has been made. */
  datatype Pending = NoLink | LowStored(link: Link)

  datatype Phase =
    | Free                                                    // dt_lock is not held
    | InMap(lo: nat, hi: nat, half: Pending)                  // sunxi_iommu_map holds it
    | InUnmap(lo: nat, hi: nat, cur: nat, stage: Stage)       // sunxi_iommu_unmap holds it
    | InFree                                                  // sunxi_iommu_domain_free holds it

  /**
   t: the table, with a link counted from its first store on. tlb: page to translation. walk: directory slot
   to the table base it named when it was cached.
   */
  datatype State = State(t: Table, tlb: map<nat, Mapping>, walk: map<nat, nat>, phase: Phase)

  datatype Event =
    | Access(pg: nat, w: Word)
    | Evict
    | LockMap(lo: nat, hi: nat) | LinkTable(s: nat, b: nat) | LinkHigh | StoreEntry(pg: nat, e: Word) | UnlockMap
    | LockUnmap(lo: nat, hi: nat) | ZeroEntry(pg: nat) | EndChunk | SkipChunk | Invalidate | UnlockUnmap
    | LockFree | ZeroTable(s: nat) | DropTable(s: nat) | FlushAll

  /** One entry of the second-level table of page pg is overwritten. */
  function PutWord(l: Layout, t: Table, pg: nat, e: Word): Table
    requires ValidSlot(t, l.Slot(pg)) && Base(l, t, l.Slot(pg)) in t.mem
    requires l.Index(pg) < |t.mem[Base(l, t, l.Slot(pg))]|
  {
    var s := l.Slot(pg);
    SetTable(l, t, s, t.mem[Base(l, t, s)][l.Index(pg) := e])
  }

  /**
   The page where a ranged TLB invalidation ends. V1 hardware takes the 32-bit end address, which wraps to 0 at
   the top of the address space; V2 hardware takes the page number, which fits.
   */
  function RegisterEnd(l: Layout, hi: nat): nat {
    if l.V1? && hi >= l.NumPages() then hi - l.NumPages() else hi
  }

  /** sunxi_tlb_invalid: every entry from the start up to the end register is dropped. */
  function TlbAfter(l: Layout, v: nat, tlb: map<nat, Mapping>, lo: nat, hi: nat): map<nat, Mapping> {
    if v >= VERSION_V12 then tlb - PageSet(lo, RegisterEnd(l, hi)) else tlb
  }

  /**
   The slots that a ranged walk-cache invalidation drops. V1 hardware takes addresses and drops every slot
   with a page in [lo, hi); V2 hardware takes slot numbers and drops those below the end slot.
   */
  predicate SlotInRange(l: Layout, lo: nat, hi: nat, s: nat) {
    match l
    case V1 => lo < hi && l.Slot(lo) <= s <= l.Slot(hi - 1)
    case V2 => l.Slot(lo) <= s < l.Slot(hi)
  }

  /** sunxi_ptw_cache_invalid with a range, which starts with V14. */
  function WalkAfter(l: Layout, v: nat, walk: map<nat, nat>, lo: nat, hi: nat): map<nat, nat> {
    if v >= VERSION_V14 then map s | s in walk && !SlotInRange(l, lo, RegisterEnd(l, hi), s) :: walk[s] else walk
  }

  // ----- steps

  /** What devices find in memory: the slot of a link with one store made holds the low word. */
  function Memory(l: Layout, s: State): Table {
    if s.phase.InMap? && s.phase.half.LowStored? && s.phase.half.link.slot < |s.t.dir|
    then s.t.(dir := s.t.dir[s.phase.half.link.slot := LowDent(l, s.phase.half.link.base)]) else s.t
  }

  /**
   A device translates page pg. Without a TLB entry the hardware takes the table base from the walk
   cache or from the directory, reads an entry, and may keep the base and a valid translation. A base
   whose table has been freed yields an arbitrary word.
   */
  ghost predicate Walks(l: Layout, s: State, pg: nat, w: Word, s': State) {
    && pg < l.NumPages() && s'.t == s.t && s'.phase == s.phase
    && var sl := l.Slot(pg);
       if pg in s.tlb || !(sl in s.walk || ValidSlot(Memory(l, s), sl)) then s'.tlb == s.tlb && s'.walk == s.walk else
       var base := WalkBase(l, s, sl);
       && (s'.walk == s.walk || s'.walk == s.walk[sl := base])
       && (base in s.t.mem && l.Index(pg) < |s.t.mem[base]| ==> w == s.t.mem[base][l.Index(pg)])
       && (s'.tlb == s.tlb || (PteValid(w) && s'.tlb == s.tlb[pg := DecodePte(l, w)]))
  }

  function WalkBase(l: Layout, s: State, sl: nat): nat
    requires sl in s.walk || ValidSlot(Memory(l, s), sl)
  {
    if sl in s.walk then s.walk[sl] else Base(l, Memory(l, s), sl)
  }

  /** Any entries may leave the caches at any time: replacement, and the extra invalidations of sunxi_zap_tlb. */
  predicate Evicts(s: State, s': State) {
    && s'.t == s.t && s'.phase == s.phase
    && (forall pg :: pg in s'.tlb ==> pg in s.tlb && s'.tlb[pg] == s.tlb[pg])
    && (forall sl :: sl in s'.walk ==> sl in s.walk && s'.walk[sl] == s.walk[sl])
  }

  predicate LivePage(l: Layout, t: Table, pg: nat) {
    && pg < l.NumPages() && ValidSlot(t, l.Slot(pg)) && Base(l, t, l.Slot(pg)) in t.mem
    && l.Index(pg) < |t.mem[Base(l, t, l.Slot(pg))]|
  }

  predicate InMapping(s: State) {
    s.phase.InMap? && s.phase.half.NoLink?
  }

  ghost predicate MapStep(l: Layout, s: State, ev: Event, s': State) {
    match ev
    case LockMap(lo, hi) => s.phase.Free? && lo <= hi <= l.NumPages() && s' == s.(phase := InMap(lo, hi, NoLink))
    case LinkTable(sl, b) =>
      && InMapping(s) && CanLink(l, s.t, Link(sl, b))
      && s' == s.(t := Install(l, s.t, sl, b),
                  phase := if l.V1? then s.phase else s.phase.(half := LowStored(Link(sl, b))))
    case LinkHigh => s.phase.InMap? && s.phase.half.LowStored? && s' == s.(phase := s.phase.(half := NoLink))
    case StoreEntry(pg, e) =>
      && InMapping(s) && s.phase.lo <= pg < s.phase.hi && LivePage(l, s.t, pg)
      && EntryAt(l, s.t, pg) == 0 && PteValid(e) && s' == s.(t := PutWord(l, s.t, pg, e))
    case UnlockMap => InMapping(s) && s' == s.(phase := Free)
    case _ => false
  }

  ghost predicate InClearing(s: State) {
    s.phase.InUnmap? && s.phase.stage.Clearing? && s.phase.cur < s.phase.hi
  }

  ghost predicate UnmapStep(l: Layout, v: nat, s: State, ev: Event, s': State) {
    match ev
    case LockUnmap(lo, hi) =>
      && s.phase.Free? && lo <= hi <= l.NumPages()
      && s' == State(s.t, TlbAfter(l, v, s.tlb, lo, hi), WalkAfter(l, v, s.walk, lo, hi), InUnmap(lo, hi, lo, Clearing))
    case ZeroEntry(pg) =>
      && InClearing(s) && LivePage(l, s.t, pg)
      && s.phase.cur <= pg < s.phase.cur + ChunkCount(l, s.phase.cur, s.phase.hi)
      && s' == s.(t := PutWord(l, s.t, pg, 0))
    case EndChunk =>
      && InClearing(s) && ValidSlot(s.t, l.Slot(s.phase.cur))
      && var n := ChunkCount(l, s.phase.cur, s.phase.hi);
         && (forall pg :: s.phase.cur <= pg < s.phase.cur + n ==> EntryAt(l, s.t, pg) == 0)
         && s' == s.(t := if n == l.NumPte() then Drop(l, s.t, l.Slot(s.phase.cur)) else s.t,
                     phase := s.phase.(stage := Invalidating(s.phase.cur + n)))
    case SkipChunk =>
      && InClearing(s) && !ValidSlot(s.t, l.Slot(s.phase.cur))
      && s' == s.(phase := s.phase.(stage := Invalidating(s.phase.hi)))
    case Invalidate =>
      && s.phase.InUnmap? && s.phase.stage.Invalidating?
      && s' == s.(walk := if v < VERSION_V14 then s.walk - {l.Slot(s.phase.cur)} else s.walk,
                  phase := s.phase.(cur := s.phase.stage.next, stage := Clearing))
    case UnlockUnmap =>
      s.phase.InUnmap? && s.phase.stage.Clearing? && s.phase.cur >= s.phase.hi && s' == s.(phase := Free)
    case _ => false
  }

  ghost predicate FreeStep(l: Layout, s: State, ev: Event, s': State) {
    match ev
    case LockFree => s.phase.Free? && s' == s.(phase := InFree)
    case ZeroTable(sl) => s.phase.InFree? && ValidSlot(s.t, sl) && s' == s.(t := SetTable(l, s.t, sl, ZeroWords(l)))
    case DropTable(sl) =>
      && s.phase.InFree? && ValidSlot(s.t, sl)
      && Base(l, s.t, sl) in s.t.mem && s.t.mem[Base(l, s.t, sl)] == ZeroWords(l)
      && s' == s.(t := Drop(l, s.t, sl))
    case FlushAll =>
      && s.phase.InFree? && (forall sl :: 0 <= sl < |s.t.dir| ==> s.t.dir[sl] == 0)
      && s' == State(s.t, map[], map[], Free)
    case _ => false
  }

  ghost predicate Next(l: Layout, v: nat, s: State, ev: Event, s': State) {
    match ev
    case Access(pg, w) => Walks(l, s, pg, w, s')
    case Evict => Evicts(s, s')
    case LockMap(_, _) => MapStep(l, s, ev, s')
    case LinkTable(_, _) => MapStep(l, s, ev, s')
    case LinkHigh => MapStep(l, s, ev, s')
    case StoreEntry(_, _) => MapStep(l, s, ev, s')
    case UnlockMap => MapStep(l, s, ev, s')
    case LockFree => FreeStep(l, s, ev, s')
    case ZeroTable(_) => FreeStep(l, s, ev, s')
    case DropTable(_) => FreeStep(l, s, ev, s')
    case FlushAll => FreeStep(l, s, ev, s')
    case _ => UnmapStep(l, v, s, ev, s')
  }

  // ----- table ownership in every reachable state

  lemma PutWordInv(l: Layout, t: Table, pg: nat, e: Word)
    requires Inv(l, t) && LivePage(l, t, pg) && (e == 0 || PteValid(e))
    ensures Inv(l, PutWord(l, t, pg, e)) && PutWord(l, t, pg, e).dir == t.dir
  {
    hide DentValid, DentBase, PteValid, Inv;
    var s := l.Slot(pg);
    LiveTable(l, t, s);
    var words: seq<Word> := t.mem[Base(l, t, s)][l.Index(pg) := e];
    assert GoodWords(l, words);
    SetTableInv(l, t, s, words);
  }

  lemma PutWordEntry(l: Layout, t: Table, pg: nat, e: Word, p: nat)
    requires Inv(l, t) && LivePage(l, t, pg) && (e == 0 || PteValid(e))
    ensures EntryAt(l, PutWord(l, t, pg, e), p) == if p == pg then e else EntryAt(l, t, p)
  {
    hide DentValid, DentBase, PteValid, Inv;
    var s := l.Slot(pg);
    LiveTable(l, t, s);
    var words: seq<Word> := t.mem[Base(l, t, s)][l.Index(pg) := e];
    assert GoodWords(l, words);
    SetTableEntry(l, t, s, words, p);
    PageSplit(l, p);
    PageSplit(l, pg);
  }

  /** Every single store keeps valid slots and live tables in one-to-one correspondence. */
  lemma OwnershipStep(l: Layout, v: nat, s: State, ev: Event, s': State)
    requires Inv(l, s.t) && Next(l, v, s, ev, s')
    ensures Inv(l, s'.t)
  {
    hide DentValid, DentBase, PteValid, Inv, EntryAt, SetTable, Drop, PutWord, Install, ChunkCount, GoodWords,
         ZeroWords, Layout.Slot;
    match ev
    case LinkTable(sl, b) => InstallInv(l, s.t, sl, b);
    case StoreEntry(pg, e) => PutWordInv(l, s.t, pg, e);
    case ZeroEntry(pg) => PutWordInv(l, s.t, pg, 0);
    case EndChunk => DropInv(l, s.t, l.Slot(s.phase.cur));
    case ZeroTable(sl) =>
      ZeroGood(l);
      SetTableInv(l, s.t, sl, ZeroWords(l));
    case DropTable(sl) => DropInv(l, s.t, sl);
    case _ =>
  }

  // ----- walk-cache coherence

  /** A cached base is the one its valid slot names, so the table it names is live. */
  ghost predicate WalkOk(l: Layout, s: State, sl: nat)
    requires sl in s.walk
  {
    ValidSlot(s.t, sl) && s.walk[sl] == Base(l, s.t, sl)
  }

  ghost predicate WalkCoherent(l: Layout, s: State) {
    forall sl :: sl in s.walk ==> WalkOk(l, s, sl)
  }

  predicate WholeSlotIn(l: Layout, lo: nat, hi: nat, sl: nat) {
    lo <= l.PageAt(sl, 0) && l.PageAt(sl + 1, 0) <= hi
  }

  /** Between the free of a table and the invalidation of its slot, that slot alone may be stale. */
  ghost predicate StaleSlot(l: Layout, s: State, sl: nat)
    requires sl in s.walk
  {
    && s.phase.InUnmap? && s.phase.stage.Invalidating? && sl == l.Slot(s.phase.cur)
    && !ValidSlot(s.t, sl) && WholeSlotIn(l, s.phase.lo, s.phase.hi, sl) && s.walk[sl] !in s.t.mem
  }

  ghost predicate WalkInv(l: Layout, s: State) {
    !s.phase.InFree? ==> forall sl :: sl in s.walk ==> WalkOk(l, s, sl) || StaleSlot(l, s, sl)
  }

  /**
   The link to a zeroed table is in place; its entry has, or will have with the second store, the high address
   bits.
   */
  predicate Torn(l: Layout, t: Table, k: Link) {
    && k.slot < |t.dir| && t.dir[k.slot] == MkDent(l, k.base) && TableAddress(l, k.base)
    && k.base in t.mem && t.mem[k.base] == ZeroWords(l)
  }

  ghost predicate PhaseOk(l: Layout, s: State) {
    && (s.phase.InMap? ==> s.phase.lo <= s.phase.hi <= l.NumPages())
    && (s.phase.InMap? && s.phase.half.LowStored? ==> Torn(l, s.t, s.phase.half.link))
    && (s.phase.InUnmap? ==>
          && s.phase.lo <= s.phase.cur <= s.phase.hi <= l.NumPages()
          && (s.phase.stage.Invalidating? ==> s.phase.cur < s.phase.stage.next <= s.phase.hi))
  }

  lemma PhaseStep(l: Layout, v: nat, s: State, ev: Event, s': State)
    requires PhaseOk(l, s) && Next(l, v, s, ev, s')
    ensures PhaseOk(l, s')
  {
    hide DentValid, DentBase, PteValid, EntryAt, SetTable, Drop, PutWord, MkDent, TableAddress, ZeroWords, DecodePte,
         Layout.Slot;
    if ev.EndChunk? {
      ChunkShape(l, s.phase.cur, s.phase.hi);
    }
  }

  /** The slot whose table is dropped lies wholly in the unmapped range. */
  lemma DroppedWhole(l: Layout, lo: nat, cur: nat, hi: nat)
    requires lo <= cur < hi && ChunkCount(l, cur, hi) == l.NumPte()
    ensures WholeSlotIn(l, lo, hi, l.Slot(cur))
  {
  }

  /** No device walks through a slot between the two stores of its link, unless the second one changes nothing. */
  predicate Tearless(l: Layout, s: State, ev: Event) {
    ev.Access? && s.phase.InMap? && s.phase.half.LowStored? && l.Slot(ev.pg) == s.phase.half.link.slot ==>
      HighBits(l, s.phase.half.link.base) == 0
  }

  /**
   Memory is the table, if and only if no link waits for a second store that changes its entry; only that entry
   differs.
   */
  lemma MemoryExact(l: Layout, s: State)
    requires PhaseOk(l, s)
    ensures var half := s.phase.InMap? && s.phase.half.LowStored?;
      && (Memory(l, s) == s.t <==> !half || HighBits(l, s.phase.half.link.base) == 0)
      && Memory(l, s).mem == s.t.mem && |Memory(l, s).dir| == |s.t.dir|
      && forall sl :: 0 <= sl < |s.t.dir| && !(half && sl == s.phase.half.link.slot) ==>
        Memory(l, s).dir[sl] == s.t.dir[sl]
  {
    hide DentValid, DentBase, MkDent, LowDent, HighBits, Layout.Slot;
    if s.phase.InMap? && s.phase.half.LowStored? {
      var k := s.phase.half.link;
      LowDentExact(l, k.base);
      assert Memory(l, s).dir[k.slot] == LowDent(l, k.base);
    }
  }

  /** So a device finds the slots of the table. */
  lemma SeenSlot(l: Layout, s: State, pg: nat, w: Word)
    requires PhaseOk(l, s) && Tearless(l, s, Access(pg, w))
    ensures var m, sl := Memory(l, s), l.Slot(pg);
      (ValidSlot(m, sl) <==> ValidSlot(s.t, sl)) && (ValidSlot(m, sl) ==> Base(l, m, sl) == Base(l, s.t, sl))
  {
    hide DentValid, DentBase, MkDent, LowDent, HighBits, Layout.Slot;
    if s.phase.InMap? && s.phase.half.LowStored? {
      LowDentExact(l, s.phase.half.link.base);
    }
  }

  /** Versions below V14 keep the invariant whatever else the devices do. */
  lemma WalkStep(l: Layout, v: nat, s: State, ev: Event, s': State)
    requires v < VERSION_V14 && Inv(l, s.t) && PhaseOk(l, s) && WalkInv(l, s) && Next(l, v, s, ev, s')
    requires Tearless(l, s, ev)
    ensures WalkInv(l, s')
  {
    hide DentValid, DentBase, PteValid, Inv, EntryAt, PutWord, ChunkCount, GoodWords, ZeroWords, DecodePte,
         WholeSlotIn, Memory, Tearless, Layout.Slot;
    match ev
    case Access(pg, w) => SeenSlot(l, s, pg, w);
    case LinkTable(sl, b) => InstallInv(l, s.t, sl, b);
    case StoreEntry(pg, e) => PutWordInv(l, s.t, pg, e);
    case ZeroEntry(pg) => PutWordInv(l, s.t, pg, 0);
    case EndChunk =>
      var sl := l.Slot(s.phase.cur);
      DropInv(l, s.t, sl);
      if ChunkCount(l, s.phase.cur, s.phase.hi) == l.NumPte() {
        DroppedWhole(l, s.phase.lo, s.phase.cur, s.phase.hi);
      }
    case _ =>
  }

  // ----- TLB coherence

  /** A TLB entry equals the current translation. */
  ghost predicate TlbOk(l: Layout, s: State, pg: nat)
    requires pg in s.tlb
  {
    pg < l.NumPages() && Mapped(l, s.t, pg) && s.tlb[pg] == DecodePte(l, EntryAt(l, s.t, pg))
  }

  ghost predicate TlbCoherent(l: Layout, s: State) {
    forall pg :: pg in s.tlb ==> TlbOk(l, s, pg)
  }

  /** While a range is being unmapped, none of its pages is cached. */
  ghost predicate RangeQuiet(s: State) {
    s.phase.InUnmap? ==> forall pg :: pg in s.tlb ==> !InRange(s.phase.lo, s.phase.hi, pg)
  }

  /** From V14 on, where the walk cache is invalidated first, no slot inside the range is cached either. */
  ghost predicate SlotsQuiet(l: Layout, v: nat, s: State) {
    v >= VERSION_V14 && s.phase.InUnmap? ==>
      forall sl :: sl in s.walk ==> !WholeSlotIn(l, s.phase.lo, s.phase.hi, sl)
  }

  ghost predicate TlbInv(l: Layout, s: State) {
    !s.phase.InFree? ==> TlbCoherent(l, s) && RangeQuiet(s)
  }

  /**
   During an unmap, devices access no mapped page of the range and no page of a slot that lies wholly in it; no
   link is torn; and no V1 range ends where the end register wraps.
   */
  ghost predicate Disciplined(l: Layout, s: State, ev: Event) {
    && (ev.Access? && s.phase.InUnmap? ==> Harmless(l, s, ev.pg))
    && Tearless(l, s, ev)
    && (ev.LockUnmap? ==> l.V2? || ev.hi != l.NumPages())
  }

  ghost predicate Harmless(l: Layout, s: State, pg: nat)
    requires s.phase.InUnmap?
  {
    && !WholeSlotIn(l, s.phase.lo, s.phase.hi, l.Slot(pg))
    && (InRange(s.phase.lo, s.phase.hi, pg) ==> !Mapped(l, s.t, pg))
  }

  lemma WholeIsInRange(l: Layout, lo: nat, hi: nat, sl: nat)
    requires WholeSlotIn(l, lo, hi, sl)
    ensures SlotInRange(l, lo, hi, sl)
  {
  }

  /** With disciplined devices the walk cache is coherent from V14 on as well. */
  lemma WalkStepRanged(l: Layout, v: nat, s: State, ev: Event, s': State)
    requires v >= VERSION_V14 && Inv(l, s.t) && PhaseOk(l, s) && WalkInv(l, s) && SlotsQuiet(l, v, s)
    requires Next(l, v, s, ev, s') && Disciplined(l, s, ev)
    ensures WalkInv(l, s') && SlotsQuiet(l, v, s')
  {
    hide DentValid, DentBase, PteValid, Inv, EntryAt, PutWord, ChunkCount, GoodWords, ZeroWords, DecodePte,
         WholeSlotIn, SlotInRange, Memory, Tearless, Layout.Slot;
    match ev
    case Access(pg, w) => SeenSlot(l, s, pg, w);
    case LinkTable(sl, b) => InstallInv(l, s.t, sl, b);
    case StoreEntry(pg, e) => PutWordInv(l, s.t, pg, e);
    case LockUnmap(lo, hi) =>
      forall sl | sl in s'.walk
        ensures !WholeSlotIn(l, lo, hi, sl)
      {
        if WholeSlotIn(l, lo, hi, sl) {
          WholeIsInRange(l, lo, hi, sl);
        }
      }
    case ZeroEntry(pg) => PutWordInv(l, s.t, pg, 0);
    case EndChunk =>
      DropInv(l, s.t, l.Slot(s.phase.cur));
      if ChunkCount(l, s.phase.cur, s.phase.hi) == l.NumPte() {
        DroppedWhole(l, s.phase.lo, s.phase.cur, s.phase.hi);
      }
    case _ =>
  }

  /** What a disciplined device reads is the entry of the page. */
  lemma DeviceReads(l: Layout, s: State, pg: nat, w: Word, s': State)
    requires Inv(l, s.t) && PhaseOk(l, s) && WalkInv(l, s) && !s.phase.InFree? && Walks(l, s, pg, w, s') && pg !in s.tlb
    requires Tearless(l, s, Access(pg, w)) && (s.phase.InUnmap? ==> Harmless(l, s, pg))
    requires l.Slot(pg) in s.walk || ValidSlot(s.t, l.Slot(pg))
    ensures w == EntryAt(l, s.t, pg)
  {
    hide DentValid, DentBase, PteValid, Inv, DecodePte, WholeSlotIn, GoodWords, Memory, Tearless, Layout.Slot;
    var sl := l.Slot(pg);
    SeenSlot(l, s, pg, w);
    assert ValidSlot(s.t, sl) && WalkBase(l, s, sl) == Base(l, s.t, sl);
    LiveTable(l, s.t, sl);
  }

  lemma TlbStep(l: Layout, v: nat, s: State, ev: Event, s': State)
    requires v >= VERSION_V12 && Inv(l, s.t) && PhaseOk(l, s) && WalkInv(l, s) && TlbInv(l, s)
    requires Next(l, v, s, ev, s') && Disciplined(l, s, ev)
    ensures TlbInv(l, s')
  {
    hide DentValid, DentBase, PteValid, Inv, EntryAt, PutWord, Drop, Install, ChunkCount, GoodWords,
         ZeroWords, DecodePte, WholeSlotIn, WalkInv, Memory, Tearless, Torn, Layout.Slot;
    match ev
    case Access(pg, w) =>
      SeenSlot(l, s, pg, w);
      if !s.phase.InFree? && s'.tlb != s.tlb {
        DeviceReads(l, s, pg, w, s');
        ZeroNotValid(w);
      }
    case LinkTable(sl, b) =>
      forall p | p in s.tlb
        ensures EntryAt(l, s'.t, p) == EntryAt(l, s.t, p)
      {
        InstallEntry(l, s.t, sl, b, p);
      }
    case StoreEntry(pg, e) =>
      forall p | p in s.tlb
        ensures EntryAt(l, s'.t, p) == EntryAt(l, s.t, p)
      {
        assert TlbOk(l, s, p);
        PutWordEntry(l, s.t, pg, e, p);
      }
    case ZeroEntry(pg) =>
      ChunkShape(l, s.phase.cur, s.phase.hi);
      forall p | p in s.tlb
        ensures EntryAt(l, s'.t, p) == EntryAt(l, s.t, p)
      {
        PutWordEntry(l, s.t, pg, 0, p);
      }
    case EndChunk =>
      forall p | p in s.tlb
        ensures EntryAt(l, s'.t, p) == EntryAt(l, s.t, p)
      {
        EndChunkEntry(l, s, s', p);
      }
    case _ =>
  }

  /** Unlinking a table whose entries are all zero changes no entry. */
  lemma EndChunkEntry(l: Layout, s: State, s': State, p: nat)
    requires Inv(l, s.t) && UnmapStep(l, VERSION_V12, s, EndChunk, s') && p < l.NumPages()
    ensures EntryAt(l, s'.t, p) == EntryAt(l, s.t, p)
  {
    hide DentValid, DentBase, PteValid, Inv, EntryAt, Drop, GoodWords, ZeroWords, DecodePte;
    var cur, hi := s.phase.cur, s.phase.hi;
    if ChunkCount(l, cur, hi) == l.NumPte() {
      DropEntry(l, s.t, l.Slot(cur), p);
      ChunkShape(l, cur, hi);
      WholeSlot(l, cur, p);
    }
  }
}
