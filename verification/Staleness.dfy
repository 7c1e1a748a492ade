/**
 When the caches go stale: for unmap calls without devices, with one device access at any point of the
 call, and for links that a device sees half written; each with the exact condition.
 */
module Staleness {
  import opened Layouts
  import opened Tables
  import opened Chunks
  import opened Coherence
  import opened Runs
  import opened CallRuns

  // ----- the TLB

  /**
   Without device activity, an unmap leaves a coherent TLB coherent if and only if the layout is V2, the range
   ends below the top of the address space, or none of the pages that lose their entry is cached.
   */
  lemma QuietUnmapExact(l: Layout, v: nat, s: State, lo: nat, hi: nat)
    requires v >= 0x12 && s.phase.Free? && Inv(l, s.t) && TlbCoherent(l, s) && lo <= hi <= l.NumPages()
    ensures TlbCoherent(l, UnmapLoop(l, v, Locked(l, v, s, lo, hi))) <==>
      l.V2? || hi != l.NumPages() || forall pg :: pg in s.tlb ==> !InRange(lo, UnmapStop(l, s.t, lo, hi), pg)
  {
    hide EntryAt, Inv, DentValid, DentBase, UnmapLoop, UnmapTable, UnmapStop, DecodePte, WalkAfter;
    var s1, stop := Locked(l, v, s, lo, hi), UnmapStop(l, s.t, lo, hi);
    var s2 := UnmapLoop(l, v, s1);
    UnmapLoopTable(l, v, s1);
    UnmapClears(l, s.t, lo, hi);
    forall pg | pg in s2.tlb
      ensures TlbOk(l, s2, pg) <==> !InRange(lo, stop, pg)
    {
      assert TlbOk(l, s, pg);
    }
    if pg :| pg in s.tlb && InRange(lo, stop, pg) && l.V1? && hi == l.NumPages() {
      assert pg in s2.tlb;
    }
  }

  // ----- one access during an unmap, and the TLB

  lemma MappedSlot(l: Layout, t: Table, pg: nat)
    requires Mapped(l, t, pg)
    ensures ValidSlot(t, l.Slot(pg))
  {
    hide DentValid, DentBase;
  }

  lemma ReadableWord(l: Layout, s: State, pg: nat)
    requires Inv(l, s.t) && WalkCoherent(l, s) && !s.phase.InMap? && Mapped(l, s.t, pg)
    ensures ValidSlot(s.t, l.Slot(pg)) && PteValid(EntryAt(l, s.t, pg))
    ensures var base := WalkBase(l, s, l.Slot(pg));
      base in s.t.mem && l.Index(pg) < |s.t.mem[base]| && s.t.mem[base][l.Index(pg)] == EntryAt(l, s.t, pg)
  {
    ProperEntry(l, s.t, pg);
    MappedSlot(l, s.t, pg);
    LiveTable(l, s.t, l.Slot(pg));
    hide Inv, PteValid, DentValid, DentBase;
  }

  /** What a walk puts into the TLB, while the walk cache is coherent, is the translation of the page. */
  lemma FillsTranslation(l: Layout, s: State, pg: nat, w: Word, s': State)
    requires Inv(l, s.t) && WalkCoherent(l, s) && !s.phase.InMap? && Walks(l, s, pg, w, s') && s'.tlb != s.tlb
    ensures pg !in s.tlb && Mapped(l, s.t, pg) && s'.tlb == s.tlb[pg := DecodePte(l, EntryAt(l, s.t, pg))]
  {
    hide DentValid, DentBase, PteValid, Inv, DecodePte, GoodWords, Layout.Slot;
    var sl := l.Slot(pg);
    assert ValidSlot(s.t, sl) && WalkBase(l, s, sl) == Base(l, s.t, sl);
    LiveTable(l, s.t, sl);
    ZeroNotValid(w);
  }

  /** The translation of a mapped page can be cached. */
  lemma CanFill(l: Layout, s: State, pg: nat) returns (s': State)
    requires Inv(l, s.t) && WalkCoherent(l, s) && !s.phase.InMap? && Mapped(l, s.t, pg) && pg < l.NumPages()
    ensures Walks(l, s, pg, EntryAt(l, s.t, pg), s') && pg in s'.tlb && s'.walk == s.walk
  {
    hide DentValid, DentBase, PteValid, Inv, DecodePte, EntryAt, Layout.Slot;
    s' := if pg in s.tlb then s else s.(tlb := s.tlb[pg := DecodePte(l, EntryAt(l, s.t, pg))]);
    ReadableWord(l, s, pg);
  }

  ghost predicate Clears(l: Layout, s: State) {
    s.phase.InUnmap? && s.phase.stage.Clearing? && s.phase.cur <= s.phase.hi <= l.NumPages()
  }

  /** The pages that the rest of the unmap loop clears. */
  ghost predicate ToClear(l: Layout, s: State, pg: nat)
    requires Clears(l, s)
  {
    InRange(s.phase.cur, UnmapStop(l, s.t, s.phase.cur, s.phase.hi), pg)
  }

  /** A TLB entry is right at the end if it is right now and its page is not to be cleared. */
  lemma LoopTlb(l: Layout, v: nat, s: State, pg: nat)
    requires Inv(l, s.t) && Clears(l, s) && pg in s.tlb
    ensures pg in UnmapLoop(l, v, s).tlb
    ensures TlbOk(l, UnmapLoop(l, v, s), pg) <==> TlbOk(l, s, pg) && !ToClear(l, s, pg)
  {
    hide EntryAt, Inv, DentValid, DentBase, UnmapLoop, UnmapTable, UnmapStop, DecodePte;
    UnmapLoopTable(l, v, s);
    UnmapClears(l, s.t, s.phase.cur, s.phase.hi);
  }

  /** An unmap at any point: between two rounds, in the middle of one, or before the invalidation of its slot. */
  ghost predicate Unmaps(l: Layout, s: State) {
    s.phase.InUnmap? && PhaseOk(l, s)
  }

  /** Where the loop goes on, once a slot that waits for it has been invalidated. */
  function Resumed(l: Layout, v: nat, s: State): State
    requires s.phase.InUnmap?
  {
    match s.phase.stage
    case Clearing => s
    case Invalidating(next) =>
      s.(walk := if v < VERSION_V14 then s.walk - {l.Slot(s.phase.cur)} else s.walk,
         phase := s.phase.(cur := next, stage := Clearing))
  }

  /** The state at the end of the unmap call. */
  function Rest(l: Layout, v: nat, s: State): State
    requires s.phase.InUnmap?
  {
    UnmapLoop(l, v, Resumed(l, v, s))
  }

  ghost predicate StillCleared(l: Layout, v: nat, s: State, pg: nat)
    requires Unmaps(l, s)
  {
    ToClear(l, Resumed(l, v, s), pg)
  }

  lemma RestTlb(l: Layout, v: nat, s: State, pg: nat)
    requires Inv(l, s.t) && Unmaps(l, s)
    ensures Rest(l, v, s).tlb == s.tlb
    ensures pg in s.tlb ==> (TlbOk(l, Rest(l, v, s), pg) <==> TlbOk(l, s, pg) && !StillCleared(l, v, s, pg))
  {
    hide EntryAt, Inv, DentValid, DentBase, UnmapLoop, UnmapStop, DecodePte, Layout.Slot;
    UnmapLoopTable(l, v, Resumed(l, v, s));
    if pg in s.tlb {
      LoopTlb(l, v, Resumed(l, v, s), pg);
    }
  }

  /** The translation is the one that the page has now and keeps. */
  ghost predicate Keeps(l: Layout, v: nat, s: State, pg: nat, m: Mapping)
    requires Unmaps(l, s)
  {
    Mapped(l, s.t, pg) && DecodePte(l, EntryAt(l, s.t, pg)) == m && !StillCleared(l, v, s, pg)
  }

  /**
   The access goes to the table and finds a valid word that is not the translation the page keeps, or it goes
   where no live table is.
   */
  ghost predicate Harmful(l: Layout, v: nat, s: State, pg: nat)
    requires Unmaps(l, s)
  {
    var sl := l.Slot(pg);
    && pg !in s.tlb && (sl in s.walk || ValidSlot(s.t, sl))
    && var b := WalkBase(l, s, sl);
       (b in s.t.mem && l.Index(pg) < |s.t.mem[b]| ==>
          var w := s.t.mem[b][l.Index(pg)]; PteValid(w) && !Keeps(l, v, s, pg, DecodePte(l, w)))
  }

  /** A word that the hardware would cache and that is not this translation. */
  lemma WrongWord(l: Layout, m: Mapping) returns (w: Word)
    ensures PteValid(w) && DecodePte(l, w) != m
  {
    hide PtePfn, AccessMask, MaskRights, PteValid;
    w := if m.rights.read then 2 else 6;
    RightsValue(2);
    RightsValue(6);
  }

  /** A harmful access can leave a wrong entry for its page. */
  lemma CanMislead(l: Layout, v: nat, s: State, pg: nat) returns (w: Word, s2: State)
    requires Inv(l, s.t) && Unmaps(l, s) && pg < l.NumPages() && Harmful(l, v, s, pg)
    ensures Walks(l, s, pg, w, s2) && s2.walk == s.walk && PteValid(w) && !Keeps(l, v, s, pg, DecodePte(l, w))
    ensures s2.tlb == s.tlb[pg := DecodePte(l, w)]
  {
    hide EntryAt, Inv, DecodePte, DentValid, DentBase, PteValid, StillCleared, Layout.Slot;
    var b := WalkBase(l, s, l.Slot(pg));
    if b in s.t.mem && l.Index(pg) < |s.t.mem[b]| {
      w := s.t.mem[b][l.Index(pg)];
    } else {
      w := WrongWord(l, DecodePte(l, EntryAt(l, s.t, pg)));
    }
    s2 := s.(tlb := s.tlb[pg := DecodePte(l, w)]);
  }

  /** An access that is not harmful caches at most the translation that the page keeps. */
  lemma CachesKept(l: Layout, v: nat, s: State, pg: nat, w: Word, s2: State)
    requires Unmaps(l, s) && Walks(l, s, pg, w, s2) && !Harmful(l, v, s, pg)
    ensures s2.t == s.t && s2.phase == s.phase
    ensures s2.tlb == s.tlb || (s2.tlb == s.tlb[pg := DecodePte(l, w)] && Keeps(l, v, s, pg, DecodePte(l, w)))
  {
    hide EntryAt, DecodePte, DentValid, DentBase, PteValid, StillCleared, Layout.Slot;
  }

  /**
   One access at any point of an unmap, whatever the walk cache holds: whatever the hardware does with it, the TLB is
   coherent at the end, if and only if the access is not harmful.
   */
  lemma AnyAccessExact(l: Layout, v: nat, s: State, pg: nat)
    requires Inv(l, s.t) && Unmaps(l, s) && TlbCoherent(l, s) && pg < l.NumPages()
    requires forall p :: p in s.tlb ==> !StillCleared(l, v, s, p)
    ensures (forall w, s2 :: Walks(l, s, pg, w, s2) ==> TlbCoherent(l, Rest(l, v, s2))) <==> !Harmful(l, v, s, pg)
  {
    hide EntryAt, Inv, DecodePte, DentValid, DentBase, PteValid, StillCleared, Harmful, Rest, Layout.Slot;
    if Harmful(l, v, s, pg) {
      var w, s2 := CanMislead(l, v, s, pg);
      SameCleared(l, v, s, s2);
      RestTlb(l, v, s2, pg);
      assert pg in Rest(l, v, s2).tlb && !TlbOk(l, Rest(l, v, s2), pg);
    } else {
      forall w, s2 | Walks(l, s, pg, w, s2)
        ensures TlbCoherent(l, Rest(l, v, s2))
      {
        CachesKept(l, v, s, pg, w, s2);
        SameCleared(l, v, s, s2);
        RestTlb(l, v, s2, pg);
        forall p | p in s2.tlb
          ensures TlbOk(l, Rest(l, v, s2), p)
        {
          RestTlb(l, v, s2, p);
          assert p in s.tlb ==> TlbOk(l, s, p);
        }
      }
    }
  }

  lemma SameCleared(l: Layout, v: nat, s: State, s2: State)
    requires Unmaps(l, s) && s2.t == s.t && s2.phase == s.phase
    ensures Unmaps(l, s2) && forall p: nat :: StillCleared(l, v, s2, p) <==> StillCleared(l, v, s, p)
  {
    hide UnmapStop, Torn;
  }

  /** With the invariant of the walk cache: a base in it is the slot's own, or that of the table just freed. */
  lemma HarmfulMeans(l: Layout, v: nat, s: State, pg: nat)
    requires Inv(l, s.t) && Unmaps(l, s) && WalkInv(l, s)
    requires forall p :: p in s.tlb ==> !StillCleared(l, v, s, p)
    ensures Harmful(l, v, s, pg) <==>
      || (StillCleared(l, v, s, pg) && Mapped(l, s.t, pg))
      || (pg !in s.tlb && l.Slot(pg) in s.walk && !ValidSlot(s.t, l.Slot(pg)))
  {
    hide Inv, DecodePte, DentValid, DentBase, PteValid, StillCleared, WholeSlotIn, Layout.Slot;
    var sl := l.Slot(pg);
    if sl in s.walk {
      assert WalkOk(l, s, sl) || StaleSlot(l, s, sl);
    }
    ProperEntry(l, s.t, pg);
    if ValidSlot(s.t, sl) {
      LiveTable(l, s.t, sl);
    }
  }

  /**
   One access at any point of an unmap: the TLB is coherent at the end, whatever the hardware does, if and only if
   the page is not a mapped one that is still to be cleared, and the walk cache does not lead to the table that has
   been freed while its slot waits for the invalidation.
   */
  lemma AccessExact(l: Layout, v: nat, s: State, pg: nat)
    requires Inv(l, s.t) && Unmaps(l, s) && TlbCoherent(l, s) && WalkInv(l, s) && pg < l.NumPages()
    requires forall p :: p in s.tlb ==> !StillCleared(l, v, s, p)
    ensures (forall w, s2 :: Walks(l, s, pg, w, s2) ==> TlbCoherent(l, Rest(l, v, s2))) <==>
      && !(StillCleared(l, v, s, pg) && Mapped(l, s.t, pg))
      && !(pg !in s.tlb && l.Slot(pg) in s.walk && !ValidSlot(s.t, l.Slot(pg)))
  {
    hide EntryAt, Inv, DentValid, StillCleared, Harmful, Rest, Walks, WalkInv, TlbCoherent, PhaseOk, Layout.Slot;
    AnyAccessExact(l, v, s, pg);
    HarmfulMeans(l, v, s, pg);
  }

  /** For the moment after the lock is taken, the condition in terms of the state before the call. */
  lemma LockedAccessExact(l: Layout, v: nat, s: State, lo: nat, hi: nat, pg: nat)
    requires v >= 0x12 && s.phase.Free? && Inv(l, s.t) && TlbCoherent(l, s) && WalkCoherent(l, s)
    requires lo <= hi <= l.NumPages() && (l.V2? || hi != l.NumPages()) && pg < l.NumPages()
    ensures (forall w, s2 :: Walks(l, Locked(l, v, s, lo, hi), pg, w, s2) ==> TlbCoherent(l, UnmapLoop(l, v, s2))) <==>
      !(InRange(lo, UnmapStop(l, s.t, lo, hi), pg) && Mapped(l, s.t, pg))
  {
    hide EntryAt, Inv, DecodePte, UnmapLoop, UnmapStop, DentValid, DentBase, SlotInRange, Layout.Slot;
    var s1 := Locked(l, v, s, lo, hi);
    LockedCoherent(l, v, s, lo, hi);
    AccessExact(l, v, s1, pg);
    forall w, s2 | Walks(l, s1, pg, w, s2)
      ensures Rest(l, v, s2) == UnmapLoop(l, v, s2)
    {
    }
  }

  lemma LockedCoherent(l: Layout, v: nat, s: State, lo: nat, hi: nat)
    requires WalkCoherent(l, s)
    ensures WalkCoherent(l, Locked(l, v, s, lo, hi))
    ensures TlbCoherent(l, s) ==> TlbCoherent(l, Locked(l, v, s, lo, hi))
  {
    hide EntryAt, DecodePte, DentValid, DentBase, SlotInRange, PageSet;
    forall sl | sl in Locked(l, v, s, lo, hi).walk
      ensures WalkOk(l, Locked(l, v, s, lo, hi), sl)
    {
      assert WalkOk(l, s, sl);
    }
    forall pg | TlbCoherent(l, s) && pg in Locked(l, v, s, lo, hi).tlb
      ensures TlbOk(l, Locked(l, v, s, lo, hi), pg)
    {
      assert TlbOk(l, s, pg);
    }
  }

  lemma UnmapRest(l: Layout, v: nat, s: State)
    requires Inv(l, s.t) && Clears(l, s)
    ensures Reach(l, v, s, UnmapLoop(l, v, s))
  {
    hide Inv, Next, UnmapLoop, Reach;
    var ss, evs := UnmapRun(l, v, s);
    ReachBy(l, v, ss, evs);
  }

  /** The pages that sunxi_iommu_iotlb_sync drops after the unmap of [lo, hi): on V12 and V13 those at its two ends. */
  predicate Synced(l: Layout, v: nat, lo: nat, hi: nat, pg: nat) {
    v < VERSION_V14 && (InRange(lo, RegisterEnd(l, lo + 2), pg) || (hi <= pg + 1 && pg < RegisterEnd(l, hi + 8)))
  }

  /** In numbers: on versions 0x12 and 0x13 its first two pages and those from its last one to seven behind it. */
  lemma SyncedMeans(l: Layout, v: nat, lo: nat, hi: nat, pg: nat)
    requires lo < hi && (l.V2? || hi + 8 < 0x10_0000)
    ensures Synced(l, v, lo, hi, pg) <==>
      v <= 0x13 && (pg == lo || pg == lo + 1 || 0 <= pg - (hi - 1) <= 8)
  {
  }

  function AfterSync(l: Layout, v: nat, s: State, lo: nat, hi: nat): State {
    s.(tlb := map pg | pg in s.tlb && !Synced(l, v, lo, hi, pg) :: s.tlb[pg])
  }

  /** The sync is a step of the machine. */
  lemma SyncIsStep(l: Layout, v: nat, s: State, lo: nat, hi: nat)
    ensures Next(l, v, s, Evict, AfterSync(l, v, s, lo, hi))
  {
    hide Synced;
  }

  /** And with that later invalidation: the pages at the two ends are repaired on V12 and V13, and no others. */
  lemma SyncedAccessExact(l: Layout, v: nat, s: State, lo: nat, hi: nat, pg: nat)
    requires v >= 0x12 && s.phase.Free? && Inv(l, s.t) && TlbCoherent(l, s) && WalkCoherent(l, s)
    requires lo < hi <= l.NumPages() && (l.V2? || hi != l.NumPages()) && pg < l.NumPages()
    ensures (forall w, s2 :: Walks(l, Locked(l, v, s, lo, hi), pg, w, s2) ==>
               TlbCoherent(l, AfterSync(l, v, UnmapLoop(l, v, s2), lo, hi))) <==>
      !(InRange(lo, UnmapStop(l, s.t, lo, hi), pg) && Mapped(l, s.t, pg)) || Synced(l, v, lo, hi, pg)
  {
    hide EntryAt, Inv, DecodePte, UnmapLoop, UnmapStop, DentValid, DentBase, PteValid, SlotInRange, Synced,
         Layout.Slot;
    var s1 := Locked(l, v, s, lo, hi);
    LockedCoherent(l, v, s, lo, hi);
    if !(InRange(lo, UnmapStop(l, s.t, lo, hi), pg) && Mapped(l, s.t, pg)) || Synced(l, v, lo, hi, pg) {
      forall w, s2 | Walks(l, s1, pg, w, s2)
        ensures TlbCoherent(l, AfterSync(l, v, UnmapLoop(l, v, s2), lo, hi))
      {
        SyncedLoop(l, v, s1, pg, w, s2);
      }
    } else {
      var s2 := CanFill(l, s1, pg);
      SyncedLoop(l, v, s1, pg, EntryAt(l, s.t, pg), s2);
    }
  }

  /** After the access and the rest of the loop, only an entry for the accessed page can be stale. */
  lemma SyncedLoop(l: Layout, v: nat, s: State, pg: nat, w: Word, s2: State)
    requires Inv(l, s.t) && Clears(l, s) && TlbCoherent(l, s) && WalkCoherent(l, s) && Walks(l, s, pg, w, s2)
    requires forall p :: p in s.tlb ==> !ToClear(l, s, p)
    ensures Clears(l, s2)
    ensures forall lo, hi :: TlbCoherent(l, AfterSync(l, v, UnmapLoop(l, v, s2), lo, hi)) <==>
      !(pg in s2.tlb && ToClear(l, s, pg)) || Synced(l, v, lo, hi, pg)
    ensures s2.tlb == s.tlb || Mapped(l, s.t, pg)
  {
    hide EntryAt, Inv, DecodePte, UnmapLoop, UnmapTable, UnmapStop, DentValid, DentBase, PteValid, Synced, Layout.Slot;
    if s2.tlb != s.tlb {
      FillsTranslation(l, s, pg, w, s2);
    }
    var s3 := UnmapLoop(l, v, s2);
    UnmapLoopTable(l, v, s2);
    UnmapClears(l, s.t, s.phase.cur, s.phase.hi);
    forall p | p in s3.tlb
      ensures TlbOk(l, s3, p) <==> !(p == pg && ToClear(l, s, pg))
    {
      assert p in s.tlb ==> TlbOk(l, s, p);
    }
    forall lo, hi
      ensures TlbCoherent(l, AfterSync(l, v, s3, lo, hi)) <==>
        !(pg in s2.tlb && ToClear(l, s, pg)) || Synced(l, v, lo, hi, pg)
    {
      var s4 := AfterSync(l, v, s3, lo, hi);
      assert forall p :: p in s4.tlb ==> (TlbOk(l, s4, p) <==> TlbOk(l, s3, p));
    }
  }

  /** So from every state with the lock free, every unmap that clears a mapped page has a run that ends stale. */
  lemma StaleAfterAccess(l: Layout, v: nat, s: State, lo: nat, hi: nat, pg: nat) returns (s': State)
    requires s.phase.Free? && Inv(l, s.t) && WalkCoherent(l, s) && lo <= hi <= l.NumPages()
    requires Mapped(l, s.t, pg) && InRange(lo, UnmapStop(l, s.t, lo, hi), pg)
    ensures Reach(l, v, s, s') && s'.phase.Free? && pg in s'.tlb && !Mapped(l, s'.t, pg)
    ensures !TlbCoherent(l, s') && (!Synced(l, v, lo, hi, pg) ==> !TlbCoherent(l, AfterSync(l, v, s', lo, hi)))
  {
    hide EntryAt, Inv, DecodePte, UnmapLoop, UnmapTable, UnmapStop, DentValid, DentBase, PteValid, Reach, Leads,
         Synced, SlotInRange, IsRun, TlbOk, Layout.Slot;
    var s1 := Locked(l, v, s, lo, hi);
    LockedCoherent(l, v, s, lo, hi);
    ReachStep(l, v, s, LockUnmap(lo, hi), s1);
    var s2 := CanFill(l, s1, pg);
    ReachStep(l, v, s1, Access(pg, EntryAt(l, s.t, pg)), s2);
    ReachJoin(l, v, s, s1, s2);
    UnmapRest(l, v, s2);
    s' := UnmapLoop(l, v, s2);
    ReachJoin(l, v, s, s2, s');
    UnmapLoopTable(l, v, s2);
    UnmapClears(l, s.t, lo, hi);
    NotCoherent(l, s', pg);
    if !Synced(l, v, lo, hi, pg) {
      NotCoherent(l, AfterSync(l, v, s', lo, hi), pg);
    }
  }

  lemma NotCoherent(l: Layout, s: State, pg: nat)
    requires pg in s.tlb && EntryAt(l, s.t, pg) == 0
    ensures !TlbCoherent(l, s)
  {
    hide EntryAt, DecodePte;
    assert !TlbOk(l, s, pg);
  }

  /**
   On V1 a range that ends at the top of the address space writes 0 to the end register: an unmap of the
   last page, with no device active, leaves its TLB entry behind.
   */
  lemma StaleAtTop(l: Layout, v: nat, s: State) returns (s': State)
    requires l.V1? && s.phase.Free? && Inv(l, s.t) && Mapped(l, s.t, l.NumPages() - 1) && l.NumPages() - 1 in s.tlb
    ensures Leads(l, v, s, s') && s'.phase.Free?
    ensures !TlbCoherent(l, s') && !TlbCoherent(l, AfterSync(l, v, s', l.NumPages() - 1, l.NumPages()))
  {
    hide EntryAt, Inv, DentValid, DentBase, UnmapLoop, UnmapTable, UnmapStop, WalkAfter, Leads;
    var pg := l.NumPages() - 1;
    var s1 := Locked(l, v, s, pg, pg + 1);
    s' := UnmapLoop(l, v, s1);
    UnmapCallRun(l, v, s, pg, pg + 1);
    UnmapLoopTable(l, v, s1);
    UnmapClears(l, s.t, pg, pg + 1);
    MappedSlot(l, s.t, pg);
    ValidStops(l, s.t, pg, pg + 1);
    NotCoherent(l, s', pg);
    NotCoherent(l, AfterSync(l, v, s', pg, pg + 1), pg);
  }

  // ----- one access during an unmap, and the walk cache

  /** The slots whose tables the rest of the unmap loop frees: those wholly in what it clears. */
  ghost predicate ToDrop(l: Layout, s: State, sl: nat)
    requires Clears(l, s)
  {
    WholeSlotIn(l, s.phase.cur, UnmapStop(l, s.t, s.phase.cur, s.phase.hi), sl)
  }

  lemma WholeAfterChunk(l: Layout, cur: nat, hi: nat, stop: nat, sl: nat)
    requires cur < hi && cur + ChunkCount(l, cur, hi) <= stop <= hi
    ensures var n := ChunkCount(l, cur, hi);
      WholeSlotIn(l, cur, stop, sl) <==> (sl == l.Slot(cur) && n == l.NumPte()) || WholeSlotIn(l, cur + n, stop, sl)
    ensures !WholeSlotIn(l, cur + ChunkCount(l, cur, hi), stop, l.Slot(cur))
  {
  }

  lemma DeleteChunkDir(l: Layout, t: Table, cur: nat, hi: nat)
    requires Inv(l, t) && cur < hi && ValidSlot(t, l.Slot(cur))
    ensures Base(l, t, l.Slot(cur)) in t.mem
    ensures DeleteChunk(l, t, cur, hi).dir
         == if ChunkCount(l, cur, hi) == l.NumPte() then t.dir[l.Slot(cur) := 0] else t.dir
  {
    hide ZeroChunk, DentValid, DentBase, Inv, ChunkCount, Layout.Slot;
    ZeroChunkKeeps(l, t, cur, ChunkCount(l, cur, hi));
  }

  /** The directory after the unmap loop: exactly the slots wholly in the cleared part are zero now. */
  lemma {:induction false} UnmapSlots(l: Layout, t: Table, cur: nat, hi: nat, sl: nat)
    requires Inv(l, t) && cur <= hi <= l.NumPages() && sl < |t.dir|
    ensures var t', stop := UnmapTable(l, t, cur, hi), UnmapStop(l, t, cur, hi);
      |t'.dir| == |t.dir| && t'.dir[sl] == if WholeSlotIn(l, cur, stop, sl) then 0 else t.dir[sl]
    decreases hi - cur
  {
    hide DeleteChunk, DentValid, DentBase, Inv, ChunkCount, Layout.Slot, Layout.Index;
    var stop := UnmapStop(l, t, cur, hi);
    if cur < hi && ValidSlot(t, l.Slot(cur)) {
      var n := ChunkCount(l, cur, hi);
      LiveTable(l, t, l.Slot(cur));
      ChunkShape(l, cur, hi);
      DeleteChunkKeeps(l, t, cur, hi);
      DeleteChunkDir(l, t, cur, hi);
      StopAfterChunk(l, t, cur, hi);
      var t1 := DeleteChunk(l, t, cur, hi);
      assert UnmapTable(l, t, cur, hi) == UnmapTable(l, t1, cur + n, hi);
      UnmapSlots(l, t1, cur + n, hi, sl);
      WholeAfterChunk(l, cur, hi, stop, sl);
    } else {
      NoneWhole(l, cur, sl);
      assert stop == cur;
    }
  }

  lemma NoneWhole(l: Layout, cur: nat, sl: nat)
    ensures !WholeSlotIn(l, cur, cur, sl)
  {
  }

  /** Below V14 the loop leaves a coherent walk cache coherent, because it invalidates slot by slot. */
  lemma {:induction false} LoopWalkBelow(l: Layout, v: nat, s: State)
    requires v < VERSION_V14 && Inv(l, s.t) && Clears(l, s) && WalkCoherent(l, s)
    ensures WalkCoherent(l, UnmapLoop(l, v, s))
    decreases s.phase.hi - s.phase.cur
  {
    hide DeleteChunk, DentValid, DentBase, Inv, ChunkCount, Layout.Slot, Layout.Index;
    var cur, hi := s.phase.cur, s.phase.hi;
    if cur < hi && ValidSlot(s.t, l.Slot(cur)) {
      LiveTable(l, s.t, l.Slot(cur));
      ChunkShape(l, cur, hi);
      DeleteChunkKeeps(l, s.t, cur, hi);
      DeleteChunkDir(l, s.t, cur, hi);
      var s1 := s.(t := DeleteChunk(l, s.t, cur, hi), walk := s.walk - {l.Slot(cur)},
                   phase := s.phase.(cur := cur + ChunkCount(l, cur, hi)));
      forall sl | sl in s1.walk
        ensures WalkOk(l, s1, sl)
      {
        assert WalkOk(l, s, sl);
      }
      LoopWalkBelow(l, v, s1);
    } else {
      forall sl | sl in UnmapLoop(l, v, s).walk
        ensures WalkOk(l, UnmapLoop(l, v, s), sl)
      {
        assert WalkOk(l, s, sl);
      }
    }
  }

  /** From V14 on the loop does not touch the walk cache. */
  lemma {:induction false} LoopKeepsWalk(l: Layout, v: nat, s: State)
    requires v >= VERSION_V14 && Clears(l, s)
    ensures UnmapLoop(l, v, s).walk == s.walk
    decreases s.phase.hi - s.phase.cur
  {
    hide DeleteChunk, DentValid, DentBase, ChunkCount, Layout.Slot, Layout.Index;
    var cur, hi := s.phase.cur, s.phase.hi;
    if cur < hi && ValidSlot(s.t, l.Slot(cur)) && Base(l, s.t, l.Slot(cur)) in s.t.mem {
      ChunkShape(l, cur, hi);
      LoopKeepsWalk(l, v,
        s.(t := DeleteChunk(l, s.t, cur, hi), phase := s.phase.(cur := cur + ChunkCount(l, cur, hi))));
    }
  }

  /** From V14 on the loop leaves it coherent exactly when no slot that it frees is cached. */
  lemma LoopWalkFrom(l: Layout, v: nat, s: State)
    requires v >= VERSION_V14 && Inv(l, s.t) && Clears(l, s) && WalkCoherent(l, s)
    ensures WalkCoherent(l, UnmapLoop(l, v, s)) <==> forall sl :: sl in s.walk ==> !ToDrop(l, s, sl)
  {
    ZeroIsInvalid();
    hide DentValid, DentBase, Inv, UnmapLoop, UnmapTable, UnmapStop, WholeSlotIn;
    var s2 := UnmapLoop(l, v, s);
    LoopKeepsWalk(l, v, s);
    UnmapLoopTable(l, v, s);
    forall sl | sl in s.walk
      ensures WalkOk(l, s2, sl) <==> !ToDrop(l, s, sl)
    {
      assert WalkOk(l, s, sl);
      UnmapSlots(l, s.t, s.phase.cur, s.phase.hi, sl);
    }
  }

  /** What a walk adds to the walk cache is the valid slot of its page, or the slot that is invalidated next. */
  lemma ResumedAdds(l: Layout, v: nat, s: State, pg: nat, w: Word, s2: State)
    requires Unmaps(l, s) && WalkCoherent(l, Resumed(l, v, s)) && Walks(l, s, pg, w, s2)
    ensures s2.phase.InUnmap? && WalkCoherent(l, Resumed(l, v, s2))
    ensures v >= VERSION_V14 && s2.walk != s.walk ==>
      pg !in s.tlb && ValidSlot(s.t, l.Slot(pg)) && s2.walk.Keys == s.walk.Keys + {l.Slot(pg)}
  {
    hide DentValid, DentBase, PteValid, DecodePte, PhaseOk, Layout.Slot;
    var r, r2 := Resumed(l, v, s), Resumed(l, v, s2);
    forall sl | sl in r2.walk
      ensures WalkOk(l, r2, sl)
    {
      assert sl in r.walk ==> WalkOk(l, r, sl);
    }
    if l.Slot(pg) in r.walk {
      assert WalkOk(l, r, l.Slot(pg));
    }
  }

  /** A page without a TLB entry and with a valid slot can bring its slot into the walk cache. */
  lemma CanCacheSlot(l: Layout, s: State, pg: nat) returns (w: Word, s': State)
    requires Inv(l, s.t) && !s.phase.InMap? && pg < l.NumPages() && pg !in s.tlb && ValidSlot(s.t, l.Slot(pg))
    ensures Walks(l, s, pg, w, s') && l.Slot(pg) in s'.walk && s'.tlb == s.tlb
  {
    hide DentValid, DentBase, PteValid, Inv, DecodePte, EntryAt, Layout.Slot;
    var sl := l.Slot(pg);
    var base := WalkBase(l, s, sl);
    w := if base in s.t.mem && l.Index(pg) < |s.t.mem[base]| then s.t.mem[base][l.Index(pg)] else 0;
    s' := s.(walk := s.walk[sl := base]);
  }

  /** The slots whose tables are still to be freed, at any point of an unmap. */
  ghost predicate StillDropped(l: Layout, v: nat, s: State, sl: nat)
    requires Unmaps(l, s)
  {
    ToDrop(l, Resumed(l, v, s), sl)
  }

  /**
   One access at any point of an unmap: the walk cache is coherent at the end if and only if the version is below
   V14, the TLB answers, or the slot is not valid or not one whose table is still to be freed.
   */
  lemma WalkAccessExact(l: Layout, v: nat, s: State, pg: nat)
    requires Inv(l, s.t) && Unmaps(l, s) && WalkCoherent(l, Resumed(l, v, s)) && pg < l.NumPages()
    requires forall sl :: sl in Resumed(l, v, s).walk ==> !StillDropped(l, v, s, sl)
    ensures (forall w, s2 :: Walks(l, s, pg, w, s2) ==> WalkCoherent(l, Rest(l, v, s2))) <==>
      v < 0x14 || pg in s.tlb || !(ValidSlot(s.t, l.Slot(pg)) && StillDropped(l, v, s, l.Slot(pg)))
  {
    hide Inv, UnmapLoop, DentValid, DentBase, PteValid, DecodePte, WalkBase, Memory, ToDrop, WalkCoherent, Layout.Slot;
    if v < VERSION_V14 || pg in s.tlb || !(ValidSlot(s.t, l.Slot(pg)) && StillDropped(l, v, s, l.Slot(pg))) {
      forall w, s2 | Walks(l, s, pg, w, s2)
        ensures WalkCoherent(l, Rest(l, v, s2))
      {
        WalkedRest(l, v, s, pg, w, s2);
      }
    } else {
      var w, s2 := CanCacheSlot(l, s, pg);
      WalkedRest(l, v, s, pg, w, s2);
    }
  }

  lemma SameDropped(l: Layout, v: nat, s: State, s2: State)
    requires Unmaps(l, s) && s2.t == s.t && s2.phase == s.phase
    ensures Unmaps(l, s2) && forall sl: nat :: StillDropped(l, v, s2, sl) <==> StillDropped(l, v, s, sl)
  {
    hide UnmapStop, Torn, WholeSlotIn;
  }

  lemma WalkedRest(l: Layout, v: nat, s: State, pg: nat, w: Word, s2: State)
    requires Inv(l, s.t) && Unmaps(l, s) && WalkCoherent(l, Resumed(l, v, s)) && Walks(l, s, pg, w, s2)
    ensures Unmaps(l, s2) && forall sl: nat :: StillDropped(l, v, s2, sl) <==> StillDropped(l, v, s, sl)
    ensures WalkCoherent(l, Rest(l, v, s2)) <==>
      v < VERSION_V14 || forall sl :: sl in s2.walk ==> !StillDropped(l, v, s, sl)
    ensures v >= VERSION_V14 && s2.walk != s.walk ==>
      pg !in s.tlb && ValidSlot(s.t, l.Slot(pg)) && s2.walk.Keys == s.walk.Keys + {l.Slot(pg)}
  {
    hide Inv, UnmapLoop, DentValid, DentBase, PteValid, DecodePte, WalkCoherent, WalkBase, ToDrop, Torn, Layout.Slot;
    ResumedAdds(l, v, s, pg, w, s2);
    SameDropped(l, v, s, s2);
    if v < VERSION_V14 {
      LoopWalkBelow(l, v, Resumed(l, v, s2));
    } else {
      LoopWalkFrom(l, v, Resumed(l, v, s2));
    }
  }

  /**
   From V14 on, from every state with the lock free, every unmap that frees the table of a slot has a run that ends
   with a walk-cache entry for that table.
   */
  lemma StaleWalk(l: Layout, v: nat, s: State, lo: nat, hi: nat, pg: nat) returns (s': State)
    requires v >= 0x14 && s.phase.Free? && Inv(l, s.t) && WalkCoherent(l, s) && lo <= hi <= l.NumPages()
    requires pg < l.NumPages() && pg !in s.tlb && WholeSlotIn(l, lo, UnmapStop(l, s.t, lo, hi), l.Slot(pg))
    ensures Reach(l, v, s, s') && s'.phase.Free? && !WalkCoherent(l, s')
  {
    hide EntryAt, Inv, DecodePte, UnmapLoop, UnmapTable, UnmapStop, DentValid, DentBase, PteValid, Reach,
         SlotInRange, IsRun, WholeSlotIn, PageSet, WalkCoherent, Layout.Slot;
    var s1 := Locked(l, v, s, lo, hi);
    LockedCoherent(l, v, s, lo, hi);
    ReachStep(l, v, s, LockUnmap(lo, hi), s1);
    WholeIsValid(l, s.t, lo, hi, pg);
    var w, s2 := CanCacheSlot(l, s1, pg);
    WalkedRest(l, v, s1, pg, w, s2);
    assert StillDropped(l, v, s1, l.Slot(pg));
    ReachStep(l, v, s1, Access(pg, w), s2);
    ReachJoin(l, v, s, s1, s2);
    UnmapRest(l, v, s2);
    s' := UnmapLoop(l, v, s2);
    ReachJoin(l, v, s, s2, s');
    UnmapLoopTable(l, v, s2);
  }

  lemma WholeIsValid(l: Layout, t: Table, lo: nat, hi: nat, pg: nat)
    requires lo <= hi && WholeSlotIn(l, lo, UnmapStop(l, t, lo, hi), l.Slot(pg))
    ensures ValidSlot(t, l.Slot(pg))
  {
    hide UnmapStop, DentValid;
    StopIsFirst(l, t, lo, hi);
    assert lo <= pg < UnmapStop(l, t, lo, hi);
  }

  // ----- the window between the free of a table and the invalidation of its slot

  /** The loop comes to every slot that it frees, with the caches as they were but for slots before it. */
  lemma {:induction false} ComesTo(l: Layout, v: nat, s: State, sl: nat) returns (s1: State)
    requires Inv(l, s.t) && Clears(l, s) && ToDrop(l, s, sl)
    ensures Reach(l, v, s, s1) && Inv(l, s1.t) && InClearing(s1) && Clears(l, s1) && ToDrop(l, s1, sl)
    ensures l.Slot(s1.phase.cur) == sl && ChunkCount(l, s1.phase.cur, s1.phase.hi) == l.NumPte()
    ensures ValidSlot(s1.t, sl) && s1.t.dir[sl] == s.t.dir[sl]
    ensures s1.tlb == s.tlb && (sl in s.walk ==> sl in s1.walk && s1.walk[sl] == s.walk[sl])
    ensures s1.phase.lo == s.phase.lo && s1.phase.hi == s.phase.hi && s.phase.cur <= s1.phase.cur
    ensures UnmapStop(l, s1.t, s1.phase.cur, s1.phase.hi) == UnmapStop(l, s.t, s.phase.cur, s.phase.hi)
    decreases s.phase.hi - s.phase.cur
  {
    hide DeleteChunk, DentValid, DentBase, PteValid, EntryAt, Inv, ChunkCount, WholeSlotIn, Reach, IsRun, Layout.Slot,
         Layout.Index;
    var cur, hi := s.phase.cur, s.phase.hi;
    var stop := UnmapStop(l, s.t, cur, hi);
    NoneWhole(l, cur, sl);
    assert cur < hi && ValidSlot(s.t, l.Slot(cur));
    StopPastChunk(l, s.t, cur, hi);
    WholeAfterChunk(l, cur, hi, stop, sl);
    var n := ChunkCount(l, cur, hi);
    if sl == l.Slot(cur) && n == l.NumPte() {
      s1 := s;
      StayReach(l, v, s);
    } else {
      assert sl != l.Slot(cur);
      ChunkShape(l, cur, hi);
      var ss, evs := ChunkRun(l, v, s);
      ReachBy(l, v, ss, evs);
      DeleteChunkKeeps(l, s.t, cur, hi);
      DeleteChunkDir(l, s.t, cur, hi);
      StopAfterChunk(l, s.t, cur, hi);
      var s2 := ss[|evs|];
      s1 := ComesTo(l, v, s2, sl);
      ReachJoin(l, v, s, s2, s1);
      DirLength(l, s.t);
      DirLength(l, s2.t);
      DirLength(l, s1.t);
      assert s2.t.dir[sl] == s.t.dir[sl];
    }
  }

  lemma StayReach(l: Layout, v: nat, s: State)
    ensures Reach(l, v, s, s)
  {
    ReachBy(l, v, [s], []);
  }

  lemma StopPastChunk(l: Layout, t: Table, cur: nat, hi: nat)
    requires cur < hi && ValidSlot(t, l.Slot(cur))
    ensures cur + ChunkCount(l, cur, hi) <= UnmapStop(l, t, cur, hi)
  {
    hide DentValid, ChunkCount, Layout.Slot;
    ChunkShape(l, cur, hi);
  }

  /** The round that frees the table of its slot, up to the point where the slot waits for its invalidation. */
  lemma FreesTable(l: Layout, v: nat, s: State) returns (s1: State)
    requires InClearing(s) && Clears(l, s) && Inv(l, s.t) && ValidSlot(s.t, l.Slot(s.phase.cur))
    requires ChunkCount(l, s.phase.cur, s.phase.hi) == l.NumPte() && s.phase.lo <= s.phase.cur
    ensures Reach(l, v, s, s1) && Inv(l, s1.t) && Unmaps(l, s1) && s1.tlb == s.tlb && s1.walk == s.walk
    ensures !ValidSlot(s1.t, l.Slot(s.phase.cur)) && Base(l, s.t, l.Slot(s.phase.cur)) !in s1.t.mem
    ensures s1.phase.stage.Invalidating? && s1.phase.hi == s.phase.hi
  {
    hide ZeroChunk, DentValid, DentBase, PteValid, Inv, ChunkCount, EntryAt, Reach, IsRun, Torn, Layout.Slot;
    var cur, hi, n := s.phase.cur, s.phase.hi, l.NumPte();
    var sl := l.Slot(cur);
    LiveTable(l, s.t, sl);
    ZeroNone(l, s.t, cur);
    ChunkShape(l, cur, hi);
    var ss, evs := ZeroSteps(l, v, s, s.t, 0);
    DriverReach(l, v, ss, evs);
    var s0 := s.(t := ZeroChunk(l, s.t, cur, n));
    ZeroChunkKeeps(l, s.t, cur, n);
    forall pg | cur <= pg < cur + n
      ensures EntryAt(l, s0.t, pg) == 0
    {
      ZeroChunkEntry(l, s.t, cur, hi, pg);
    }
    DropInv(l, s0.t, sl);
    s1 := s0.(t := Drop(l, s0.t, sl), phase := s.phase.(stage := Invalidating(cur + n)));
    ReachStep(l, v, s0, EndChunk, s1);
    ReachJoin(l, v, s, s0, s1);
  }

  lemma DriverReach(l: Layout, v: nat, ss: seq<State>, evs: seq<Event>)
    requires IsRun(l, v, ss, evs) && DriverOnly(evs)
    ensures Reach(l, v, ss[0], ss[|evs|])
  {
    hide Next;
    ReachBy(l, v, ss, evs);
  }

  /** From any point of an unmap the call can come to its end. */
  lemma CanFinish(l: Layout, v: nat, s: State)
    requires Inv(l, s.t) && Unmaps(l, s)
    ensures Reach(l, v, s, Rest(l, v, s)) && Rest(l, v, s).phase.Free?
  {
    hide Inv, UnmapLoop, Reach, Torn, Layout.Slot;
    var r := Resumed(l, v, s);
    if s.phase.stage.Invalidating? {
      ReachStep(l, v, s, Invalidate, r);
    } else {
      StayReach(l, v, s);
    }
    UnmapRest(l, v, r);
    ReachJoin(l, v, s, r, UnmapLoop(l, v, r));
    UnmapLoopTable(l, v, r);
  }

  /**
   A table whose slot is in the walk cache is freed: an access then, to any page of the slot, reads freed memory and
   can leave a wrong TLB entry for a page that is not mapped.
   */
  lemma StaleInWindow(l: Layout, v: nat, s: State, pg: nat) returns (s': State)
    requires Inv(l, s.t) && Clears(l, s) && s.phase.lo <= s.phase.cur && ToDrop(l, s, l.Slot(pg))
    requires WalkCoherent(l, s) && l.Slot(pg) in s.walk && pg !in s.tlb && pg < l.NumPages()
    ensures Reach(l, v, s, s') && s'.phase.Free? && pg in s'.tlb && !Mapped(l, s'.t, pg)
  {
    hide EntryAt, Inv, DecodePte, UnmapLoop, UnmapStop, DentValid, DentBase, PteValid, Reach, Torn, WholeSlotIn,
         ChunkCount, Layout.Slot;
    var sl := l.Slot(pg);
    assert WalkOk(l, s, sl);
    var s1 := ComesTo(l, v, s, sl);
    var s2 := FreesTable(l, v, s1);
    ReachJoin(l, v, s, s1, s2);
    Freed(l, v, s2, pg);
    var w, s3 := CanMislead(l, v, s2, pg);
    ReachStep(l, v, s2, Access(pg, w), s3);
    ReachJoin(l, v, s, s2, s3);
    CanFinish(l, v, s3);
    s' := Rest(l, v, s3);
    ReachJoin(l, v, s, s3, s');
    StaysUnmapped(l, v, s3, pg);
  }

  /** Through the base of a freed table every access is harmful. */
  lemma Freed(l: Layout, v: nat, s: State, pg: nat)
    requires Unmaps(l, s) && pg !in s.tlb && l.Slot(pg) in s.walk && s.walk[l.Slot(pg)] !in s.t.mem
    ensures Harmful(l, v, s, pg)
  {
    hide EntryAt, DecodePte, DentValid, DentBase, PteValid, StillCleared, PhaseOk, Layout.Slot;
  }

  lemma StaysUnmapped(l: Layout, v: nat, s: State, pg: nat)
    requires Inv(l, s.t) && Unmaps(l, s) && !ValidSlot(s.t, l.Slot(pg)) && pg < l.NumPages()
    ensures !Mapped(l, Rest(l, v, s).t, pg) && Rest(l, v, s).tlb == s.tlb
  {
    hide Inv, UnmapLoop, UnmapTable, UnmapStop, DentValid, DentBase, Torn, Layout.Slot;
    var r := Resumed(l, v, s);
    UnmapLoopTable(l, v, r);
    UnmapClears(l, s.t, r.phase.cur, r.phase.hi);
  }

  /**
   On V12 and V13 the walk cache is not invalidated when the lock is taken: from every state with the lock free in
   which it holds a slot that the unmap frees, there is a run in which an access to a page that is no longer mapped
   leaves a stale TLB entry.
   */
  lemma StaleAfterFree(l: Layout, v: nat, s: State, lo: nat, hi: nat, pg: nat) returns (s': State)
    requires v < 0x14 && s.phase.Free? && Inv(l, s.t) && WalkCoherent(l, s) && lo <= hi <= l.NumPages()
    requires pg < l.NumPages() && WholeSlotIn(l, lo, UnmapStop(l, s.t, lo, hi), l.Slot(pg))
    requires l.Slot(pg) in s.walk && pg !in Locked(l, v, s, lo, hi).tlb
    ensures Reach(l, v, s, s') && s'.phase.Free? && pg in s'.tlb && !Mapped(l, s'.t, pg)
    ensures !TlbCoherent(l, s') && (!Synced(l, v, lo, hi, pg) ==> !TlbCoherent(l, AfterSync(l, v, s', lo, hi)))
  {
    hide EntryAt, Inv, DecodePte, UnmapStop, DentValid, DentBase, Reach, Synced, SlotInRange, WholeSlotIn, PageSet,
         Layout.Slot;
    var s1 := Locked(l, v, s, lo, hi);
    LockedCoherent(l, v, s, lo, hi);
    ReachStep(l, v, s, LockUnmap(lo, hi), s1);
    s' := StaleInWindow(l, v, s1, pg);
    ReachJoin(l, v, s, s1, s');
    NotCoherent(l, s', pg);
    if !Synced(l, v, lo, hi, pg) {
      NotCoherent(l, AfterSync(l, v, s', lo, hi), pg);
    }
  }

  // ----- stores that belong together

  /**
   A walk through a slot between the two stores of its V2 link: whatever the hardware does with it, the walk cache
   names the linked table, if and only if the table's address has no high bits.
   */
  lemma TornLinkExact(l: Layout, s: State, pg: nat)
    requires PhaseOk(l, s) && WalkCoherent(l, s) && s.phase.InMap? && s.phase.half.LowStored? && pg < l.NumPages()
    requires l.Slot(pg) == s.phase.half.link.slot && pg !in s.tlb && l.Slot(pg) !in s.walk
    ensures (forall w, s' :: Walks(l, s, pg, w, s') ==> WalkCoherent(l, s')) <==>
      HighBits(l, s.phase.half.link.base) == 0
  {
    hide DentValid, DentBase, PteValid, DecodePte, MkDent, LowDent, HighBits, Layout.Slot;
    var sl, k := l.Slot(pg), s.phase.half.link;
    LowDentExact(l, k.base);
    DentRoundTrip(l, k.base);
    if HighBits(l, k.base) == 0 {
      forall w, s' | Walks(l, s, pg, w, s')
        ensures WalkCoherent(l, s')
      {
        forall x | x in s'.walk
          ensures WalkOk(l, s', x)
        {
          assert x in s.walk ==> WalkOk(l, s, x);
        }
      }
    } else {
      var base := WalkBase(l, s, sl);
      var w: Word := if base in s.t.mem && l.Index(pg) < |s.t.mem[base]| then s.t.mem[base][l.Index(pg)] else 0;
      var s' := s.(walk := s.walk[sl := base]);
      assert Walks(l, s, pg, w, s') && !WalkOk(l, s', sl);
    }
  }

  /**
   And the TLB stays coherent, whatever the hardware does, if and only if the table's address has no high bits or
   the half-written entry happens to name a live table with no valid entry at the page's index.
   */
  lemma TornTlbExact(l: Layout, s: State, pg: nat)
    requires Inv(l, s.t) && PhaseOk(l, s) && TlbCoherent(l, s) && s.phase.InMap? && s.phase.half.LowStored?
    requires pg < l.NumPages() && l.Slot(pg) == s.phase.half.link.slot && pg !in s.tlb && l.Slot(pg) !in s.walk
    ensures (forall w, s' :: Walks(l, s, pg, w, s') ==> TlbCoherent(l, s')) <==>
      || HighBits(l, s.phase.half.link.base) == 0
      || (var b := DentBase(l, LowDent(l, s.phase.half.link.base));
          b in s.t.mem && l.Index(pg) < |s.t.mem[b]| && !PteValid(s.t.mem[b][l.Index(pg)]))
  {
    hide Inv, DentValid, DentBase, PteValid, DecodePte, MkDent, LowDent, HighBits, Layout.Slot;
    var sl, k := l.Slot(pg), s.phase.half.link;
    TornEntry(l, s, pg);
    var b := DentBase(l, LowDent(l, k.base));
    if b in s.t.mem && l.Index(pg) < |s.t.mem[b]| && !PteValid(s.t.mem[b][l.Index(pg)]) {
      forall w, s' | Walks(l, s, pg, w, s')
        ensures TlbCoherent(l, s')
      {
        SameTlb(l, s, s');
      }
    } else {
      var w: Word := if b in s.t.mem && l.Index(pg) < |s.t.mem[b]| then s.t.mem[b][l.Index(pg)] else 2;
      RightsValue(2);
      var s' := s.(tlb := s.tlb[pg := DecodePte(l, w)]);
      assert Walks(l, s, pg, w, s');
      NotCoherent(l, s', pg);
    }
  }

  lemma SameTlb(l: Layout, s: State, s': State)
    requires TlbCoherent(l, s) && s'.t == s.t && s'.tlb == s.tlb
    ensures TlbCoherent(l, s')
  {
    hide EntryAt, DecodePte;
    forall pg | pg in s'.tlb
      ensures TlbOk(l, s', pg)
    {
      assert TlbOk(l, s, pg);
    }
  }

  /** Between the two stores the linked table is zero, and the slot in memory names it or another address. */
  lemma TornEntry(l: Layout, s: State, pg: nat)
    requires Inv(l, s.t) && PhaseOk(l, s) && s.phase.InMap? && s.phase.half.LowStored?
    requires l.Slot(pg) == s.phase.half.link.slot
    ensures EntryAt(l, s.t, pg) == 0
    ensures var m, b := Memory(l, s), DentBase(l, LowDent(l, s.phase.half.link.base));
      && ValidSlot(m, l.Slot(pg)) && Base(l, m, l.Slot(pg)) == b
      && (HighBits(l, s.phase.half.link.base) == 0 ==>
            b in s.t.mem && l.Index(pg) < |s.t.mem[b]| && !PteValid(s.t.mem[b][l.Index(pg)]))
  {
    var k := s.phase.half.link;
    LowDentExact(l, k.base);
    DentRoundTrip(l, k.base);
    RightsValue(0);
    hide Inv, DentValid, DentBase, PteValid, MkDent, LowDent, HighBits, Layout.Slot;
  }

  /**
   Between the clear of a slot and the free of its table: a walk there is a walk after both, so that joining the
   two in one step loses no behaviour.
   */
  lemma ClearThenFree(l: Layout, s: State, sl: nat, pg: nat, w: Word, s': State)
    requires ValidSlot(s.t, sl) && !s.phase.InMap? && Walks(l, s.(t := s.t.(dir := s.t.dir[sl := 0])), pg, w, s')
    ensures Walks(l, s.(t := Drop(l, s.t, sl)), pg, w, s'.(t := Drop(l, s.t, sl)))
  {
    hide DentValid, DentBase, PteValid, DecodePte, Layout.Slot;
    assert Drop(l, s.t, sl).dir == s.t.dir[sl := 0];
  }
}
