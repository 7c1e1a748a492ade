/**
 Whole calls of sunxi_iommu_map, sunxi_iommu_unmap and sunxi_iommu_domain_free, store by store, as runs
 of the coherence machine.
 */
module CallRuns {
  import opened Layouts
  import opened Tables
  import opened Chunks
  import opened Coherence
  import opened Runs

  lemma FillNone(l: Layout, t: Table, cur: nat, x: nat, prot: Rights)
    requires ValidSlot(t, l.Slot(cur)) && Base(l, t, l.Slot(cur)) in t.mem
    ensures FillPart(l, t, cur, 0, x, prot) == t
  {
    hide FillWord;
    var words := t.mem[Base(l, t, l.Slot(cur))];
    assert FillWords(l, words, l.Index(cur), 0, x, prot) == words;
    assert t.mem[Base(l, t, l.Slot(cur)) := words] == t.mem;
  }

  /** The next store of the inner loop hits an empty entry and extends the filled part by one. */
  lemma FillOneMore(l: Layout, t: Table, cur: nat, hi: nat, i: nat, x: nat, prot: Rights)
    requires Inv(l, t) && cur < hi <= l.NumPages() && ValidSlot(t, l.Slot(cur)) && i < ChunkCount(l, cur, hi)
    requires x % PAGE_SIZE == 0 && EntryAt(l, t, cur + i) == 0
    ensures Base(l, t, l.Slot(cur)) in t.mem
    ensures var t1, e := FillPart(l, t, cur, i, x, prot), FillWord(l, x, prot, i);
      LivePage(l, t1, cur + i) && EntryAt(l, t1, cur + i) == 0 && PteValid(e) &&
      PutWord(l, t1, cur + i, e) == FillPart(l, t, cur, i + 1, x, prot)
  {
    hide DentValid, DentBase, PteValid, Inv, FillWord, DecodePte;
    var s := l.Slot(cur);
    LiveTable(l, t, s);
    ChunkPage(l, cur, hi, cur + i);
    ChunkShape(l, cur, hi);
    FillDecodes(l, x, prot, i);
    var words := t.mem[Base(l, t, s)];
    var w1 := FillWords(l, words, l.Index(cur), i, x, prot);
    assert w1[l.Index(cur) + i := FillWord(l, x, prot, i)] == FillWords(l, words, l.Index(cur), i + 1, x, prot);
  }

  lemma {:induction false} FillSteps(
      l: Layout, v: nat, s: State, t: Table, cur: nat, hi: nat, i: nat, x: nat, prot: Rights)
    returns (ss: seq<State>, evs: seq<Event>)
    requires InMapping(s) && s.phase.lo <= cur < hi == s.phase.hi <= l.NumPages() && x % PAGE_SIZE == 0
    requires Inv(l, t) && ValidSlot(t, l.Slot(cur)) && Base(l, t, l.Slot(cur)) in t.mem
    requires i <= ChunkCount(l, cur, hi) && s.t == FillPart(l, t, cur, i, x, prot)
    requires forall pg :: cur <= pg < hi ==> EntryAt(l, t, pg) == 0
    ensures |ss| == |evs| + 1 && IsRun(l, v, ss, evs) && DriverOnly(evs) && ss[0] == s
    ensures ss[|evs|] == s.(t := FillChunk(l, t, cur, hi, x, prot))
    decreases ChunkCount(l, cur, hi) - i
  {
    hide FillPart, PutWord, DentValid, DentBase, PteValid, Inv, ChunkCount, LivePage, FillWord, EntryAt,
         Layout.Slot;
    if i == ChunkCount(l, cur, hi) {
      ss, evs := [s], [];
    } else {
      ChunkShape(l, cur, hi);
      FillOneMore(l, t, cur, hi, i, x, prot);
      var s1 := s.(t := FillPart(l, t, cur, i + 1, x, prot));
      var ev := StoreEntry(cur + i, FillWord(l, x, prot, i));
      LiveMeans(l, s.t, cur + i);
      assert Next(l, v, s, ev, s1);
      StepRun(l, v, s, ev, s1);
      ss, evs := FillSteps(l, v, s1, t, cur, hi, i + 1, x, prot);
      JoinRuns(l, v, [s, s1], [ev], ss, evs);
      ss, evs := [s, s1] + ss[1..], [ev] + evs;
    }
  }

  /** On an empty range with valid slots the fill is a run of single stores that ends in `FillTable`. */
  lemma {:induction false} FillRun(l: Layout, v: nat, s: State, cur: nat, x: nat, prot: Rights)
    returns (ss: seq<State>, evs: seq<Event>)
    requires InMapping(s) && s.phase.lo <= cur <= s.phase.hi <= l.NumPages() && x % PAGE_SIZE == 0
    requires Inv(l, s.t) && SlotsValid(l, s.t, cur, s.phase.hi)
    requires forall pg :: cur <= pg < s.phase.hi ==> EntryAt(l, s.t, pg) == 0
    ensures |ss| == |evs| + 1 && IsRun(l, v, ss, evs) && DriverOnly(evs) && ss[0] == s
    ensures ss[|evs|] == s.(t := FillTable(l, s.t, cur, s.phase.hi, x, prot))
    decreases s.phase.hi - cur
  {
    hide FillChunk, DentValid, DentBase, PteValid, Inv, ChunkCount, EntryAt, IsRun, Layout.Slot;
    var hi := s.phase.hi;
    if cur == hi {
      EmptyRun(l, v, s);
      ss, evs := [s], [];
    } else {
      FillChunkKeeps(l, s.t, cur, hi, x, prot);
      FillChunkDir(l, s.t, cur, hi, x, prot);
      ChunkShape(l, cur, hi);
      FillNone(l, s.t, cur, x, prot);
      ss, evs := FillSteps(l, v, s, s.t, cur, hi, 0, x, prot);
      var n, t1 := ChunkCount(l, cur, hi), FillChunk(l, s.t, cur, hi, x, prot);
      assert SlotsValid(l, t1, cur + n, hi);
      forall pg | cur + n <= pg < hi
        ensures EntryAt(l, t1, pg) == 0
      {
        FillChunkEntry(l, s.t, cur, cur, hi, x, prot, pg);
      }
      AlignedOffset(x, n);
      var ss', evs' := FillRun(l, v, s.(t := t1), cur + n, x + PAGE_SIZE * n, prot);
      JoinRuns(l, v, ss, evs, ss', evs');
      ss, evs := ss + ss'[1..], evs + evs';
    }
  }

  lemma EmptyRun(l: Layout, v: nat, s: State)
    ensures IsRun(l, v, [s], [])
  {
  }

  // ----- map

  /** One table is linked by one store on V1 and by two on V2. */
  lemma LinkOne(l: Layout, v: nat, s: State, k: Link)
    requires InMapping(s) && CanLink(l, s.t, k)
    ensures Leads(l, v, s, s.(t := Install(l, s.t, k.slot, k.base)))
  {
    hide Install, DentValid, TableAddress, Leads;
    var s2 := s.(t := Install(l, s.t, k.slot, k.base));
    if l.V1? {
      LeadsStep(l, v, s, LinkTable(k.slot, k.base), s2);
    } else {
      var s1 := s2.(phase := s.phase.(half := LowStored(k)));
      LeadsStep(l, v, s, LinkTable(k.slot, k.base), s1);
      LeadsStep(l, v, s1, LinkHigh, s2);
      LeadsJoin(l, v, s, s1, s2);
    }
  }

  /** Directory preparation links one table after another. */
  lemma {:induction false} LinkRun(l: Layout, v: nat, s: State, links: seq<Link>, t': Table)
    requires InMapping(s) && Links(l, s.t, links, t')
    ensures Leads(l, v, s, s.(t := t'))
    decreases |links|
  {
    hide Install, DentValid, TableAddress, Leads;
    if links == [] {
      EmptyRun(l, v, s);
      LeadsBy(l, v, [s], []);
    } else {
      var s1 := s.(t := Install(l, s.t, links[0].slot, links[0].base));
      LinkOne(l, v, s, links[0]);
      LinkRun(l, v, s1, links[1..], t');
      LeadsJoin(l, v, s, s1, s.(t := t'));
    }
  }

  lemma LockRun(l: Layout, v: nat, s: State, lo: nat, hi: nat, links: seq<Link>, t1: Table)
    requires s.phase.Free? && lo <= hi <= l.NumPages() && Links(l, s.t, links, t1)
    ensures Leads(l, v, s, s.(t := t1, phase := InMap(lo, hi, NoLink)))
  {
    hide Links, Leads;
    var s1 := s.(phase := InMap(lo, hi, NoLink));
    LeadsStep(l, v, s, LockMap(lo, hi), s1);
    LinkRun(l, v, s1, links, t1);
    LeadsJoin(l, v, s, s1, s1.(t := t1));
  }

  lemma UnlockRun(l: Layout, v: nat, s: State, s': State)
    requires InMapping(s') && Leads(l, v, s, s')
    ensures Leads(l, v, s, s'.(phase := Free))
  {
    hide Leads;
    LeadsStep(l, v, s', UnlockMap, s'.(phase := Free));
    LeadsJoin(l, v, s, s', s'.(phase := Free));
  }

  /** A map call that runs out of memory: the tables linked so far stay. */
  lemma FailedMapRun(l: Layout, v: nat, s: State, lo: nat, hi: nat, links: seq<Link>, t1: Table)
    requires s.phase.Free? && lo <= hi <= l.NumPages() && Links(l, s.t, links, t1)
    ensures Leads(l, v, s, s.(t := t1))
  {
    hide Links, Leads;
    LockRun(l, v, s, lo, hi, links, t1);
    UnlockRun(l, v, s, s.(t := t1, phase := InMap(lo, hi, NoLink)));
  }

  /** A whole map call on an empty range: lock, preparation, fill, unlock. */
  lemma MapRun(l: Layout, v: nat, s: State, lo: nat, hi: nat, links: seq<Link>, t1: Table, x: nat, prot: Rights)
    requires s.phase.Free? && lo <= hi <= l.NumPages() && x % PAGE_SIZE == 0 && Inv(l, s.t)
    requires Links(l, s.t, links, t1) && SlotsValid(l, t1, lo, hi)
    requires forall pg :: lo <= pg < hi ==> !Mapped(l, s.t, pg)
    ensures Leads(l, v, s, s.(t := FillTable(l, t1, lo, hi, x, prot)))
  {
    hide Links, Leads, Inv, EntryAt, FillTable, DentValid, DentBase, IsRun, Layout.Slot;
    LinksKeep(l, s.t, links, t1);
    LockRun(l, v, s, lo, hi, links, t1);
    var s1 := s.(t := t1, phase := InMap(lo, hi, NoLink));
    forall pg | lo <= pg < hi
      ensures EntryAt(l, t1, pg) == 0
    {
      assert !Mapped(l, s.t, pg);
    }
    var ss, evs := FillRun(l, v, s1, lo, x, prot);
    LeadsBy(l, v, ss, evs);
    var s2 := s1.(t := FillTable(l, t1, lo, hi, x, prot));
    LeadsJoin(l, v, s, s1, s2);
    UnlockRun(l, v, s, s2);
  }

  // ----- unmap

  lemma UnmapCallRun(l: Layout, v: nat, s: State, lo: nat, hi: nat)
    requires s.phase.Free? && lo <= hi <= l.NumPages() && Inv(l, s.t)
    ensures Leads(l, v, s, UnmapLoop(l, v, Locked(l, v, s, lo, hi)))
  {
    hide Leads, Inv, UnmapLoop, IsRun, TlbAfter, WalkAfter;
    var s1 := Locked(l, v, s, lo, hi);
    LeadsStep(l, v, s, LockUnmap(lo, hi), s1);
    var ss, evs := UnmapRun(l, v, s1);
    LeadsBy(l, v, ss, evs);
    LeadsJoin(l, v, s, s1, UnmapLoop(l, v, s1));
  }

  // ----- free

  /** One slot of sunxi_pgtable_clear: the table is zeroed, unlinked and freed. */
  lemma ClearSlotRun(l: Layout, v: nat, s: State, i: nat)
    requires s.phase.InFree? && Inv(l, s.t) && i < |s.t.dir|
    ensures exists t' :: Inv(l, t') && Leads(l, v, s, s.(t := t')) && t'.dir == s.t.dir[i := 0]
  {
    hide Inv, Leads, DentValid, DentBase, ZeroWords, GoodWords;
    if ValidSlot(s.t, i) {
      LiveTable(l, s.t, i);
      ZeroGood(l);
      var t1 := SetTable(l, s.t, i, ZeroWords(l));
      SetTableInv(l, s.t, i, ZeroWords(l));
      DropInv(l, t1, i);
      var t2 := Drop(l, t1, i);
      LeadsStep(l, v, s, ZeroTable(i), s.(t := t1));
      LeadsStep(l, v, s.(t := t1), DropTable(i), s.(t := t2));
      LeadsJoin(l, v, s, s.(t := t1), s.(t := t2));
    } else {
      InvalidIsZero(l, s.t, i);
      assert s.t.dir[i := 0] == s.t.dir;
      EmptyRun(l, v, s);
      LeadsBy(l, v, [s], []);
      assert s.(t := s.t) == s;
    }
  }

  lemma {:induction false} ClearRun(l: Layout, v: nat, s: State, i: nat) returns (t': Table)
    requires s.phase.InFree? && Inv(l, s.t) && i <= NUM_ENTRIES_PDE
    requires forall k :: 0 <= k < i <= |s.t.dir| ==> s.t.dir[k] == 0
    ensures Leads(l, v, s, s.(t := t')) && Inv(l, t') && forall k :: 0 <= k < |t'.dir| ==> t'.dir[k] == 0
    decreases NUM_ENTRIES_PDE - i
  {
    hide Inv, Leads;
    DirLength(l, s.t);
    if i == NUM_ENTRIES_PDE {
      EmptyRun(l, v, s);
      LeadsBy(l, v, [s], []);
      t' := s.t;
      assert s.(t := t') == s;
    } else {
      ClearSlotRun(l, v, s, i);
      var t1 :| Inv(l, t1) && Leads(l, v, s, s.(t := t1)) && t1.dir == s.t.dir[i := 0];
      t' := ClearRun(l, v, s.(t := t1), i + 1);
      LeadsJoin(l, v, s, s.(t := t1), s.(t := t'));
    }
  }

  /** A whole domain_free: lock, clear every slot, flush both caches, unlock. */
  lemma FreeRun(l: Layout, v: nat, s: State, s': State)
    requires s.phase.Free? && Inv(l, s.t) && Initial(l, s')
    ensures Leads(l, v, s, s')
  {
    hide Inv, Leads;
    var s1 := s.(phase := InFree);
    LeadsStep(l, v, s, LockFree, s1);
    var t' := ClearRun(l, v, s1, 0);
    DirLength(l, t');
    NoSlotsNoTables(l, t');
    assert t'.dir == s'.t.dir;
    LeadsStep(l, v, s1.(t := t'), FlushAll, s');
    LeadsJoin(l, v, s, s1, s1.(t := t'));
    LeadsJoin(l, v, s, s1.(t := t'), s');
  }
}
