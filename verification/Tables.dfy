/**
 The two-level table as a value: a directory of words and the live second-level tables by the
 physical address of their base. This is what the driver's memory holds between two stores.
 */
module Tables {
  import opened Layouts

  datatype Table = Table(dir: seq<Word>, mem: map<nat, seq<Word>>)

  predicate ValidSlot(t: Table, s: nat) {
    s < |t.dir| && DentValid(t.dir[s])
  }

  function Base(l: Layout, t: Table, s: nat): nat
    requires s < |t.dir|
  {
    DentBase(l, t.dir[s])
  }

  /** A second-level table: every entry is zero or carries the valid bit. */
  predicate GoodWords(l: Layout, words: seq<Word>) {
    |words| == l.NumPte() && forall i :: 0 <= i < |words| ==> words[i] == 0 || PteValid(words[i])
  }

  function ZeroWords(l: Layout): seq<Word> {
    seq(l.NumPte(), i => 0)
  }

  ghost predicate Owned(l: Layout, t: Table, b: nat) {
    exists s :: 0 <= s < |t.dir| && ValidSlot(t, s) && Base(l, t, s) == b
  }

  /** A slot is zero or names a live table. */
  ghost predicate Linked(l: Layout, t: Table) {
    forall s :: 0 <= s < |t.dir| ==> if ValidSlot(t, s) then Base(l, t, s) in t.mem else t.dir[s] == 0
  }

  /** Two valid slots never name the same table. */
  ghost predicate NoAlias(l: Layout, t: Table) {
    forall s, s' ::
      (&& 0 <= s < |t.dir| && 0 <= s' < |t.dir|
       && ValidSlot(t, s) && ValidSlot(t, s') && Base(l, t, s) == Base(l, t, s')) ==> s == s'
  }

  /** Every live table is named by a slot. */
  ghost predicate AllOwned(l: Layout, t: Table) {
    forall b :: b in t.mem ==> Owned(l, t, b)
  }

  /** Live tables sit at aligned addresses the hardware can name and hold proper entries. */
  ghost predicate GoodMem(l: Layout, t: Table) {
    forall b :: b in t.mem ==> TableAddress(l, b) && GoodWords(l, t.mem[b])
  }

  /** Table ownership: valid slots and live tables are in one-to-one correspondence. */
  ghost predicate Inv(l: Layout, t: Table) {
    |t.dir| == NUM_ENTRIES_PDE && Linked(l, t) && NoAlias(l, t) && AllOwned(l, t) && GoodMem(l, t)
  }

  lemma DirLength(l: Layout, t: Table)
    requires Inv(l, t)
    ensures |t.dir| == NUM_ENTRIES_PDE
  {
  }

  predicate TableAddress(l: Layout, b: nat) {
    LegalPhys(l, b) && b % l.PtSize() == 0
  }

  /** The entry a walk finds for a page; zero when the directory slot is not valid. */
  function EntryAt(l: Layout, t: Table, pg: nat): Word {
    var s := l.Slot(pg);
    if ValidSlot(t, s) && Base(l, t, s) in t.mem && l.Index(pg) < |t.mem[Base(l, t, s)]|
    then t.mem[Base(l, t, s)][l.Index(pg)] else 0
  }

  predicate Mapped(l: Layout, t: Table, pg: nat) {
    EntryAt(l, t, pg) != 0
  }

  /** The plain page map that the table stands for. */
  function Abs(l: Layout, t: Table): map<nat, Mapping> {
    map pg | 0 <= pg < l.NumPages() && Mapped(l, t, pg) :: DecodePte(l, EntryAt(l, t, pg))
  }

  ghost predicate SameEntries(l: Layout, t: Table, t': Table) {
    forall pg :: 0 <= pg < l.NumPages() ==> EntryAt(l, t', pg) == EntryAt(l, t, pg)
  }

  // ----- the three kinds of store

  /** A fresh zeroed table is linked into slot s. */
  function Install(l: Layout, t: Table, s: nat, b: nat): Table
    requires s < |t.dir|
  {
    Table(t.dir[s := MkDent(l, b)], t.mem[b := ZeroWords(l)])
  }

  /** The table of slot s gets new contents. */
  function SetTable(l: Layout, t: Table, s: nat, words: seq<Word>): Table
    requires s < |t.dir|
  {
    t.(mem := t.mem[Base(l, t, s) := words])
  }

  /** Slot s is cleared and its table freed. */
  function Drop(l: Layout, t: Table, s: nat): Table
    requires s < |t.dir|
  {
    Table(t.dir[s := 0], t.mem - {Base(l, t, s)})
  }

  lemma ZeroIsInvalid()
    ensures !DentValid(0)
  {
  }

  lemma EmptyInv(l: Layout, t: Table)
    requires |t.dir| == NUM_ENTRIES_PDE && t.mem == map[] && forall s :: 0 <= s < |t.dir| ==> t.dir[s] == 0
    ensures Inv(l, t) && Abs(l, t) == map[]
  {
    ZeroIsInvalid();
  }

  /** A table keeps its owner when only another slot changes. */
  lemma KeepsOwner(l: Layout, t: Table, t': Table, s: nat, b: nat)
    requires s < |t.dir| == |t'.dir| && Owned(l, t, b) && !(ValidSlot(t, s) && Base(l, t, s) == b)
    requires forall s' :: 0 <= s' < |t.dir| && s' != s ==> t'.dir[s'] == t.dir[s']
    ensures Owned(l, t', b)
  {
    hide DentBase, DentValid;
    var o :| 0 <= o < |t.dir| && ValidSlot(t, o) && Base(l, t, o) == b;
    assert ValidSlot(t', o) && Base(l, t', o) == b;
  }

  lemma InstalledSlot(l: Layout, t: Table, s: nat, b: nat)
    requires s < |t.dir| && TableAddress(l, b)
    ensures var t' := Install(l, t, s, b); ValidSlot(t', s) && Base(l, t', s) == b && Owned(l, t', b)
  {
    DentRoundTrip(l, b);
    hide DentBase, DentValid, MkDent;
  }

  lemma ZeroGood(l: Layout)
    ensures GoodWords(l, ZeroWords(l))
  {
  }

  lemma InstallInv(l: Layout, t: Table, s: nat, b: nat)
    requires Inv(l, t) && s < |t.dir| && !ValidSlot(t, s)
    requires TableAddress(l, b) && b !in t.mem
    ensures var t' := Install(l, t, s, b);
      Inv(l, t') && ValidSlot(t', s) && Base(l, t', s) == b &&
      forall s' :: 0 <= s' < |t.dir| ==> (ValidSlot(t', s') <==> ValidSlot(t, s') || s' == s)
  {
    hide DentBase, DentValid, MkDent, PteValid, TableAddress, Owned, GoodWords, ZeroWords;
    InstalledSlot(l, t, s, b);
    ZeroGood(l);
    var t' := Install(l, t, s, b);
    forall c | c in t'.mem
      ensures Owned(l, t', c)
    {
      if c != b {
        KeepsOwner(l, t, t', s, c);
      }
    }
  }

  lemma InstallEntry(l: Layout, t: Table, s: nat, b: nat, pg: nat)
    requires Inv(l, t) && s < |t.dir| && !ValidSlot(t, s)
    requires TableAddress(l, b) && b !in t.mem
    ensures EntryAt(l, Install(l, t, s, b), pg) == EntryAt(l, t, pg)
  {
    InstallInv(l, t, s, b);
    hide DentBase, DentValid, MkDent, PteValid, TableAddress;
  }

  lemma SetTableInv(l: Layout, t: Table, s: nat, words: seq<Word>)
    requires Inv(l, t) && ValidSlot(t, s) && GoodWords(l, words)
    ensures Inv(l, SetTable(l, t, s, words))
  {
    hide DentBase, DentValid, PteValid, TableAddress, GoodWords;
    var t' := SetTable(l, t, s, words);
    assert t'.mem.Keys == t.mem.Keys;
    forall c | c in t'.mem
      ensures Owned(l, t', c)
    {
      assert Owned(l, t, c);
      var o :| 0 <= o < |t.dir| && ValidSlot(t, o) && Base(l, t, o) == c;
      assert ValidSlot(t', o) && Base(l, t', o) == c;
    }
  }

  lemma SetTableEntry(l: Layout, t: Table, s: nat, words: seq<Word>, pg: nat)
    requires Inv(l, t) && ValidSlot(t, s) && GoodWords(l, words)
    ensures EntryAt(l, SetTable(l, t, s, words), pg)
         == if l.Slot(pg) == s then words[l.Index(pg)] else EntryAt(l, t, pg)
  {
    hide DentBase, DentValid, PteValid, TableAddress;
  }

  lemma DropInv(l: Layout, t: Table, s: nat)
    requires Inv(l, t) && ValidSlot(t, s)
    ensures var t' := Drop(l, t, s);
      Inv(l, t') && forall s' :: 0 <= s' < |t.dir| ==> (ValidSlot(t', s') <==> ValidSlot(t, s') && s' != s)
  {
    ZeroIsInvalid();
    hide DentBase, DentValid, PteValid, TableAddress, GoodWords, Owned;
    var t' := Drop(l, t, s);
    forall c | c in t'.mem
      ensures Owned(l, t', c)
    {
      KeepsOwner(l, t, t', s, c);
    }
  }

  lemma DropEntry(l: Layout, t: Table, s: nat, pg: nat)
    requires Inv(l, t) && ValidSlot(t, s)
    ensures EntryAt(l, Drop(l, t, s), pg) == if l.Slot(pg) == s then 0 else EntryAt(l, t, pg)
  {
    ZeroIsInvalid();
    hide DentBase, DentValid, PteValid, TableAddress, GoodWords;
  }

  lemma SameAbs(l: Layout, t: Table, t': Table)
    requires SameEntries(l, t, t')
    ensures Abs(l, t') == Abs(l, t)
  {
    hide DecodePte, EntryAt;
  }

  lemma InvalidIsZero(l: Layout, t: Table, s: nat)
    requires Inv(l, t) && s < |t.dir| && !ValidSlot(t, s)
    ensures t.dir[s] == 0
  {
    hide DentValid, DentBase;
  }

  /** With every slot zero no table can be live, since each live table has an owner. */
  lemma NoSlotsNoTables(l: Layout, t: Table)
    requires Inv(l, t) && forall s :: 0 <= s < |t.dir| ==> t.dir[s] == 0
    ensures t.mem == map[]
  {
    ZeroIsInvalid();
    hide DentValid, DentBase;
    forall b
      ensures b !in t.mem
    {
      assert !Owned(l, t, b);
    }
  }

  // ----- linking several tables

  /** A slot and the base of the table that is linked there. */
  datatype Link = Link(slot: nat, base: nat)

  predicate CanLink(l: Layout, t: Table, k: Link) {
    k.slot < |t.dir| && !ValidSlot(t, k.slot) && TableAddress(l, k.base) && k.base !in t.mem
  }

  /** Fresh tables are linked one after another, which leads from t to t'. */
  ghost predicate Links(l: Layout, t: Table, links: seq<Link>, t': Table)
    decreases |links|
  {
    if links == [] then t' == t
    else CanLink(l, t, links[0]) && Links(l, Install(l, t, links[0].slot, links[0].base), links[1..], t')
  }

  lemma {:induction false} LinksAppend(l: Layout, t: Table, links: seq<Link>, t1: Table, k: Link)
    requires Links(l, t, links, t1) && CanLink(l, t1, k)
    ensures Links(l, t, links + [k], Install(l, t1, k.slot, k.base))
    decreases |links|
  {
    hide Install, TableAddress, DentValid;
    if links != [] {
      LinksAppend(l, Install(l, t, links[0].slot, links[0].base), links[1..], t1, k);
      assert (links + [k])[1..] == links[1..] + [k];
    } else {
      assert [k][1..] == [] && links + [k] == [k];
    }
  }

  /** Linking changes no translation. */
  lemma {:induction false} LinksKeep(l: Layout, t: Table, links: seq<Link>, t': Table)
    requires Inv(l, t) && Links(l, t, links, t')
    ensures Inv(l, t') && SameEntries(l, t, t')
    decreases |links|
  {
    hide Inv, Install, EntryAt, DentValid, TableAddress;
    if links != [] {
      var t1 := Install(l, t, links[0].slot, links[0].base);
      InstallInv(l, t, links[0].slot, links[0].base);
      LinksKeep(l, t1, links[1..], t');
      forall pg | 0 <= pg < l.NumPages()
        ensures EntryAt(l, t', pg) == EntryAt(l, t, pg)
      {
        InstallEntry(l, t, links[0].slot, links[0].base, pg);
      }
    }
  }
}
