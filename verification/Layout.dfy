/**
 The two page-table layouts and the bit-packed directory and page entries
 (sunxi-iommu-pgtable.h and the macros at the top of sunxi-iommu-pgtable.c).
 */
module Layouts {
  import opened Bits

  /** A 32-bit table entry. */
  type Word = w: nat | w < 0x1_0000_0000

  const PAGE_SIZE: nat := 0x1000
  const NUM_ENTRIES_PDE: nat := 0x1000
  const PHYS_OFFSET: nat := 0x4000_0000
  const FOUR_GIB: nat := 0x1_0000_0000

  /** V1: 32-bit addresses, 1 MiB per directory slot. V2: 34-bit addresses, 4 MiB per slot. */
  datatype Layout = V1 | V2 {
    function VaSize(): nat {
      match this case V1 => 0x1_0000_0000 case V2 => 0x4_0000_0000
    }

    function SpdSize(): nat {
      match this case V1 => 0x10_0000 case V2 => 0x40_0000
    }

    function NumPte(): nat {
      match this case V1 => 0x100 case V2 => 0x400
    }

    /** Bytes in a second-level table, which is also its alignment. */
    function PtSize(): nat {
      match this case V1 => 0x400 case V2 => 0x1000
    }

    function NumPages(): nat {
      match this case V1 => 0x10_0000 case V2 => 0x40_0000
    }

    /** IOPDE_INDEX */
    function PdeIndex(iova: nat): nat {
      match this
      case V1 => Bits.And(Bits.Shr(iova, 20), 0xfff)
      case V2 => Bits.And(Bits.Shr(iova, 22), 0xfff)
    }

    /** IOPTE_INDEX */
    function PteIndex(iova: nat): nat {
      match this
      case V1 => Bits.And(Bits.Shr(iova, 12), 0xff)
      case V2 => Bits.And(Bits.Shr(iova, 12), 0x3ff)
    }

    /** Directory slot and index of a page number below NumPages. */
    function Slot(pg: nat): nat {
      match this case V1 => pg / 0x100 case V2 => pg / 0x400
    }

    function Index(pg: nat): (i: nat)
      ensures i < NumPte()
    {
      match this case V1 => pg % 0x100 case V2 => pg % 0x400
    }

    function PageAt(slot: nat, index: nat): nat {
      match this case V1 => slot * 0x100 + index case V2 => slot * 0x400 + index
    }
  }

  datatype Rights = Rights(read: bool, write: bool)

  /** What one page translates to: the CPU physical address of its frame and the access rights. */
  datatype Mapping = Mapping(phys: nat, rights: Rights)

  /** iommu_phy_to_cpu_phy */
  function ToCpu(l: Layout, iommuPhys: nat): nat {
    if iommuPhys < PHYS_OFFSET then iommuPhys + l.VaSize() else iommuPhys
  }

  /** cpu_phy_to_iommu_phy */
  function ToIommu(l: Layout, cpuPhys: nat): nat {
    if cpuPhys > l.VaSize() then cpuPhys - l.VaSize() else cpuPhys
  }

  /** The CPU physical addresses that the hardware can name. */
  predicate LegalPhys(l: Layout, cpuPhys: nat) {
    PHYS_OFFSET <= cpuPhys < l.VaSize() + PHYS_OFFSET
  }

  /**
   Memory starts at 1 GiB. The CPU address of an IOMMU address is the one number congruent to it, modulo the address
   space, in the window from there on; the IOMMU address of a CPU address in the window lies above 0.
   */
  lemma RelocationExact(l: Layout, iommuPhys: nat, cpuPhys: nat)
    requires iommuPhys < l.VaSize() && 0x4000_0000 <= cpuPhys < l.VaSize() + 0x4000_0000
    ensures 0x4000_0000 <= ToCpu(l, iommuPhys) < l.VaSize() + 0x4000_0000
    ensures (ToCpu(l, iommuPhys) - iommuPhys) % l.VaSize() == 0
    ensures 0 < ToIommu(l, cpuPhys) <= l.VaSize() && (cpuPhys - ToIommu(l, cpuPhys)) % l.VaSize() == 0
    ensures l.VaSize() == if l.V1? then 0x1_0000_0000 else 0x4_0000_0000
  {
  }

  // ----- page entries

  /** sunxi_mk_pte */
  function MkPte(l: Layout, page: nat, prot: Rights): Word {
    var flags := Or(if prot.read then 4 else 0, if prot.write then 8 else 0);
    var pg := AndNot(page, 0xfff);
    var high := if l.V1? then 0 else And(Shl(Shr(pg, 32), 8), 0x300);
    Or(Or(Or(pg, high), flags), 2) % FOUR_GIB
  }

  /** IOPTE_TO_PFN */
  function PtePfn(l: Layout, e: Word): nat {
    match l
    case V1 => AndNot(e, 0xfff)
    case V2 => Or(AndNot(e, 0xfff), Shl(Shr(And(e, 0x300), 8), 32))
  }

  /** The hardware's valid bit, which sunxi_pgtable_invalid_helper and the dump test. */
  predicate PteValid(e: Word) {
    And(e, 2) != 0
  }

  lemma ZeroNotValid(e: Word)
    requires PteValid(e)
    ensures e != 0
  {
  }

  function AccessMask(e: Word): nat {
    And(e, 12)
  }

  function MaskRights(mask: nat): Rights {
    Rights(And(mask, 4) != 0, And(mask, 8) != 0)
  }

  function DecodePte(l: Layout, e: Word): Mapping {
    Mapping(ToCpu(l, PtePfn(l, e)), MaskRights(AccessMask(e)))
  }

  // ----- directory entries

  /** The first store in sunxi_alloc_iopte. */
  function LowDent(l: Layout, pa: nat): Word {
    Or(ToIommu(l, pa), 1) % FOUR_GIB
  }

  /** The entry when sunxi_alloc_iopte returns: V2 has a second store, which adds the high address bits. */
  function MkDent(l: Layout, pa: nat): Word {
    match l
    case V1 => LowDent(l, pa)
    case V2 => Or(LowDent(l, pa), And(Shl(Shr(pa, 32), 8), 0x300)) % FOUR_GIB
  }

  /** IS_VALID */
  predicate DentValid(d: Word) {
    And(d, 3) == 1
  }

  /** The table base computed by iopte_offset, as a CPU physical address. */
  function DentBase(l: Layout, d: Word): nat {
    match l
    case V1 => ToCpu(l, AndNot(d, 0x3ff))
    case V2 => ToCpu(l, Or(AndNot(d, 0xfff), Shl(Shr(And(d, 0x300), 8), 32)))
  }

  // ----- arithmetic readings of the entries

  /** The two high address bits that V2 stores in bits 8 and 9. */
  function HighBits(l: Layout, x: nat): nat {
    if l.V1? then 0 else x / FOUR_GIB % 4
  }

  function FlagBits(prot: Rights): nat {
    (if prot.read then 4 else 0) + (if prot.write then 8 else 0)
  }

  lemma BothFlags()
    ensures Or(4, 8) == 12
  {
    hide Or;
    OrDouble(2, 4);
    OrDouble(1, 2);
    OneOrTwo();
  }

  lemma OneOrTwo()
    ensures Or(1, 2) == 3
  {
  }

  lemma FlagsValue(prot: Rights)
    ensures Or(if prot.read then 4 else 0, if prot.write then 8 else 0) == FlagBits(prot)
  {
    hide Or;
    Join8(0, 8);
    Join8(0, 4);
    Join8(0, 0);
    ZeroOperand(4);
    BothFlags();
  }

  lemma HighValue(x: nat)
    ensures And(Shl(Shr(x, 32), 8), 0x300) == x / FOUR_GIB % 4 * 0x100
  {
    hide And, Shl, Shr;
    Shift32(x);
    Shift8(x / FOUR_GIB);
    HighField(x / FOUR_GIB * 0x100);
    Split100(x / FOUR_GIB * 0x100, x / FOUR_GIB, 0);
  }

  lemma JoinFields(pg: nat, high: nat, flags: nat)
    requires pg % 0x1000 == 0 && high % 0x100 == 0 && high < 0x400 && flags % 4 == 0 && flags < 0x10
    ensures Or(Or(Or(pg, high), flags), 2) == pg + high + flags + 2
  {
    hide Or;
    var p, h, f := pg / 0x1000, high / 0x100, flags / 4;
    Join12(pg, high);
    Split100(pg + high, 0x10 * p + h, 0);
    Join8(pg + high, flags);
    Split4(pg + high + flags, 0x400 * p + 0x40 * h + f, 0);
    Join2(pg + high + flags, 2);
  }

  lemma LowBitsOfSum(pg: nat, low: nat)
    requires pg % 0x1000 == 0 && low < 0x1000
    ensures (pg + low) % FOUR_GIB == pg % FOUR_GIB + low
  {
    var p := pg / 0x1000;
    var q, r := p / 0x10_0000, p % 0x10_0000;
    Split4G(pg, q, 0x1000 * r);
    Split4G(pg + low, q, 0x1000 * r + low);
  }

  lemma Split4G(x: int, q: int, r: int)
    requires x == FOUR_GIB * q + r && 0 <= r < FOUR_GIB
    ensures x / FOUR_GIB == q && x % FOUR_GIB == r
  {
  }

  lemma RoundedHigh(page: nat)
    ensures (page - page % 0x1000) / FOUR_GIB == page / FOUR_GIB && (page - page % 0x1000) % 0x1000 == 0
  {
    var p := page / 0x1000;
    var q, r := p / 0x10_0000, p % 0x10_0000;
    Split4G(page, q, 0x1000 * r + page % 0x1000);
    Split4G(page - page % 0x1000, q, 0x1000 * r);
    Split1000(page - page % 0x1000, p, 0);
  }

  lemma MkPteValue(l: Layout, page: nat, prot: Rights)
    ensures MkPte(l, page, prot)
         == (page - page % PAGE_SIZE) % FOUR_GIB + HighBits(l, page) * 0x100 + FlagBits(prot) + 2
  {
    hide Or, And, AndNot, Shl, Shr;
    var pg := AndNot(page, 0xfff);
    Mask12(page);
    HighValue(pg);
    RoundedHigh(page);
    var high := HighBits(l, page) * 0x100;
    FlagsValue(prot);
    JoinFields(pg, high, FlagBits(prot));
    LowBitsOfSum(pg, high + FlagBits(prot) + 2);
  }

  lemma PtePfnValue(l: Layout, e: Word)
    ensures PtePfn(l, e) == e - e % PAGE_SIZE + (if l.V1? then 0 else e / 0x100 % 4 * FOUR_GIB)
  {
    hide And, AndNot, Or, Shl, Shr;
    Mask12(e);
    HighField(e);
    var h := e / 0x100 % 4;
    Shift8(h * 0x100);
    Shift32(h);
    Join32(h, e - e % 0x1000);
  }

  lemma RightsValue(e: Word)
    ensures AccessMask(e) == e / 4 % 4 * 4
    ensures MaskRights(AccessMask(e)) == Rights(e / 4 % 2 == 1, e / 8 % 2 == 1)
    ensures PteValid(e) <==> e / 2 % 2 == 1
  {
    hide And;
    ValidBit(e);
    AccessBits(e);
    ReadBit(AccessMask(e));
    WriteBit(AccessMask(e));
    AccessFields(e / 4);
    assert e / 4 / 2 == e / 8;
  }

  lemma AccessFields(j: nat)
    ensures j % 4 * 4 / 4 % 2 == j % 2 && j % 4 * 4 / 8 % 2 == j / 2 % 2
  {
    var q, r := j / 4, j % 4;
    assert j / 2 == 2 * q + r / 2 && j % 2 == r % 2;
    assert r == 0 || r == 1 || r == 2 || r == 3;
  }

  /** Quotients and remainders read off a decomposition. */
  lemma Split4(x: int, q: int, r: int)
    requires x == 4 * q + r && 0 <= r < 4
    ensures x / 4 == q && x % 4 == r
  {
  }

  lemma Split100(x: int, q: int, r: int)
    requires x == 0x100 * q + r && 0 <= r < 0x100
    ensures x / 0x100 == q && x % 0x100 == r
  {
  }

  lemma Split400(x: int, q: int, r: int)
    requires x == 0x400 * q + r && 0 <= r < 0x400
    ensures x / 0x400 == q && x % 0x400 == r
  {
  }

  lemma Split1000(x: int, q: int, r: int)
    requires x == 0x1000 * q + r && 0 <= r < 0x1000
    ensures x / 0x1000 == q && x % 0x1000 == r
  {
  }

  /** A word put together from an aligned address part and its control bits. */
  lemma PackedWord(k: nat, high: nat, prot: Rights)
    requires 0x1000 * k < FOUR_GIB && high < 4
    ensures var e := 0x1000 * k + high * 0x100 + FlagBits(prot) + 2;
      e < FOUR_GIB && e - e % 0x1000 == 0x1000 * k && e / 0x100 % 4 == high && e / 2 % 2 == 1 &&
      Rights(e / 4 % 2 == 1, e / 8 % 2 == 1) == prot
  {
    var f := FlagBits(prot);
    var e := 0x1000 * k + high * 0x100 + f + 2;
    Split1000(e, k, high * 0x100 + f + 2);
    Split100(e, 0x10 * k + high, f + 2);
    Split4(0x10 * k + high, 4 * k, high);
    LowFields(0x100 * k + high * 0x10, prot);
  }

  lemma LowFields(k: nat, prot: Rights)
    ensures var e := 0x10 * k + FlagBits(prot) + 2;
      e / 2 % 2 == 1 && Rights(e / 4 % 2 == 1, e / 8 % 2 == 1) == prot
  {
    var e := 0x10 * k + FlagBits(prot) + 2;
    match prot
    case Rights(false, false) => assert e / 2 == 8 * k + 1 && e / 4 == 4 * k && e / 8 == 2 * k;
    case Rights(true, false) => assert e / 2 == 8 * k + 3 && e / 4 == 4 * k + 1 && e / 8 == 2 * k;
    case Rights(false, true) => assert e / 2 == 8 * k + 5 && e / 4 == 4 * k + 2 && e / 8 == 2 * k + 1;
    case Rights(true, true) => assert e / 2 == 8 * k + 7 && e / 4 == 4 * k + 3 && e / 8 == 2 * k + 1;
  }

  lemma AlignedLow(x: nat)
    requires x % 0x1000 == 0
    ensures x % FOUR_GIB == 0x1000 * (x / 0x1000 % 0x10_0000)
    ensures x % Layout.V2.VaSize() == x % FOUR_GIB + x / FOUR_GIB % 4 * FOUR_GIB
  {
    var p := x / 0x1000;
    var q, r := p / 0x10_0000, p % 0x10_0000;
    Split4G(x, q, 0x1000 * r);
    Split16G(x, q / 4, q % 4 * FOUR_GIB + 0x1000 * r);
  }

  lemma Split16G(x: int, q: int, r: int)
    requires x == 0x4_0000_0000 * q + r && 0 <= r < 0x4_0000_0000
    ensures x % 0x4_0000_0000 == r
  {
  }

  /** Encoding then decoding an aligned address gives it back modulo the address space, with its rights. */
  lemma DecodeMkPte(l: Layout, x: nat, prot: Rights)
    requires x % PAGE_SIZE == 0
    ensures var e := MkPte(l, x, prot);
      PteValid(e) && e != 0 && DecodePte(l, e) == Mapping(ToCpu(l, x % l.VaSize()), prot)
  {
    hide MkPte, PtePfn, And;
    var e := MkPte(l, x, prot);
    MkPteValue(l, x, prot);
    var k := x / 0x1000 % 0x10_0000;
    AlignedLow(x);
    PackedWord(k, HighBits(l, x), prot);
    PtePfnValue(l, e);
    RightsValue(e);
  }

  /** Page entries: every aligned legal CPU physical address survives relocation, packing and unpacking. */
  lemma PteRoundTrip(l: Layout, cpuPhys: nat, prot: Rights)
    requires LegalPhys(l, cpuPhys) && cpuPhys % PAGE_SIZE == 0
    ensures DecodePte(l, MkPte(l, ToIommu(l, cpuPhys), prot)) == Mapping(cpuPhys, prot)
  {
    hide MkPte, DecodePte;
    DecodeMkPte(l, ToIommu(l, cpuPhys), prot);
  }

  lemma MkDentValue(l: Layout, pa: nat)
    requires LegalPhys(l, pa) && pa % l.PtSize() == 0
    ensures MkDent(l, pa) == ToIommu(l, pa) % FOUR_GIB + HighBits(l, pa) * 0x100 + 1
    ensures ToIommu(l, pa) % FOUR_GIB % l.PtSize() == 0
  {
    hide And, AndNot, Or, Shl, Shr;
    var a := ToIommu(l, pa);
    AlignedTable(l, pa);
    Join2(a, 1);
    if l.V2? {
      HighValue(pa);
      OrFieldBelow(a % FOUR_GIB, HighBits(l, pa) * 0x100);
    }
  }

  lemma AlignedTable(l: Layout, pa: nat)
    requires pa % l.PtSize() == 0
    ensures var a := ToIommu(l, pa);
      a % 4 == 0 && a % FOUR_GIB % l.PtSize() == 0 && (a + 1) % FOUR_GIB == a % FOUR_GIB + 1
  {
    match l
    case V1 => Multiple400(pa / 0x400 - (if pa > l.VaSize() then 0x40_0000 else 0));
    case V2 => Multiple1000(pa / 0x1000 - (if pa > l.VaSize() then 0x40_0000 else 0));
  }

  lemma Multiple400(k: nat)
    ensures var a := 0x400 * k; a % 4 == 0 && a % FOUR_GIB % 0x400 == 0 && (a + 1) % FOUR_GIB == a % FOUR_GIB + 1
  {
    var q, r := k / 0x40_0000, k % 0x40_0000;
    Split4(0x400 * k, 0x100 * k, 0);
    Split4G(0x400 * k, q, 0x400 * r);
    Split4G(0x400 * k + 1, q, 0x400 * r + 1);
    Split400(0x400 * r, r, 0);
  }

  lemma Multiple1000(k: nat)
    ensures var a := 0x1000 * k; a % 4 == 0 && a % FOUR_GIB % 0x1000 == 0 && (a + 1) % FOUR_GIB == a % FOUR_GIB + 1
  {
    var q, r := k / 0x10_0000, k % 0x10_0000;
    Split4(0x1000 * k, 0x400 * k, 0);
    Split4G(0x1000 * k, q, 0x1000 * r);
    Split4G(0x1000 * k + 1, q, 0x1000 * r + 1);
    Split1000(0x1000 * r, r, 0);
  }

  /** `(low | 1) | high` with the high field above bit 0 and below the address. */
  lemma OrFieldBelow(low: nat, high: nat)
    requires low % 0x1000 == 0 && high % 0x100 == 0 && high < 0x1000
    ensures Or(low + 1, high) == low + high + 1
  {
    hide Or;
    Join12(low, high);
    assert low == 2 * (low / 2) && high == 2 * (high / 2);
    OrDouble(low / 2, high / 2);
  }

  lemma DentBaseValue(l: Layout, d: Word)
    ensures DentBase(l, d) == ToCpu(l, d - d % l.PtSize() + (if l.V1? then 0 else d / 0x100 % 4 * FOUR_GIB))
  {
    hide And, AndNot, Or, Shl, Shr;
    Mask10(d);
    Mask12(d);
    HighField(d);
    var h := d / 0x100 % 4;
    Shift8(h * 0x100);
    Shift32(h);
    Join32(h, d - d % 0x1000);
  }

  /** Directory entries: every aligned table address comes back, even at exactly VaSize. */
  lemma DentRoundTrip(l: Layout, pa: nat)
    requires LegalPhys(l, pa) && pa % l.PtSize() == 0
    ensures DentValid(MkDent(l, pa)) && DentBase(l, MkDent(l, pa)) == pa
  {
    hide And, AndNot, Or, Shl, Shr, MkDent;
    var d := MkDent(l, pa);
    MkDentValue(l, pa);
    DentBaseValue(l, d);
    Mask2(d);
    var low := ToIommu(l, pa) % FOUR_GIB;
    match l
    case V1 => DentFields(low / 0x400, 0);
    case V2 => DentFields(low / 0x1000, HighBits(l, pa));
    Relocated(l, pa);
  }

  /** After the first store the entry is valid, and it names the table if and only if no high address bit is set. */
  lemma LowDentExact(l: Layout, pa: nat)
    requires LegalPhys(l, pa) && pa % l.PtSize() == 0
    ensures DentValid(LowDent(l, pa))
    ensures DentBase(l, LowDent(l, pa)) == pa <==> HighBits(l, pa) == 0
    ensures LowDent(l, pa) == MkDent(l, pa) <==> HighBits(l, pa) == 0
  {
    hide And, AndNot, Or, Shl, Shr, MkDent;
    var low := ToIommu(l, pa) % FOUR_GIB;
    AlignedTable(l, pa);
    Join2(ToIommu(l, pa), 1);
    MkDentValue(l, pa);
    DentBaseValue(l, LowDent(l, pa));
    Mask2(LowDent(l, pa));
    match l
    case V1 => DentFields(low / 0x400, 0);
    case V2 => DentFields(low / 0x1000, 0);
    Relocated(l, pa);
  }

  /** The low word and the split high bits name the relocated address. */
  lemma Relocated(l: Layout, pa: nat)
    requires LegalPhys(l, pa)
    ensures ToCpu(l, ToIommu(l, pa) % FOUR_GIB + HighBits(l, pa) * FOUR_GIB) == pa
  {
  }

  lemma DentFields(k: nat, high: nat)
    requires high < 4
    ensures var d := 0x400 * k + 1; d % 4 == 1 && d - d % 0x400 == 0x400 * k
    ensures var d := 0x1000 * k + high * 0x100 + 1;
      d % 4 == 1 && d - d % 0x1000 == 0x1000 * k && d / 0x100 % 4 == high
  {
    Split4(0x400 * k + 1, 0x100 * k, 1);
    Split400(0x400 * k + 1, k, 1);
    var d := 0x1000 * k + high * 0x100 + 1;
    Split4(d, 0x400 * k + high * 0x40, 1);
    Split1000(d, k, high * 0x100 + 1);
    Split100(d, 0x10 * k + high, 1);
    Split4(0x10 * k + high, 4 * k, high);
  }

  // ----- filling a run of entries by adding to the first word

  /** The word that the fill loop stores i pages after a chunk's first page x. */
  function FillWord(l: Layout, x: nat, prot: Rights, i: nat): Word {
    (MkPte(l, x, prot) + PAGE_SIZE * i) % FOUR_GIB
  }

  /** The 32-bit addition stays in the address part; it never carries into the two high bits. */
  lemma FillWordValue(l: Layout, x: nat, prot: Rights, i: nat)
    requires x % PAGE_SIZE == 0
    ensures FillWord(l, x, prot, i)
         == (x + PAGE_SIZE * i) % FOUR_GIB + HighBits(l, x) * 0x100 + FlagBits(prot) + 2
  {
    hide MkPte;
    MkPteValue(l, x, prot);
    WrappedSum(x / 0x1000, i, HighBits(l, x) * 0x100 + FlagBits(prot) + 2);
  }

  lemma WrappedSum(k: nat, i: nat, low: nat)
    requires low < 0x1000
    ensures (0x1000 * k % FOUR_GIB + low + 0x1000 * i) % FOUR_GIB == 0x1000 * (k + i) % FOUR_GIB + low
  {
    var q := k / 0x10_0000;
    assert 0x1000 * k % FOUR_GIB == 0x1000 * k - q * FOUR_GIB;
    LowBitsOfSum(0x1000 * (k + i - q * 0x10_0000), low);
    SameModulo(0x1000 * (k + i - q * 0x10_0000), q);
  }

  lemma SameModulo(x: int, q: int)
    ensures (x + q * FOUR_GIB) % FOUR_GIB == x % FOUR_GIB
  {
  }

  /** Whether the pages from x to x + 4096 i have the same two high address bits. */
  predicate SameHigh(l: Layout, x: nat, i: nat) {
    l.V1? || x / FOUR_GIB == (x + PAGE_SIZE * i) / FOUR_GIB
  }

  /** Adding to one encoded entry is encoding each page, exactly when V2 stays below the next 4 GiB multiple. */
  lemma FillIsEncoding(l: Layout, x: nat, prot: Rights, i: nat)
    requires x % PAGE_SIZE == 0 && i < l.NumPte()
    ensures FillWord(l, x, prot, i) == MkPte(l, x + PAGE_SIZE * i, prot) <==> SameHigh(l, x, i)
  {
    hide MkPte, FillWord;
    FillWordValue(l, x, prot, i);
    MkPteValue(l, x + PAGE_SIZE * i, prot);
    Split1000(x + PAGE_SIZE * i, x / 0x1000 + i, 0);
    NextHigh(x, i);
  }

  lemma NextHigh(x: nat, i: nat)
    requires i < 0x400
    ensures var q, q' := x / FOUR_GIB, (x + PAGE_SIZE * i) / FOUR_GIB;
      (q' == q || q' == q + 1) && (q' % 4 == q % 4 <==> q' == q)
  {
  }

  /** The same statement for what the hardware sees: the stored entry names the intended frame or another one. */
  lemma FillDecodes(l: Layout, x: nat, prot: Rights, i: nat)
    requires x % PAGE_SIZE == 0 && i < l.NumPte()
    ensures var e := FillWord(l, x, prot, i);
      PteValid(e) && e != 0 &&
      (DecodePte(l, e) == Mapping(ToCpu(l, (x + PAGE_SIZE * i) % l.VaSize()), prot) <==> SameHigh(l, x, i))
  {
    hide MkPte, FillWord, And, PtePfn;
    var e := FillWord(l, x, prot, i);
    var y := x + PAGE_SIZE * i;
    FillWordValue(l, x, prot, i);
    Split1000(y, x / 0x1000 + i, 0);
    AlignedLow(y);
    PackedWord(y / 0x1000 % 0x10_0000, HighBits(l, x), prot);
    PtePfnValue(l, e);
    RightsValue(e);
    NextHigh(x, i);
  }

  // ----- indices

  lemma IndexValues(l: Layout, iova: nat)
    ensures l.PdeIndex(iova) == l.Slot(iova / PAGE_SIZE) % NUM_ENTRIES_PDE
    ensures l.PteIndex(iova) == l.Index(iova / PAGE_SIZE)
  {
    hide And, Shr;
    Shift12(iova);
    match l
    case V1 =>
      Shift20(iova);
      Mask12(iova / 0x10_0000);
      Mask8(iova / 0x1000);
      NestedQuotient(iova);
    case V2 =>
      Shift22(iova);
      Mask12(iova / 0x40_0000);
      Mask10(iova / 0x1000);
      NestedQuotient(iova);
  }

  lemma NestedQuotient(a: nat)
    ensures a / 0x1000 / 0x100 == a / 0x10_0000
    ensures a / 0x1000 / 0x400 == a / 0x40_0000
  {
  }

  lemma PageSplit(l: Layout, pg: nat)
    ensures l.PageAt(l.Slot(pg), l.Index(pg)) == pg && l.Index(pg) < l.NumPte()
    ensures l.Slot(pg) < NUM_ENTRIES_PDE <==> pg < l.NumPages()
  {
  }

  lemma PageJoin(l: Layout, slot: nat, index: nat)
    requires index < l.NumPte()
    ensures l.Slot(l.PageAt(slot, index)) == slot && l.Index(l.PageAt(slot, index)) == index
  {
  }
}
