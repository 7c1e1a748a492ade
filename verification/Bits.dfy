/**
 The bitwise operators of C on unsigned values, defined on naturals of any width, and the
 facts that turn the masks and shifts of the page-table code into arithmetic.
 */
module Bits {

  /** `x & y` */
  function And(x: nat, y: nat): nat
    decreases x
  {
    if x == 0 then 0 else 2 * And(x / 2, y / 2) + (if x % 2 == 1 && y % 2 == 1 then 1 else 0)
  }

  /** `x & ~y`, in any word wide enough for x */
  function AndNot(x: nat, y: nat): nat
    decreases x
  {
    if x == 0 then 0 else 2 * AndNot(x / 2, y / 2) + (if x % 2 == 1 && y % 2 == 0 then 1 else 0)
  }

  /** `x | y` */
  function Or(x: nat, y: nat): nat
    decreases x
  {
    if x == 0 then y else 2 * Or(x / 2, y / 2) + (if x % 2 == 1 || y % 2 == 1 then 1 else 0)
  }

  /** `x << k`, before truncation to a width */
  function Shl(x: nat, k: nat): nat
  {
    if k == 0 then x else 2 * Shl(x, k - 1)
  }

  /** `x >> k` */
  function Shr(x: nat, k: nat): nat
  {
    if k == 0 then x else Shr(x / 2, k - 1)
  }

  /** `(1 << k) - 1` */
  function Ones(k: nat): nat
  {
    if k == 0 then 0 else 2 * Ones(k - 1) + 1
  }

  lemma ZeroOperand(x: nat)
    ensures And(x, 0) == 0 && AndNot(x, 0) == x && Or(x, 0) == x
  {
  }

  lemma OrDouble(x: nat, y: nat)
    ensures Or(2 * x, 2 * y) == 2 * Or(x, y) && Or(2 * x + 1, 2 * y) == 2 * Or(x, y) + 1
  {
  }

  /** Clearing the low k bits keeps the rest in place, and masking with them gives what was cleared. */
  lemma {:induction false} LowMask(x: nat, k: nat)
    ensures AndNot(x, Ones(k)) == Shl(Shr(x, k), k)
    ensures And(x, Ones(k)) == x - Shl(Shr(x, k), k)
    decreases k
  {
    if k == 0 {
      ZeroOperand(x);
    } else if x == 0 {
      LowMask(0, k - 1);
    } else {
      LowMask(x / 2, k - 1);
    }
  }

  /** Masking a field of bits that starts at bit k. */
  lemma {:induction false} FieldMask(x: nat, m: nat, k: nat)
    ensures And(x, Shl(m, k)) == Shl(And(Shr(x, k), m), k)
    decreases k
  {
    if k == 0 {
    } else if x == 0 {
      FieldMask(0, m, k - 1);
    } else {
      FieldMask(x / 2, m, k - 1);
    }
  }

  /** Joining a value shifted up by k with a value below bit k is addition. */
  lemma {:induction false} OrDisjoint(hi: nat, lo: nat, k: nat)
    requires lo <= Ones(k)
    ensures Or(Shl(hi, k), lo) == Shl(hi, k) + lo
    decreases k
  {
    if k == 0 {
      ZeroOperand(hi);
    } else {
      OrDisjoint(hi, lo / 2, k - 1);
    }
  }

  lemma {:induction false} ShiftAdd(x: nat, j: nat, k: nat)
    ensures Shr(x, j + k) == Shr(Shr(x, j), k)
    ensures Shl(x, j + k) == Shl(Shl(x, j), k)
    decreases j + k
  {
    if j > 0 {
      ShiftAdd(x / 2, j - 1, k);
    }
    if k > 0 {
      ShiftAdd(x, j, k - 1);
    }
  }

  /** The shift distances of the page-table layouts, as divisions and multiplications. */
  lemma Shift2(x: nat)
    ensures Shr(x, 2) == x / 4 && Shl(x, 2) == x * 4
  {
    assert Shr(x, 2) == Shr(x / 2, 1) == Shr(x / 2 / 2, 0);
    assert Shl(x, 2) == 2 * Shl(x, 1) && Shl(x, 1) == 2 * Shl(x, 0);
  }

  lemma Shift4(x: nat)
    ensures Shr(x, 4) == x / 0x10 && Shl(x, 4) == x * 0x10
  {
    ShiftAdd(x, 2, 2);
    Shift2(x);
    Shift2(x / 4);
    Shift2(x * 4);
  }

  lemma Shift8(x: nat)
    ensures Shr(x, 8) == x / 0x100 && Shl(x, 8) == x * 0x100
  {
    ShiftAdd(x, 4, 4);
    Shift4(x);
    Shift4(x / 0x10);
    Shift4(x * 0x10);
  }

  lemma Shift10(x: nat)
    ensures Shr(x, 10) == x / 0x400 && Shl(x, 10) == x * 0x400
  {
    ShiftAdd(x, 8, 2);
    Shift8(x);
    Shift2(x / 0x100);
    Shift2(x * 0x100);
  }

  lemma Shift12(x: nat)
    ensures Shr(x, 12) == x / 0x1000 && Shl(x, 12) == x * 0x1000
  {
    ShiftAdd(x, 8, 4);
    Shift8(x);
    Shift4(x / 0x100);
    Shift4(x * 0x100);
  }

  lemma Shift20(x: nat)
    ensures Shr(x, 20) == x / 0x10_0000 && Shl(x, 20) == x * 0x10_0000
  {
    hide Shl, Shr;
    ShiftAdd(x, 12, 8);
    Shift12(x);
    Shift8(x / 0x1000);
    Shift8(x * 0x1000);
  }

  lemma Shift22(x: nat)
    ensures Shr(x, 22) == x / 0x40_0000
  {
    ShiftAdd(x, 12, 10);
    Shift12(x);
    Shift10(x / 0x1000);
  }

  lemma Shift32(x: nat)
    ensures Shr(x, 32) == x / 0x1_0000_0000 && Shl(x, 32) == x * 0x1_0000_0000
  {
    hide Shl, Shr;
    ShiftAdd(x, 20, 12);
    Shift20(x);
    Shift12(x / 0x10_0000);
    Shift12(x * 0x10_0000);
  }

  lemma AndOne(x: nat)
    ensures And(x, 1) == x % 2
  {
    ZeroOperand(x / 2);
  }

  lemma Shift1(x: nat)
    ensures Shr(x, 1) == x / 2 && Shl(x, 1) == x * 2
  {
    assert Shr(x, 1) == Shr(x / 2, 0);
    assert Shl(x, 1) == 2 * Shl(x, 0);
  }

  lemma Shift3(x: nat)
    ensures Shr(x, 3) == x / 8 && Shl(x, 3) == x * 8
  {
    Shift2(x / 2);
    Shift2(x);
  }

  /** The control bits: valid (bit 1), readable (bit 2), writable (bit 3). */
  lemma ValidBit(x: nat)
    ensures And(x, 2) == x / 2 % 2 * 2
  {
    FieldMask(x, 1, 1);
    Shift1(1);
    Shift1(x);
    AndOne(x / 2);
    Shift1(And(x / 2, 1));
  }

  lemma ReadBit(x: nat)
    ensures And(x, 4) == x / 4 % 2 * 4
  {
    FieldMask(x, 1, 2);
    Shift2(1);
    Shift2(x);
    AndOne(x / 4);
    Shift2(And(x / 4, 1));
  }

  lemma WriteBit(x: nat)
    ensures And(x, 8) == x / 8 % 2 * 8
  {
    FieldMask(x, 1, 3);
    Shift3(1);
    Shift3(x);
    AndOne(x / 8);
    Shift3(And(x / 8, 1));
  }

  lemma AccessBits(x: nat)
    ensures And(x, 12) == x / 4 % 4 * 4
  {
    FieldMask(x, 3, 2);
    Shift2(3);
    Shift2(x);
    Mask2(x / 4);
    Shift2(And(x / 4, 3));
  }

  // ----- masks and joins at the positions the layouts use

  lemma Mask2(x: nat)
    ensures And(x, 3) == x % 4
  {
    hide And, AndNot, Or, Shl, Shr;
    LowMask(x, 2);
    Shift2(x);
    Shift2(x / 4);
    OnesValues();
  }

  lemma Mask8(x: nat)
    ensures And(x, 0xff) == x % 0x100
  {
    hide And, AndNot, Or, Shl, Shr;
    LowMask(x, 8);
    Shift8(x);
    Shift8(x / 0x100);
    OnesValues();
  }

  lemma Mask10(x: nat)
    ensures And(x, 0x3ff) == x % 0x400 && AndNot(x, 0x3ff) == x - x % 0x400
  {
    hide And, AndNot, Or, Shl, Shr;
    LowMask(x, 10);
    Shift10(x);
    Shift10(x / 0x400);
    OnesValues();
  }

  lemma Mask12(x: nat)
    ensures And(x, 0xfff) == x % 0x1000 && AndNot(x, 0xfff) == x - x % 0x1000
  {
    hide And, AndNot, Or, Shl, Shr;
    LowMask(x, 12);
    Shift12(x);
    Shift12(x / 0x1000);
    OnesValues();
  }

  /** The two-bit field at bit 8 that holds address bits 32 and 33. */
  lemma HighField(x: nat)
    ensures And(x, 0x300) == x / 0x100 % 4 * 0x100
  {
    hide And, AndNot, Or, Shl, Shr;
    FieldMask(x, 3, 8);
    Shift8(3);
    Shift8(x);
    Mask2(x / 0x100);
    Shift8(And(x / 0x100, 3));
  }

  lemma Join2(x: nat, lo: nat)
    requires x % 4 == 0 && lo < 4
    ensures Or(x, lo) == x + lo
  {
    hide And, AndNot, Or, Shl, Shr;
    OnesValues();
    Shift2(x / 4);
    OrDisjoint(x / 4, lo, 2);
  }

  lemma Join8(x: nat, lo: nat)
    requires x % 0x100 == 0 && lo < 0x100
    ensures Or(x, lo) == x + lo
  {
    hide And, AndNot, Or, Shl, Shr;
    OnesValues();
    Shift8(x / 0x100);
    OrDisjoint(x / 0x100, lo, 8);
  }

  lemma Join12(x: nat, lo: nat)
    requires x % 0x1000 == 0 && lo < 0x1000
    ensures Or(x, lo) == x + lo
  {
    hide And, AndNot, Or, Shl, Shr;
    OnesValues();
    Shift12(x / 0x1000);
    OrDisjoint(x / 0x1000, lo, 12);
  }

  lemma Join32(x: nat, lo: nat)
    requires lo < 0x1_0000_0000
    ensures Or(lo, x * 0x1_0000_0000) == lo + x * 0x1_0000_0000
  {
    OrCommutes(lo, x * 0x1_0000_0000);
    Shift32(x);
    Shift32(1);
    OnesShl(32);
    OrDisjoint(x, lo, 32);
  }

  lemma {:induction false} OnesShl(k: nat)
    ensures Ones(k) + 1 == Shl(1, k)
  {
    if k > 0 {
      OnesShl(k - 1);
    }
  }

  lemma {:induction false} OrCommutes(x: nat, y: nat)
    ensures Or(x, y) == Or(y, x)
    decreases x + y
  {
    if x == 0 || y == 0 {
      ZeroOperand(x);
      ZeroOperand(y);
    } else {
      OrCommutes(x / 2, y / 2);
    }
  }

  lemma OnesValues()
    ensures Ones(1) == 1 && Ones(2) == 3 && Ones(8) == 0xff && Ones(10) == 0x3ff && Ones(12) == 0xfff
  {
    assert Ones(6) == 0x3f;
  }
}
