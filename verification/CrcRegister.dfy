/** The 16-bit CRC register, and what one shift does to its bits. */
module CrcRegister {
  import opened Gf2

  /** One pass of the inner loop. */
  function Shift(crc: bv16): bv16 {
    if crc & 0x8000 != 0 then (crc << 1) ^ 0x1021 else crc << 1
  }

  function Mask(i: nat): bv16
    requires i < 16
  {
    if i == 0 then 1 else Mask(i - 1) << 1
  }

  predicate Bit(r: bv16, i: nat)
    requires i < 16
  {
    r & Mask(i) != 0
  }

  /** The register read as a polynomial: bit i is the coefficient of x^i. */
  function Reg(r: bv16): (p: Poly)
    ensures forall i :: i in p <==> i < 16 && Bit(r, i)
  {
    set i: nat | i < 16 && Bit(r, i)
  }

  /** The exponents below 16 of the generator. */
  predicate Tap(i: nat) {
    i == 0 || i == 5 || i == 12
  }

  lemma MaskValues()
    ensures Mask(0) == 0x0001 && Mask(1) == 0x0002 && Mask(2) == 0x0004 && Mask(3) == 0x0008
    ensures Mask(4) == 0x0010 && Mask(5) == 0x0020 && Mask(6) == 0x0040 && Mask(7) == 0x0080
    ensures Mask(8) == 0x0100 && Mask(9) == 0x0200 && Mask(10) == 0x0400 && Mask(11) == 0x0800
    ensures Mask(12) == 0x1000 && Mask(13) == 0x2000 && Mask(14) == 0x4000 && Mask(15) == 0x8000
  {
    assert Mask(2) == 0x0004;
    assert Mask(4) == 0x0010;
    assert Mask(6) == 0x0040;
    assert Mask(8) == 0x0100;
    assert Mask(10) == 0x0400;
    assert Mask(12) == 0x1000;
    assert Mask(14) == 0x4000;
  }

  lemma MaskHasOneBit(i: nat)
    requires i < 16
    ensures Mask(i) & (Mask(i) - 1) == 0
    ensures i < 15 ==> Mask(i) & 0x8000 == 0
    ensures (0x1021 & Mask(i) != 0) == Tap(i)
  {
    MaskValues();
  }

  lemma MaskAdds(r: bv16, s: bv16, m: bv16)
    requires m & (m - 1) == 0
    ensures ((r ^ s) & m != 0) == ((r & m != 0) != (s & m != 0))
  {
  }

  lemma BitAdds(r: bv16, s: bv16, d: bv16, i: nat)
    requires d == r ^ s && i < 16
    ensures Bit(d, i) == (Bit(r, i) != Bit(s, i))
  {
    MaskHasOneBit(i);
    MaskAdds(r, s, Mask(i));
  }

  lemma RegAdds(r: bv16, s: bv16)
    ensures Reg(r ^ s) == Add(Reg(r), Reg(s))
  {
    var d := r ^ s;
    forall i: nat ensures i in Reg(d) <==> i in Add(Reg(r), Reg(s)) {
      if i < 16 {
        BitAdds(r, s, d, i);
      }
    }
  }

  lemma NoBitsIsZero(d: bv16)
    requires forall i: nat :: i < 16 ==> !Bit(d, i)
    ensures d == 0
  {
    MaskValues();
    assert !Bit(d, 0) && !Bit(d, 1) && !Bit(d, 2) && !Bit(d, 3) && !Bit(d, 4) && !Bit(d, 5) && !Bit(d, 6) && !Bit(d, 7);
    assert !Bit(d, 8) && !Bit(d, 9) && !Bit(d, 10) && !Bit(d, 11) && !Bit(d, 12) && !Bit(d, 13) && !Bit(d, 14) && !Bit(d, 15);
  }

  lemma XorIsZero(r: bv16, s: bv16)
    requires r ^ s == 0
    ensures r == s
  {
  }

  lemma RegIsInjective(r: bv16, s: bv16)
    requires Reg(r) == Reg(s)
    ensures r == s
  {
    RegAdds(r, s);
    var d := r ^ s;
    assert Reg(d) == {};
    assert forall i: nat :: i < 16 ==> (Bit(d, i) <==> i in Reg(d));
    NoBitsIsZero(d);
    XorIsZero(r, s);
  }

  lemma LowBitOfShift(r: bv16)
    ensures (Shift(r) & 1 != 0) == (r & 0x8000 != 0)
  {
  }

  lemma MaskMoves(r: bv16, m: bv16)
    requires m & 0x8000 == 0
    ensures ((r << 1) & (m << 1) != 0) == (r & m != 0)
  {
  }

  lemma BitMoves(r: bv16, up: bv16, i: nat)
    requires up == r << 1 && 0 < i < 16
    ensures Bit(up, i) == Bit(r, i - 1)
  {
    MaskHasOneBit(i - 1);
    MaskMoves(r, Mask(i - 1));
  }

  lemma BitOfTaps(taps: bv16, i: nat)
    requires taps == 0x1021 && i < 16
    ensures Bit(taps, i) == Tap(i)
  {
    MaskHasOneBit(i);
  }

  /** Bit i of the shifted register: the bit below, and the generator's terms when a one falls out. */
  lemma BitOfShift(r: bv16, i: nat)
    requires 0 < i < 16
    ensures Bit(Shift(r), i) == (Bit(r, i - 1) != (r & 0x8000 != 0 && Tap(i)))
  {
    var up, taps := r << 1, 0x1021;
    BitMoves(r, up, i);
    if r & 0x8000 != 0 {
      BitOfTaps(taps, i);
      BitAdds(up, taps, Shift(r), i);
    }
  }

  lemma BitByMask(r: bv16, i: nat, m: bv16)
    requires i < 16 && m == Mask(i)
    ensures Bit(r, i) == (r & m != 0)
  {
  }

  lemma TopBit(r: bv16)
    ensures Bit(r, 15) == (r & 0x8000 != 0)
  {
    MaskValues();
  }

  /** A shift multiplies by x modulo the generator. */
  lemma ShiftMultiplies(r: bv16)
    ensures Congruent(Reg(Shift(r)), Shl(Reg(r), 1))
  {
    var q: Poly := if r & 0x8000 != 0 then {0} else {};
    TopBit(r);
    LowBitOfShift(r);
    forall i: nat ensures i in Add(Reg(Shift(r)), Shl(Reg(r), 1)) <==> i in TimesGenerator(q) {
      if 0 < i < 16 {
        BitOfShift(r, i);
      }
    }
    assert Add(Reg(Shift(r)), Shl(Reg(r), 1)) == TimesGenerator(q);
  }

  function ShiftN(crc: bv16, n: nat): bv16 {
    if n == 0 then crc else Shift(ShiftN(crc, n - 1))
  }

  lemma {:induction false} ShiftNMultiplies(r: bv16, n: nat)
    ensures Congruent(Reg(ShiftN(r, n)), Shl(Reg(r), n))
  {
    if n == 0 {
      assert Shl(Reg(r), 0) == Reg(r);
      CongruentRefl(Reg(r));
    } else {
      var before := ShiftN(r, n - 1);
      ShiftNMultiplies(r, n - 1);
      ShiftMultiplies(before);
      CongruentOneMore(Reg(Shift(before)), Reg(before), Reg(r), n);
    }
  }

  function Widen(b: bv8): bv16 {
    b as bv16
  }

  lemma ByteUnderMask(b: bv8, m: bv16)
    requires m & 0xFF00 == 0
    ensures ((Widen(b) << 8) & (m << 8) != 0) == (Widen(b) & m != 0)
  {
  }

  lemma ByteMissesMask(b: bv8, m: bv16)
    requires m & 0xFF00 == 0
    ensures (Widen(b) << 8) & m == 0
    ensures Widen(b) & (m << 8) == 0
  {
  }

  lemma MaskUpByEight(i: nat)
    requires i < 8
    ensures Mask(i) & 0xFF00 == 0 && Mask(i + 8) == Mask(i) << 8
  {
    MaskValues();
  }

  /** A byte moved to the top of the register is multiplied by x^8. */
  lemma HighByte(b: bv8)
    ensures Reg(Widen(b) << 8) == Shl(Reg(Widen(b)), 8)
  {
    var high := Widen(b) << 8;
    forall i: nat | i < 8 ensures !Bit(high, i) && Bit(high, i + 8) == Bit(Widen(b), i) {
      LowBitOfHighByte(b, i);
      HighBitOfHighByte(b, i);
    }
    forall i: nat | i < 16 ensures i >= 8 ==> !Bit(Widen(b), i) {
      ByteIsShort(b, i);
    }
    forall i: nat ensures i in Reg(high) <==> i in Shl(Reg(Widen(b)), 8) {
      if 8 <= i < 16 {
        assert Bit(high, i - 8 + 8) == Bit(Widen(b), i - 8);
      }
    }
  }

  lemma LowBitOfHighByte(b: bv8, i: nat)
    requires i < 8
    ensures !Bit(Widen(b) << 8, i)
  {
    MaskUpByEight(i);
    ByteMissesMask(b, Mask(i));
  }

  lemma HighBitOfHighByte(b: bv8, i: nat)
    requires i < 8
    ensures Bit(Widen(b) << 8, i + 8) == Bit(Widen(b), i)
  {
    MaskUpByEight(i);
    ByteUnderMask(b, Mask(i));
  }

  lemma ByteIsShort(b: bv8, i: nat)
    requires i < 16
    ensures i >= 8 ==> !Bit(Widen(b), i)
  {
    if i >= 8 {
      MaskUpByEight(i - 8);
      ByteMissesMask(b, Mask(i - 8));
    }
  }
}
