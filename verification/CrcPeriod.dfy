/** The powers of x modulo the generator: they repeat after 32767 steps and not before, so that flipping any
    three bits of a line, or fewer, changes its checksum. */
module CrcPeriod {
  import opened Crc
  import opened CrcRegister
  import opened Gf2

  // ---------------------------------------------------------------- squares

  /** Squaring a polynomial over GF(2) doubles its exponents. */
  function Square(p: Poly): (r: Poly)
    ensures forall i :: i in r <==> i % 2 == 0 && i / 2 in p
  {
    var r: Poly := set i | i in p :: 2 * i;
    assert forall i :: i in p ==> 2 * i in r;
    r
  }

  lemma SquareAdds(p: Poly, q: Poly)
    ensures Square(Add(p, q)) == Add(Square(p), Square(q))
  {
  }

  lemma SquareShifts(p: Poly, k: nat)
    ensures Square(Shl(p, k)) == Shl(Square(p), 2 * k)
  {
    forall i: nat ensures i in Square(Shl(p, k)) <==> i in Shl(Square(p), 2 * k) {
      assert i >= 2 * k ==> (i - 2 * k) % 2 == i % 2 && (i - 2 * k) / 2 == i / 2 - k;
    }
  }

  lemma SquareOfProduct(q: Poly)
    ensures Square(TimesGenerator(q)) == TimesGenerator(TimesGenerator(Square(q)))
  {
    var s := Square(q);
    SquareAdds(Add(Shl(q, 16), Shl(q, 12)), Add(Shl(q, 5), q));
    SquareAdds(Shl(q, 16), Shl(q, 12));
    SquareAdds(Shl(q, 5), q);
    SquareShifts(q, 16);
    SquareShifts(q, 12);
    SquareShifts(q, 5);
    GeneratorTwice(s);
  }

  /** The mixed terms of the square of the generator cancel. */
  lemma GeneratorTwice(s: Poly)
    ensures TimesGenerator(TimesGenerator(s)) == Add(Add(Shl(s, 32), Shl(s, 24)), Add(Shl(s, 10), s))
  {
    TimesGeneratorAdds(Add(Shl(s, 16), Shl(s, 12)), Add(Shl(s, 5), s));
    TimesGeneratorAdds(Shl(s, 16), Shl(s, 12));
    TimesGeneratorAdds(Shl(s, 5), s);
    TimesShifted(s, 16);
    TimesShifted(s, 12);
    TimesShifted(s, 5);
    MixedTermsCancel(Shl(s, 32), Shl(s, 28), Shl(s, 24), Shl(s, 21), Shl(s, 17), Shl(s, 16), Shl(s, 12), Shl(s, 10), Shl(s, 5), s);
  }

  lemma MixedTermsCancel(a: Poly, b: Poly, c: Poly, d: Poly, e: Poly, f: Poly, g: Poly, h: Poly, i: Poly, j: Poly)
    ensures Add(Add(Add(Add(a, b), Add(d, f)), Add(Add(b, c), Add(e, g))), Add(Add(Add(d, e), Add(h, i)), Add(Add(f, g), Add(i, j))))
      == Add(Add(a, c), Add(h, j))
  {
  }

  lemma TimesShifted(s: Poly, k: nat)
    ensures TimesGenerator(Shl(s, k)) == Add(Add(Shl(s, k + 16), Shl(s, k + 12)), Add(Shl(s, k + 5), Shl(s, k)))
  {
    ShlTwice(s, k, 16);
    ShlTwice(s, k, 12);
    ShlTwice(s, k, 5);
  }

  lemma CongruentSquares(p: Poly, r: Poly)
    requires Congruent(p, r)
    ensures Congruent(Square(p), Square(r))
  {
    var q :| Add(p, r) == TimesGenerator(q);
    SquareAdds(p, r);
    SquareOfProduct(q);
  }

  // ---------------------------------------------------------------- squaring a register

  /** The bits of a byte on the even places of a word. */
  function Spread(b: bv8): bv16 {
    var w := Widen(b);
    var x := (w | (w << 4)) & 0x0F0F;
    var y := (x | (x << 2)) & 0x3333;
    (y | (y << 1)) & 0x5555
  }

  lemma SpreadMasks(b: bv8)
    ensures Spread(b) & 0xAAAA == 0
    ensures (Spread(b) & 0x0001 != 0) == (Widen(b) & 0x01 != 0) && (Spread(b) & 0x0004 != 0) == (Widen(b) & 0x02 != 0)
    ensures (Spread(b) & 0x0010 != 0) == (Widen(b) & 0x04 != 0) && (Spread(b) & 0x0040 != 0) == (Widen(b) & 0x08 != 0)
    ensures (Spread(b) & 0x0100 != 0) == (Widen(b) & 0x10 != 0) && (Spread(b) & 0x0400 != 0) == (Widen(b) & 0x20 != 0)
    ensures (Spread(b) & 0x1000 != 0) == (Widen(b) & 0x40 != 0) && (Spread(b) & 0x4000 != 0) == (Widen(b) & 0x80 != 0)
  {
  }

  lemma OddMask(s: bv16, m: bv16)
    requires s & 0xAAAA == 0 && m & 0x5555 == 0
    ensures s & m == 0
  {
  }

  lemma SpreadEvenBit(b: bv8, i: nat)
    requires i < 8
    ensures Bit(Spread(b), 2 * i) == Bit(Widen(b), i)
  {
    MaskValues();
    SpreadMasks(b);
  }

  lemma SpreadOddBit(b: bv8, i: nat)
    requires i < 8
    ensures !Bit(Spread(b), 2 * i + 1)
  {
    MaskValues();
    SpreadMasks(b);
    OddMask(Spread(b), Mask(2 * i + 1));
  }

  lemma SpreadSquares(b: bv8)
    ensures Reg(Spread(b)) == Square(Reg(Widen(b)))
  {
    forall i: nat ensures i in Reg(Spread(b)) <==> i in Square(Reg(Widen(b))) {
      if i < 16 {
        if i % 2 == 0 {
          SpreadEvenBit(b, i / 2);
        } else {
          SpreadOddBit(b, i / 2);
        }
      } else if i < 32 {
        ByteIsShort(b, i / 2);
      }
    }
  }

  function Low(r: bv16): bv8 {
    (r & 0xFF) as bv8
  }

  function High(r: bv16): bv8 {
    (r >> 8) as bv8
  }

  lemma TwoBytes(r: bv16)
    ensures r == Widen(Low(r)) ^ (Widen(High(r)) << 8)
  {
  }

  lemma SumIsCongruent(x: bv16, y: bv16, p: Poly, q: Poly)
    requires Congruent(Reg(x), p) && Congruent(Reg(y), q)
    ensures Congruent(Reg(x ^ y), Add(p, q))
  {
    RegAdds(x, y);
    CongruentAdds(Reg(x), p, Reg(y), q);
  }

  lemma SquareOfTwoBytes(r: bv16, even: bv16, odd: bv16)
    requires even == Spread(Low(r)) && odd == Spread(High(r))
    ensures Square(Reg(r)) == Add(Reg(even), Shl(Reg(odd), 16))
  {
    var low, high := Low(r), High(r);
    TwoBytes(r);
    RegAdds(Widen(low), Widen(high) << 8);
    HighByte(high);
    SquareAdds(Reg(Widen(low)), Shl(Reg(Widen(high)), 8));
    SquareShifts(Reg(Widen(high)), 8);
    SpreadSquares(low);
    SpreadSquares(high);
  }

  // ---------------------------------------------------------------- sixteen shifts

  function FourShifts(c: bv16): bv16 {
    Shift(Shift(Shift(Shift(c))))
  }

  function SixteenShifts(c: bv16): bv16 {
    FourShifts(FourShifts(FourShifts(FourShifts(c))))
  }

  lemma FourShiftsOn(c: bv16, n: nat, r: bv16)
    requires r == ShiftN(c, n)
    ensures FourShifts(r) == ShiftN(c, n + 4)
  {
    assert ShiftN(c, n + 2) == Shift(Shift(ShiftN(c, n)));
    assert ShiftN(c, n + 4) == Shift(Shift(ShiftN(c, n + 2)));
  }

  lemma SixteenShiftsMultiply(c: bv16, r: bv16)
    requires r == SixteenShifts(c)
    ensures Congruent(Reg(r), Shl(Reg(c), 16))
  {
    var four := FourShifts(c);
    var eight := FourShifts(four);
    FourShiftsOn(c, 0, c);
    FourShiftsOn(c, 4, four);
    FourShiftsOn(c, 8, eight);
    FourShiftsOn(c, 12, FourShifts(eight));
    ShiftNMultiplies(c, 16);
  }

  // ---------------------------------------------------------------- powers of x

  /** After n shifts a register that held one holds x^n modulo the generator. */
  lemma PowerIsRegister(n: nat)
    ensures Congruent({n}, Reg(ShiftN(1, n)))
  {
    assert Reg(1) == {0} by {
      OneIsConstant();
    }
    ShiftNMultiplies(1, n);
    assert Shl({0}, n) == {n};
    CongruentSym(Reg(ShiftN(1, n)), {n});
  }

  lemma OneIsConstant()
    ensures Reg(1) == {0}
  {
    forall i: nat | i < 16 ensures Bit(1, i) <==> i == 0 {
      MaskValues();
    }
  }

  /** The parts of the square of r: its low byte spread, its high byte spread, that one shifted by sixteen,
      and their sum. */
  predicate SquareParts(r: bv16, even: bv16, odd: bv16, moved: bv16, s: bv16) {
    even == Spread(Low(r)) && odd == Spread(High(r)) && moved == SixteenShifts(odd) && s == even ^ moved
  }

  lemma EvenPower(n: nat, r: bv16, even: bv16, odd: bv16, moved: bv16, s: bv16)
    requires ShiftN(1, n) == r && SquareParts(r, even, odd, moved, s)
    ensures ShiftN(1, 2 * n) == s
  {
    SquareOfTwoBytes(r, even, odd);
    SixteenShiftsMultiply(odd, moved);
    SquaredPower(n, r, even, odd, moved, s);
  }

  lemma SquaredPower(n: nat, r: bv16, even: bv16, odd: bv16, moved: bv16, s: bv16)
    requires ShiftN(1, n) == r && s == even ^ moved
    requires Square(Reg(r)) == Add(Reg(even), Shl(Reg(odd), 16)) && Congruent(Reg(moved), Shl(Reg(odd), 16))
    ensures ShiftN(1, 2 * n) == s
  {
    CongruentRefl(Reg(even));
    SumIsCongruent(even, moved, Reg(even), Shl(Reg(odd), 16));
    PowerIsRegister(n);
    CongruentSquares({n}, Reg(r));
    assert Square({n}) == {2 * n};
    SameRegister(2 * n, Square(Reg(r)), s);
  }

  lemma SameRegister(n: nat, p: Poly, s: bv16)
    requires Congruent({n}, p) && Congruent(Reg(s), p)
    ensures ShiftN(1, n) == s
  {
    CongruentSym(Reg(s), p);
    CongruentTrans({n}, p, Reg(s));
    PowerIsRegister(n);
    RemainderIsUnique({n}, Reg(s), Reg(ShiftN(1, n)));
    RegIsInjective(s, ShiftN(1, n));
  }

  lemma OddPower(n: nat, r: bv16, even: bv16, odd: bv16, moved: bv16, s: bv16)
    requires ShiftN(1, n) == r && SquareParts(r, even, odd, moved, s)
    ensures ShiftN(1, 2 * n + 1) == Shift(s)
  {
    EvenPower(n, r, even, odd, moved, s);
  }

  lemma FirstPower()
    ensures ShiftN(1, 1) == 2
  {
  }

  lemma PowerOf54()
    ensures ShiftN(1, 54) == 0x1168
  {
    FirstPower();
    OddPower(1, 0x0002, 0x0004, 0x0000, 0x0000, 0x0004);
    EvenPower(3, 0x0008, 0x0040, 0x0000, 0x0000, 0x0040);
    OddPower(6, 0x0040, 0x1000, 0x0000, 0x0000, 0x1000);
    OddPower(13, 0x2000, 0x0000, 0x0400, 0xCCC4, 0xCCC4);
    EvenPower(27, 0x89A9, 0x4441, 0x4041, 0x5529, 0x1168);
  }

  lemma PowerOf217()
    ensures ShiftN(1, 217) == 0x48E3
  {
    PowerOf54();
    EvenPower(54, 0x1168, 0x1440, 0x0101, 0x2310, 0x3750);
    OddPower(108, 0x3750, 0x1100, 0x0515, 0xBD61, 0xAC61);
  }

  lemma PowerOf33()
    ensures ShiftN(1, 33) == 0x6E60
  {
    FirstPower();
    EvenPower(1, 0x0002, 0x0004, 0x0000, 0x0000, 0x0004);
    EvenPower(2, 0x0004, 0x0010, 0x0000, 0x0000, 0x0010);
    EvenPower(4, 0x0010, 0x0100, 0x0000, 0x0000, 0x0100);
    EvenPower(8, 0x0100, 0x0000, 0x0001, 0x1021, 0x1021);
    OddPower(16, 0x1021, 0x0401, 0x0100, 0x3331, 0x3730);
  }

  lemma PowerOf1057()
    ensures ShiftN(1, 1057) == 0xF2AF
  {
    PowerOf33();
    EvenPower(33, 0x6E60, 0x1400, 0x1454, 0xD5C6, 0xC1C6);
    EvenPower(66, 0xC1C6, 0x5014, 0x5001, 0x1E9E, 0x4E8A);
    EvenPower(132, 0x4E8A, 0x4044, 0x1054, 0x1902, 0x5946);
    EvenPower(264, 0x5946, 0x1014, 0x1141, 0x68A7, 0x78B3);
    OddPower(528, 0x78B3, 0x4505, 0x1540, 0xB442, 0xF147);
  }

  lemma PowerOf36()
    ensures ShiftN(1, 36) == 0x4363
  {
    FirstPower();
    EvenPower(1, 0x0002, 0x0004, 0x0000, 0x0000, 0x0004);
    EvenPower(2, 0x0004, 0x0010, 0x0000, 0x0000, 0x0010);
    OddPower(4, 0x0010, 0x0100, 0x0000, 0x0000, 0x0100);
    EvenPower(9, 0x0200, 0x0000, 0x0004, 0x4084, 0x4084);
    EvenPower(18, 0x4084, 0x4010, 0x1000, 0x0373, 0x4363);
  }

  lemma PowerOf1170()
    ensures ShiftN(1, 1170) == 0x0163
  {
    PowerOf36();
    OddPower(36, 0x4363, 0x1405, 0x1005, 0x53D6, 0x47D3);
    EvenPower(73, 0x8FA6, 0x4414, 0x4055, 0x079C, 0x4388);
    EvenPower(146, 0x4388, 0x4040, 0x1005, 0x53D6, 0x1396);
    OddPower(292, 0x1396, 0x4114, 0x0105, 0x6394, 0x2280);
    EvenPower(585, 0x4500, 0x0000, 0x1011, 0x0163, 0x0163);
  }

  lemma PowerOf4681()
    ensures ShiftN(1, 4681) == 0x2C42
  {
    PowerOf1170();
    EvenPower(1170, 0x0163, 0x1405, 0x0001, 0x1021, 0x0424);
    OddPower(2340, 0x0424, 0x0410, 0x0010, 0x1231, 0x1621);
  }

  lemma PowerOf63()
    ensures ShiftN(1, 63) == 0xD420
  {
    FirstPower();
    OddPower(1, 0x0002, 0x0004, 0x0000, 0x0000, 0x0004);
    OddPower(3, 0x0008, 0x0040, 0x0000, 0x0000, 0x0040);
    OddPower(7, 0x0080, 0x4000, 0x0000, 0x0000, 0x4000);
    OddPower(15, 0x8000, 0x0000, 0x4000, 0x0DCC, 0x0DCC);
    OddPower(31, 0x1B98, 0x4140, 0x0145, 0x2B50, 0x6A10);
  }

  lemma PowerOf2047()
    ensures ShiftN(1, 2047) == 0x7EA8
  {
    PowerOf63();
    OddPower(63, 0xD420, 0x0400, 0x5110, 0x2FBF, 0x2BBF);
    OddPower(127, 0x577E, 0x1554, 0x1115, 0x72D6, 0x6782);
    OddPower(255, 0xCF04, 0x0010, 0x5055, 0x04EF, 0x04FF);
    OddPower(511, 0x09FE, 0x5554, 0x0041, 0x58E5, 0x0DB1);
    OddPower(1023, 0x1B62, 0x1404, 0x0145, 0x2B50, 0x3F54);
  }

  lemma PowerOf32767()
    ensures ShiftN(1, 32767) == 0x0001
  {
    PowerOf2047();
    OddPower(2047, 0x7EA8, 0x4440, 0x1554, 0xE6F7, 0xA2B7);
    OddPower(4095, 0x554F, 0x1055, 0x1111, 0x3252, 0x2207);
    OddPower(8191, 0x440E, 0x0054, 0x1010, 0x1142, 0x1116);
    OddPower(16383, 0x222C, 0x0450, 0x0404, 0x8C40, 0x8810);
  }

  // ---------------------------------------------------------------- the period

  /** x^d is one modulo the generator. */
  ghost predicate Period(d: nat) {
    Congruent({d}, {0})
  }

  lemma PeriodByRegister(d: nat)
    ensures Period(d) <==> ShiftN(1, d) == 1
  {
    PowerIsRegister(d);
    OneIsConstant();
    if Period(d) {
      RemainderIsUnique({d}, Reg(1), Reg(ShiftN(1, d)));
      RegIsInjective(1, ShiftN(1, d));
    }
  }

  lemma PeriodPlus(d: nat, e: nat, sum: nat)
    requires Period(d) && Period(e) && sum == d + e
    ensures Period(sum)
  {
    ShlOfPower(d, e, sum);
    ShlOfPower(0, e, e);
    CongruentShifts({d}, {0}, e);
    CongruentTrans({sum}, {e}, {0});
  }

  lemma ShlOfPower(d: nat, e: nat, sum: nat)
    requires sum == d + e
    ensures Shl({d}, e) == {sum}
  {
  }

  lemma PeriodMinus(d: nat, e: nat)
    requires Period(d) && Period(e) && e <= d
    ensures Period(d - e)
  {
    CongruentSym({e}, {0});
    CongruentTrans({d}, {0}, {e});
    assert Add({d}, {e}) == Shl(Add({d - e}, {0}), e);
    CancelPower(Add({d - e}, {0}), e);
  }

  /** Division leaves a period, too. */
  lemma {:induction false} PeriodRemainder(d: nat, e: nat) returns (k: nat, r: nat)
    requires Period(d) && Period(e) && e > 0
    ensures d == Times(k, e) + r && r < e && Period(r)
    decreases d
  {
    if d < e {
      k, r := 0, d;
    } else {
      PeriodMinus(d, e);
      k, r := PeriodRemainder(d - e, e);
      k := k + 1;
    }
  }

  function Times(k: nat, e: nat): nat {
    if k == 0 then 0 else Times(k - 1, e) + e
  }

  lemma {:induction false} TimesIsProduct(k: nat, e: nat)
    ensures Times(k, e) == k * e
  {
    if k > 0 {
      TimesIsProduct(k - 1, e);
    }
  }

  lemma {:induction false} PeriodMultiple(e: nat, k: nat)
    requires Period(e)
    ensures Period(Times(k, e))
  {
    if k == 0 {
      CongruentRefl({0});
    } else {
      PeriodMultiple(e, k - 1);
      PeriodPlus(Times(k - 1, e), e, Times(k, e));
    }
  }

  /** The least period up to d. */
  lemma {:induction false} LeastPeriod(d: nat) returns (e: nat)
    requires d > 0 && Period(d)
    ensures 0 < e <= d && Period(e) && forall k :: 0 < k < e ==> !Period(k)
  {
    if k :| 0 < k < d && Period(k) {
      e := LeastPeriod(k);
    } else {
      e := d;
    }
  }

  /** 7 * 31 * 151. */
  const ORDER: nat := 32767

  predicate FewDivisors(n: nat) {
    n == 0 || (FewDivisors(n - 1) && (32767 % n == 0 ==> n == 1 || n == 7 || n == 31 || n == 151))
  }

  lemma DivisorsTo50()
    ensures FewDivisors(50)
  {
    assert FewDivisors(10);
    assert FewDivisors(20);
    assert FewDivisors(30);
    assert FewDivisors(40);
  }

  lemma DivisorsTo100()
    ensures FewDivisors(100)
  {
    DivisorsTo50();
    assert FewDivisors(60);
    assert FewDivisors(70);
    assert FewDivisors(80);
    assert FewDivisors(90);
  }

  lemma DivisorsTo140()
    ensures FewDivisors(140)
  {
    DivisorsTo100();
    assert FewDivisors(110);
    assert FewDivisors(120);
    assert FewDivisors(130);
  }

  /** Among the numbers up to 181 only 1, 7, 31 and 151 divide 32767. */
  lemma DivisorsTo181()
    ensures FewDivisors(181)
  {
    DivisorsTo140();
    assert FewDivisors(150);
    assert FewDivisors(160);
    assert FewDivisors(170);
    assert FewDivisors(180);
  }

  lemma {:induction false} SmallDivisor(n: nat, e: nat)
    requires FewDivisors(n) && 0 < e <= n && 32767 % e == 0
    ensures e == 1 || e == 7 || e == 31 || e == 151
  {
    if e < n {
      SmallDivisor(n - 1, e);
    }
  }

  lemma FactorDivides(n: nat, e: nat, k: nat)
    requires e > 0 && e * k == n
    ensures n % e == 0
  {
    var q, r := n / e, n % e;
    assert n == e * q + r;
    assert e * (q + 1) == e * q + e;
    if k > q {
      ProductGrows(e, q + 1, k);
    } else if k < q {
      ProductGrows(e, k, q);
    }
  }

  lemma ProductGrows(e: nat, j: nat, k: nat)
    requires j <= k
    ensures e * j <= e * k
  {
    assert e * (k - j) >= 0;
  }

  lemma BothLarge(e: nat, k: nat)
    requires e >= 182 && k >= 182
    ensures e * k > 32767
  {
    assert (e - 182) * k >= 0 && e * k == (e - 182) * k + 182 * k;
  }

  lemma SmallFactor(e: nat, k: nat)
    requires e * k == 32767 && 0 < e <= 181
    ensures e == 1 || e == 7 || e == 31 || e == 151
  {
    DivisorsTo181();
    FactorDivides(32767, e, k);
    SmallDivisor(181, e);
  }

  lemma ProperDivisor(e: nat, k: nat)
    requires e * k == 32767 && 0 < e < 32767
    ensures e == 1 || e == 7 || e == 31 || e == 151 || e == 217 || e == 1057 || e == 4681
  {
    if e <= 181 {
      SmallFactor(e, k);
    } else {
      if k > 181 {
        BothLarge(e, k);
      }
      assert k > 0 && k * e == 32767;
      SmallFactor(k, e);
      Quotient(e, k);
    }
  }

  lemma Quotient(e: nat, k: nat)
    requires e * k == 32767 && e < 32767 && (k == 1 || k == 7 || k == 31 || k == 151)
    ensures e == 4681 || e == 1057 || e == 217
  {
  }

  /** The powers of x repeat after 32767 steps and not before. */
  lemma NoShortPeriod(d: nat)
    requires 0 < d < ORDER
    ensures !Period(d)
  {
    if Period(d) {
      PowersOfDivisors();
      var e := LeastPeriod(d);
      var k, r := PeriodRemainder(32767, e);
      TimesIsProduct(k, e);
      ProperDivisor(e, k);
      NoDivisorIsPeriod(e);
    }
  }

  lemma NoDivisorIsPeriod(e: nat)
    requires e == 1 || e == 7 || e == 31 || e == 151 || e == 217 || e == 1057 || e == 4681
    ensures !Period(e)
  {
    PowersOfDivisors();
    NotIfMultipleIsNot(e, if e == 1 then 217 else if e == 7 then 31 else if e == 31 || e == 151 then 7 else 1);
  }

  lemma NotIfMultipleIsNot(e: nat, k: nat)
    requires !Period(k * e)
    ensures !Period(e)
  {
    if Period(e) {
      PeriodMultiple(e, k);
      TimesIsProduct(k, e);
    }
  }

  lemma PowersOfDivisors()
    ensures Period(ORDER) && !Period(217) && !Period(1057) && !Period(4681)
  {
    PowerOf217();
    PowerOf1057();
    PowerOf4681();
    PowerOf32767();
    PeriodByRegister(217);
    PeriodByRegister(1057);
    PeriodByRegister(4681);
    PeriodByRegister(ORDER);
  }

  /** The periods are the multiples of 32767. */
  lemma PeriodExactly(d: nat)
    ensures Period(d) <==> d % 32767 == 0
  {
    PowersOfDivisors();
    if Period(d) {
      PeriodIsMultiple(d);
    }
    if d % 32767 == 0 {
      PeriodMultiple(32767, d / 32767);
      TimesIsProduct(d / 32767, 32767);
    }
  }

  lemma PeriodIsMultiple(d: nat)
    requires Period(d)
    ensures d % 32767 == 0
  {
    PowersOfDivisors();
    var k, r := PeriodRemainder(d, 32767);
    if r > 0 {
      NoShortPeriod(r);
    }
    MultipleDivides(d, k);
  }

  lemma MultipleDivides(d: nat, k: nat)
    requires d == Times(k, 32767)
    ensures d % 32767 == 0
  {
    TimesIsProduct(k, 32767);
    FactorDivides(d, 32767, k);
  }

  // ---------------------------------------------------------------- scattered bits

  /** Two altered bits go unnoticed exactly when they are a multiple of 32767 bits apart. */
  lemma TwoBitsExactly(a: seq<bv8>, b: seq<bv8>, i: nat, j: nat)
    requires |a| == |b| && i < j && Add(BodyPoly(a), BodyPoly(b)) == {i, j}
    ensures Sum(a) == Sum(b) <==> (j - i) % ORDER == 0
  {
    SameChecksumOfOneLength(a, b);
    PairDivides(i, j, j - i);
  }

  lemma PairDivides(i: nat, j: nat, d: nat)
    requires d > 0 && j == i + d
    ensures Divisible({i, j}) <==> d % ORDER == 0
  {
    PairIsPeriod(i, j, d);
    PeriodExactly(d);
  }

  lemma PairIsPeriod(i: nat, j: nat, d: nat)
    requires d > 0 && j == i + d
    ensures Divisible({i, j}) <==> Period(d)
  {
    var p := Add({d}, {0});
    assert {i, j} == Shl(p, i);
    if Divisible({i, j}) {
      CancelPower(p, i);
    }
    if Period(d) {
      DivisibleShifts(p, i);
    }
  }

  /** One to three altered bits of a body of at most 32767 bits are always noticed, wherever they lie. */
  lemma ThreeBitsAreDetected(a: seq<bv8>, b: seq<bv8>, difference: Poly)
    requires |a| == |b| && 8 * |a| <= ORDER
    requires difference == Add(BodyPoly(a), BodyPoly(b)) && 1 <= |difference| <= 3
    ensures Sum(a) != Sum(b)
  {
    if |difference| == 2 {
      TwoBitsAreDetected(a, b, difference);
    } else {
      OneOrThree(difference);
      OddAlterationIsDetected(a, b);
    }
  }

  lemma OneOrThree(p: Poly)
    requires |p| == 1 || |p| == 3
    ensures OddSize(p)
  {
  }

  lemma TwoBitsAreDetected(a: seq<bv8>, b: seq<bv8>, p: Poly)
    requires |a| == |b| && 8 * |a| <= ORDER && p == Add(BodyPoly(a), BodyPoly(b)) && |p| == 2
    ensures Sum(a) != Sum(b)
  {
    var i, j := TwoOf(p);
    assert j in p;
    InBody(a, b, j);
    TooNear(i, j);
    TwoBitsExactly(a, b, i, j);
  }

  lemma InBody(a: seq<bv8>, b: seq<bv8>, k: nat)
    requires |a| == |b| && k in Add(BodyPoly(a), BodyPoly(b))
    ensures k < 8 * |a|
  {
  }

  lemma TooNear(i: nat, j: nat)
    requires i < j < ORDER
    ensures (j - i) % ORDER != 0
  {
  }

  lemma TwoOf(p: Poly) returns (i: nat, j: nat)
    requires |p| == 2
    ensures p == {i, j} && i < j
  {
    var x :| x in p;
    var rest := p - {x};
    var y := OneOf(rest);
    assert p == rest + {x};
    i, j := if x < y then x else y, if x < y then y else x;
  }

  lemma OneOf(p: Poly) returns (i: nat)
    requires |p| == 1
    ensures p == {i}
  {
    i :| i in p;
    assert |p - {i}| == 0;
    assert p - {i} == {};
  }
}
