/** The checksum of a line body as text. */
module Checksum {
  import opened Text
  import Crc
  import CrcPeriod
  import CrcRegister
  import Gf2

  predicate IsBytes(s: string) {
    forall c :: c in s ==> c as int < 256
  }

  function ByteOf(c: char): bv8 {
    ((c as int) % 256) as bv8
  }

  function BytesOf(s: string): (bytes: seq<bv8>)
    ensures |bytes| == |s|
    ensures forall i :: 0 <= i < |s| ==> bytes[i] == ByteOf(s[i])
  {
    if s == [] then [] else [ByteOf(s[0])] + BytesOf(s[1..])
  }

  function ChecksumHex(body: string): string {
    Crc.Hex(Crc.Sum(BytesOf(body)))
  }

  /** The source's loop over the body, and its rendering. */
  method ComputeChecksumHex(body: string) returns (text: string)
    ensures text == ChecksumHex(body)
    ensures |text| == 4 && HexValue(text) == BinaryValue(CrcRegister.Reg(Crc.Sum(BytesOf(body))), 0, 16)
  {
    var crc := Crc.ComputeSum(BytesOf(body));
    text := Crc.Hex(crc);
    HexReads(crc);
  }

  /** The checksum is four upper-case hexadecimal digits. */
  lemma ChecksumText(body: string)
    ensures |ChecksumHex(body)| == 4 && Plain(ChecksumHex(body))
    ensures Upper(ChecksumHex(body)) == ChecksumHex(body) && HexDecodes(ChecksumHex(body))
  {
    DigitsText(Crc.Split(Crc.Sum(BytesOf(body))));
  }

  lemma DigitsText(n: Crc.Nibbles)
    requires Crc.AllSmall(n)
    ensures var s := Crc.Digits(n); |s| == 4 && Plain(s) && Upper(s) == s && HexDecodes(s)
  {
    HexDigitText(n.n3);
    HexDigitText(n.n2);
    HexDigitText(n.n1);
    HexDigitText(n.n0);
  }

  lemma HexDigitText(n: bv16)
    requires n < 16
    ensures var c := Crc.HexDigit(n); IsHexDigit(c) && UpperChar(c) == c && c != SEPARATOR
  {
  }

  // ---------------------------------------------------------------- the number a checksum stands for

  function HexDigitValue(c: char): int {
    if '0' <= c <= '9' then c as int - '0' as int
    else if 'A' <= c <= 'F' then c as int - 'A' as int + 10
    else c as int - 'a' as int + 10
  }

  /** The number written in hexadecimal, its most significant digit first. */
  function HexValue(s: string): int {
    if s == "" then 0 else 16 * HexValue(s[..|s| - 1]) + HexDigitValue(s[|s| - 1])
  }

  lemma FourDigits(s: string)
    requires |s| == 4
    ensures HexValue(s) ==
      4096 * HexDigitValue(s[0]) + 256 * HexDigitValue(s[1]) + 16 * HexDigitValue(s[2]) + HexDigitValue(s[3])
  {
    var three, two, one := s[..3], s[..2], s[..1];
    assert three[..2] == two && two[..1] == one && one[..0] == "";
    assert HexValue(one) == HexDigitValue(s[0]);
    assert HexValue(two) == 16 * HexValue(one) + HexDigitValue(s[1]);
    assert HexValue(three) == 16 * HexValue(two) + HexDigitValue(s[2]);
  }

  function Weight(bit: bool, weight: int): int {
    if bit then weight else 0
  }

  /** The digit reads as the number of the nibble. */
  predicate DigitReads(c: char, n: bv16) {
    HexDigitValue(c) == Weight(n & 8 != 0, 8) + Weight(n & 4 != 0, 4) + Weight(n & 2 != 0, 2) + Weight(n & 1 != 0, 1)
  }

  lemma DigitOfNibble(n: bv16, c: char)
    requires n < 16 && c == Crc.HexDigit(n)
    ensures DigitReads(c, n)
  {
  }

  lemma DigitsOfNibbles(n: Crc.Nibbles, s: string)
    requires Crc.AllSmall(n) && s == Crc.Digits(n)
    ensures |s| == 4 && DigitReads(s[0], n.n3) && DigitReads(s[1], n.n2) && DigitReads(s[2], n.n1) && DigitReads(s[3], n.n0)
  {
    DigitOfNibble(n.n3, s[0]);
    DigitOfNibble(n.n2, s[1]);
    DigitOfNibble(n.n1, s[2]);
    DigitOfNibble(n.n0, s[3]);
  }

  /** The number whose binary digits are the coefficients from x^low up to below x^high. */
  function BinaryValue(p: Gf2.Poly, low: nat, high: nat): int
    requires low <= high
    decreases high - low
  {
    if low == high then 0 else 2 * BinaryValue(p, low + 1, high) + Weight(low in p, 1)
  }

  lemma FourMoreBits(p: Gf2.Poly, low: nat, high: nat)
    requires low + 4 <= high
    ensures BinaryValue(p, low, high) ==
      16 * BinaryValue(p, low + 4, high)
      + Weight(low + 3 in p, 8) + Weight(low + 2 in p, 4) + Weight(low + 1 in p, 2) + Weight(low in p, 1)
  {
    assert BinaryValue(p, low + 3, high) == 2 * BinaryValue(p, low + 4, high) + Weight(low + 3 in p, 1);
    assert BinaryValue(p, low + 2, high) == 2 * BinaryValue(p, low + 3, high) + Weight(low + 2 in p, 1);
    assert BinaryValue(p, low + 1, high) == 2 * BinaryValue(p, low + 2, high) + Weight(low + 1 in p, 1);
  }

  /** The four bits of a nibble are those of the register from `low` on. */
  predicate NibbleAt(n: bv16, crc: bv16, low: nat)
    requires low + 3 < 16
  {
    && (n & 8 != 0) == CrcRegister.Bit(crc, low + 3) && (n & 4 != 0) == CrcRegister.Bit(crc, low + 2)
    && (n & 2 != 0) == CrcRegister.Bit(crc, low + 1) && (n & 1 != 0) == CrcRegister.Bit(crc, low)
  }

  predicate MasksFrom(low: nat, m3: bv16, m2: bv16, m1: bv16, m0: bv16)
    requires low + 3 < 16
  {
    && m3 == CrcRegister.Mask(low + 3) && m2 == CrcRegister.Mask(low + 2)
    && m1 == CrcRegister.Mask(low + 1) && m0 == CrcRegister.Mask(low)
  }

  lemma NibbleFromMasks(crc: bv16, n: bv16, low: nat, m3: bv16, m2: bv16, m1: bv16, m0: bv16)
    requires low + 3 < 16 && MasksFrom(low, m3, m2, m1, m0)
    requires (n & 8 != 0) == (crc & m3 != 0) && (n & 4 != 0) == (crc & m2 != 0)
    requires (n & 2 != 0) == (crc & m1 != 0) && (n & 1 != 0) == (crc & m0 != 0)
    ensures NibbleAt(n, crc, low)
  {
    CrcRegister.BitByMask(crc, low + 3, m3);
    CrcRegister.BitByMask(crc, low + 2, m2);
    CrcRegister.BitByMask(crc, low + 1, m1);
    CrcRegister.BitByMask(crc, low, m0);
  }

  lemma TopNibbleAt(crc: bv16, n: bv16)
    requires n == crc >> 12
    ensures NibbleAt(n, crc, 12)
  {
    TopNibble(crc, n);
    MasksOfTopNibble();
    NibbleFromMasks(crc, n, 12, 0x8000, 0x4000, 0x2000, 0x1000);
  }

  lemma MasksOfTopNibble()
    ensures MasksFrom(12, 0x8000, 0x4000, 0x2000, 0x1000)
  {
    CrcRegister.MaskValues();
  }

  lemma TopNibble(crc: bv16, n: bv16)
    requires n == crc >> 12
    ensures (n & 8 != 0) == (crc & 0x8000 != 0) && (n & 4 != 0) == (crc & 0x4000 != 0)
    ensures (n & 2 != 0) == (crc & 0x2000 != 0) && (n & 1 != 0) == (crc & 0x1000 != 0)
  {
  }

  lemma SecondNibbleAt(crc: bv16, n: bv16)
    requires n == (crc >> 8) & 15
    ensures NibbleAt(n, crc, 8)
  {
    SecondNibble(crc, n);
    MasksOfSecondNibble();
    NibbleFromMasks(crc, n, 8, 0x0800, 0x0400, 0x0200, 0x0100);
  }

  lemma MasksOfSecondNibble()
    ensures MasksFrom(8, 0x0800, 0x0400, 0x0200, 0x0100)
  {
    CrcRegister.MaskValues();
  }

  lemma SecondNibble(crc: bv16, n: bv16)
    requires n == (crc >> 8) & 15
    ensures (n & 8 != 0) == (crc & 0x0800 != 0) && (n & 4 != 0) == (crc & 0x0400 != 0)
    ensures (n & 2 != 0) == (crc & 0x0200 != 0) && (n & 1 != 0) == (crc & 0x0100 != 0)
  {
  }

  lemma ThirdNibbleAt(crc: bv16, n: bv16)
    requires n == (crc >> 4) & 15
    ensures NibbleAt(n, crc, 4)
  {
    ThirdNibble(crc, n);
    MasksOfThirdNibble();
    NibbleFromMasks(crc, n, 4, 0x0080, 0x0040, 0x0020, 0x0010);
  }

  lemma MasksOfThirdNibble()
    ensures MasksFrom(4, 0x0080, 0x0040, 0x0020, 0x0010)
  {
    CrcRegister.MaskValues();
  }

  lemma ThirdNibble(crc: bv16, n: bv16)
    requires n == (crc >> 4) & 15
    ensures (n & 8 != 0) == (crc & 0x0080 != 0) && (n & 4 != 0) == (crc & 0x0040 != 0)
    ensures (n & 2 != 0) == (crc & 0x0020 != 0) && (n & 1 != 0) == (crc & 0x0010 != 0)
  {
  }

  lemma LastNibbleAt(crc: bv16, n: bv16)
    requires n == crc & 15
    ensures NibbleAt(n, crc, 0)
  {
    LastNibble(crc, n);
    MasksOfLastNibble();
    NibbleFromMasks(crc, n, 0, 0x0008, 0x0004, 0x0002, 0x0001);
  }

  lemma MasksOfLastNibble()
    ensures MasksFrom(0, 0x0008, 0x0004, 0x0002, 0x0001)
  {
    CrcRegister.MaskValues();
  }

  lemma LastNibble(crc: bv16, n: bv16)
    requires n == crc & 15
    ensures (n & 8 != 0) == (crc & 0x0008 != 0) && (n & 4 != 0) == (crc & 0x0004 != 0)
    ensures (n & 2 != 0) == (crc & 0x0002 != 0) && (n & 1 != 0) == (crc & 0x0001 != 0)
  {
  }

  lemma NibblesAt(crc: bv16, n: Crc.Nibbles)
    requires n == Crc.Split(crc)
    ensures NibbleAt(n.n3, crc, 12) && NibbleAt(n.n2, crc, 8) && NibbleAt(n.n1, crc, 4) && NibbleAt(n.n0, crc, 0)
  {
    TopNibbleAt(crc, n.n3);
    SecondNibbleAt(crc, n.n2);
    ThirdNibbleAt(crc, n.n1);
    LastNibbleAt(crc, n.n0);
  }

  /** The digit adds the four bits of the register from `low` on. */
  predicate DigitAdds(c: char, p: Gf2.Poly, low: nat)
    requires low + 4 <= 16
  {
    BinaryValue(p, low, 16) == 16 * BinaryValue(p, low + 4, 16) + HexDigitValue(c)
  }

  lemma NibbleAdds(c: char, n: bv16, crc: bv16, low: nat)
    requires low + 3 < 16 && DigitReads(c, n) && NibbleAt(n, crc, low)
    ensures DigitAdds(c, CrcRegister.Reg(crc), low)
  {
    FourMoreBits(CrcRegister.Reg(crc), low, 16);
  }

  lemma DigitsAdd(p: Gf2.Poly, s: string)
    requires |s| == 4 && DigitAdds(s[0], p, 12) && DigitAdds(s[1], p, 8) && DigitAdds(s[2], p, 4) && DigitAdds(s[3], p, 0)
    ensures HexValue(s) == BinaryValue(p, 0, 16)
  {
    FourDigits(s);
    assert BinaryValue(p, 16, 16) == 0;
  }

  /** The text of a register reads as the number whose binary digits are the bits of the register. */
  lemma HexReads(crc: bv16)
    ensures HexValue(Crc.Hex(crc)) == BinaryValue(CrcRegister.Reg(crc), 0, 16)
  {
    var n := Crc.Split(crc);
    NibblesAt(crc, n);
    var s := Crc.Digits(n);
    DigitsOfNibbles(n, s);
    NibbleAdds(s[0], n.n3, crc, 12);
    NibbleAdds(s[1], n.n2, crc, 8);
    NibbleAdds(s[2], n.n1, crc, 4);
    NibbleAdds(s[3], n.n0, crc, 0);
    DigitsAdd(CrcRegister.Reg(crc), s);
  }

  const ALL_ONES: Gf2.Poly := {0, 1, 2, 3, 4, 5, 6, 7, 8, 9, 10, 11, 12, 13, 14, 15}

  lemma InitialIsAllOnes()
    ensures CrcRegister.Reg(Crc.INITIAL) == ALL_ONES
  {
    CrcRegister.MaskValues();
    forall i: nat | i < 16 ensures CrcRegister.Bit(Crc.INITIAL, i) {
    }
  }

  /** What is divided: the body with sixteen places appended, and sixteen ones added where it begins. */
  function DividendOf(body: string): Gf2.Poly {
    Gf2.Add(Gf2.Shl(Crc.BodyPoly(BytesOf(body)), 16), Gf2.Shl(ALL_ONES, 8 * |body|))
  }

  /** The checksum reads as the number whose binary digits are the remainder of that division. */
  lemma ChecksumReadsRemainder(body: string, r: Gf2.Poly)
    requires Gf2.Congruent(DividendOf(body), r) && Gf2.Short(r)
    ensures |ChecksumHex(body)| == 4 && HexValue(ChecksumHex(body)) == BinaryValue(r, 0, 16)
  {
    var bytes := BytesOf(body);
    InitialIsAllOnes();
    assert DividendOf(body) == Crc.Dividend(bytes);
    Crc.FoldDivides(bytes);
    Gf2.CongruentSym(CrcRegister.Reg(Crc.Sum(bytes)), DividendOf(body));
    Gf2.RemainderIsUnique(DividendOf(body), r, CrcRegister.Reg(Crc.Sum(bytes)));
    HexReads(Crc.Sum(bytes));
  }

  lemma MixedFold(crc: bv16, b: bv8, mixed: bv16)
    requires mixed == crc ^ (CrcRegister.Widen(b) << 8)
    ensures Crc.FoldByte(crc, b) == CrcRegister.ShiftN(mixed, 8)
  {
  }

  lemma EightShifts(mixed: bv16, half: bv16, after: bv16)
    requires half == CrcPeriod.FourShifts(mixed) && after == CrcPeriod.FourShifts(half)
    ensures CrcRegister.ShiftN(mixed, 8) == after
  {
    CrcPeriod.FourShiftsOn(mixed, 0, mixed);
    CrcPeriod.FourShiftsOn(mixed, 4, half);
  }

  lemma FoldMore(body: seq<bv8>, i: nat, before: bv16, mixed: bv16, half: bv16, after: bv16)
    requires i < |body| && Crc.Fold(Crc.INITIAL, body[..i]) == before
    requires Crc.FoldByte(before, body[i]) == CrcRegister.ShiftN(mixed, 8) && CrcRegister.ShiftN(mixed, 8) == after
    ensures Crc.Fold(Crc.INITIAL, body[..i + 1]) == after
  {
    assert body[..i + 1][..i] == body[..i];
  }

  const DIGITS: seq<bv8> := [0x31, 0x32, 0x33, 0x34, 0x35, 0x36, 0x37, 0x38, 0x39]

  lemma OneMoreDigit(i: nat, b: bv8, before: bv16, mixed: bv16, half: bv16, after: bv16)
    requires i < 9 && DIGITS[i] == b && Crc.Fold(Crc.INITIAL, DIGITS[..i]) == before
    requires mixed == before ^ (CrcRegister.Widen(b) << 8)
    requires half == CrcPeriod.FourShifts(mixed) && after == CrcPeriod.FourShifts(half)
    ensures Crc.Fold(Crc.INITIAL, DIGITS[..i + 1]) == after
  {
    MixedFold(before, b, mixed);
    EightShifts(mixed, half, after);
    FoldMore(DIGITS, i, before, mixed, half, after);
  }

  lemma ThreeDigits()
    ensures Crc.Fold(Crc.INITIAL, DIGITS[..3]) == 0x5BCE
  {
    OneMoreDigit(0, 0x31, 0xFFFF, 0xCEFF, 0x2E7C, 0xC782);
    OneMoreDigit(1, 0x32, 0xC782, 0xF582, 0xA9CF, 0x3DBA);
    OneMoreDigit(2, 0x33, 0x3DBA, 0x0EBA, 0xEBA0, 0x5BCE);
  }

  lemma SixDigits()
    ensures Crc.Fold(Crc.INITIAL, DIGITS[..6]) == 0x2EF4
  {
    ThreeDigits();
    OneMoreDigit(3, 0x34, 0x5BCE, 0x6FCE, 0x9C26, 0x5349);
    OneMoreDigit(4, 0x35, 0x5349, 0x6649, 0x0456, 0x4560);
    OneMoreDigit(5, 0x36, 0x4560, 0x7360, 0x46E7, 0x2EF4);
  }

  lemma NineDigits()
    ensures Crc.Fold(Crc.INITIAL, DIGITS[..9]) == 0x29B1
  {
    SixDigits();
    OneMoreDigit(6, 0x37, 0x2EF4, 0x19F4, 0x8F61, 0x7718);
    OneMoreDigit(7, 0x38, 0x7718, 0x4F18, 0xB104, 0xA12B);
    OneMoreDigit(8, 0x39, 0xA12B, 0x982B, 0x1399, 0x29B1);
  }

  /** The usual check value of this checksum. */
  lemma CheckValue()
    ensures ChecksumHex("123456789") == "29B1"
  {
    NineDigits();
    DigitBytes();
    TextOf("123456789", DIGITS[..9], 0x29B1);
    HexOf29B1();
  }

  lemma TextOf(body: string, bytes: seq<bv8>, crc: bv16)
    requires BytesOf(body) == bytes && Crc.Fold(Crc.INITIAL, bytes) == crc
    ensures ChecksumHex(body) == Crc.Hex(crc)
  {
  }

  lemma DigitBytes()
    ensures BytesOf("123456789") == DIGITS[..9]
  {
    forall k: nat | k < 9 ensures ByteOf("123456789"[k]) == DIGITS[k] {
      DigitByte(k, "123456789"[k], DIGITS[k]);
    }
    ByteByByte("123456789", DIGITS[..9]);
  }

  lemma ByteByByte(s: string, b: seq<bv8>)
    requires |s| == |b| && forall k: nat :: k < |s| ==> ByteOf(s[k]) == b[k]
    ensures BytesOf(s) == b
  {
  }

  lemma DigitByte(k: nat, c: char, b: bv8)
    requires k < 9 && c == "123456789"[k] && b == DIGITS[k]
    ensures ByteOf(c) == b
  {
    match k {
      case 0 => ByteIs('1', 0x31);
      case 1 => ByteIs('2', 0x32);
      case 2 => ByteIs('3', 0x33);
      case 3 => ByteIs('4', 0x34);
      case 4 => ByteIs('5', 0x35);
      case 5 => ByteIs('6', 0x36);
      case 6 => ByteIs('7', 0x37);
      case 7 => ByteIs('8', 0x38);
      case 8 => ByteIs('9', 0x39);
    }
  }

  lemma ByteIs(c: char, b: bv8)
    requires c as int == b as int
    ensures ByteOf(c) == b
  {
    ByteRoundTrip(c);
    SameByte(ByteOf(c), b);
  }

  lemma SameByte(a: bv8, b: bv8)
    requires a as int == b as int
    ensures a == b
  {
  }

  lemma HexOf29B1()
    ensures Crc.Hex(0x29B1) == "29B1"
  {
    assert Crc.Split(0x29B1) == Crc.Nibbles(2, 9, 11, 1);
  }

  lemma ByteOfIsInjective(c: char, d: char)
    requires c as int < 256 && d as int < 256 && ByteOf(c) == ByteOf(d)
    ensures c == d
  {
    ByteRoundTrip(c);
    ByteRoundTrip(d);
  }

  lemma ByteRoundTrip(c: char)
    requires c as int < 256
    ensures ByteOf(c) as int == c as int
  {
  }

  lemma BytesOfIsInjective(s: string, u: string)
    requires IsBytes(s) && IsBytes(u) && BytesOf(s) == BytesOf(u)
    ensures s == u
  {
    forall i | 0 <= i < |s| ensures s[i] == u[i] {
      assert BytesOf(s)[i] == BytesOf(u)[i];
      assert s[i] in s && u[i] in u;
      ByteOfIsInjective(s[i], u[i]);
    }
  }

  /** The bodies differ, and only among sixteen consecutive bits. */
  ghost predicate BurstApart(body: string, altered: string) {
    body != altered && exists low: nat :: Crc.DifferWithin(BytesOf(body), BytesOf(altered), low, 16)
  }

  /** Bodies that differ in a short burst have different checksum texts. */
  lemma ChecksumTells(body: string, altered: string)
    requires IsBytes(body) && IsBytes(altered) && BurstApart(body, altered)
    ensures ChecksumHex(body) != ChecksumHex(altered)
  {
    var a, b := BytesOf(body), BytesOf(altered);
    var low: nat :| Crc.DifferWithin(a, b, low, 16);
    if a == b {
      BytesOfIsInjective(body, altered);
    }
    Crc.BurstIsDetected(a, b, low);
    if ChecksumHex(body) == ChecksumHex(altered) {
      Crc.HexIsInjective(Crc.Sum(a), Crc.Sum(b));
    }
  }

  /** The bits in which two bodies differ. */
  function Difference(body: string, altered: string): Gf2.Poly {
    Gf2.Add(Crc.BodyPoly(BytesOf(body)), Crc.BodyPoly(BytesOf(altered)))
  }

  /** The bodies are as long as each other and differ in one, two or three bits, wherever they lie. */
  predicate FewBitsApart(body: string, altered: string) {
    |body| == |altered| && 1 <= |Difference(body, altered)| <= 3
  }

  /** Bodies that differ in so few bits have different checksum texts, up to 4095 bytes. */
  lemma FewBitsTell(body: string, altered: string)
    requires FewBitsApart(body, altered) && |body| <= 4095
    ensures ChecksumHex(body) != ChecksumHex(altered)
  {
    var a, b := BytesOf(body), BytesOf(altered);
    CrcPeriod.ThreeBitsAreDetected(a, b, Difference(body, altered));
    if ChecksumHex(body) == ChecksumHex(altered) {
      Crc.HexIsInjective(Crc.Sum(a), Crc.Sum(b));
    }
  }
}
