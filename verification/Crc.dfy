/** The line checksum: what the nested shift loop computes, and which alterations of a body it
    can and cannot miss. */
module Crc {
  import opened CrcRegister
  import opened Gf2

  const INITIAL: bv16 := 0xFFFF

  /** One pass of the outer loop. */
  function FoldByte(crc: bv16, b: bv8): bv16 {
    ShiftN(crc ^ (Widen(b) << 8), 8)
  }

  function Fold(crc: bv16, body: seq<bv8>): bv16 {
    if body == [] then crc else FoldByte(Fold(crc, body[..|body| - 1]), body[|body| - 1])
  }

  /** The CRC of a body; ChecksumIsRemainder says what it means. */
  function Sum(body: seq<bv8>): bv16 {
    Fold(INITIAL, body)
  }

  method ComputeSum(body: seq<bv8>) returns (crc: bv16)
    ensures crc == Sum(body)
  {
    crc := INITIAL;
    var i := 0;
    while i < |body|
      invariant 0 <= i <= |body|
      invariant crc == Fold(INITIAL, body[..i])
    {
      ghost var front, here := body[..i], body[..i + 1];
      assert here[..i] == front && here[i] == body[i];
      crc := crc ^ (Widen(body[i]) << 8);
      crc := ShiftEightTimes(crc);
      i := i + 1;
    }
    assert body[..|body|] == body;
  }

  /** The inner loop over the bits of one byte. */
  method ShiftEightTimes(mixed: bv16) returns (crc: bv16)
    ensures crc == ShiftN(mixed, 8)
  {
    crc := mixed;
    var j := 0;
    while j < 8
      invariant 0 <= j <= 8
      invariant crc == ShiftN(mixed, j)
    {
      crc := ShiftOnce(crc);
      j := j + 1;
    }
  }

  method ShiftOnce(crc: bv16) returns (r: bv16)
    ensures r == Shift(crc)
  {
    if crc & 0x8000 != 0 {
      r := (crc << 1) ^ 0x1021;
    } else {
      r := crc << 1;
    }
  }

  // ---------------------------------------------------------------- meaning

  /** Bit k of a body, counted from its last bit. */
  predicate BitAt(body: seq<bv8>, k: nat)
    requires k < 8 * |body|
  {
    Bit(Widen(body[|body| - 1 - k / 8]), k % 8)
  }

  /** The body as a polynomial: its last bit is the constant term. */
  function BodyPoly(body: seq<bv8>): (p: Poly)
    ensures forall k: nat :: k in p <==> k < 8 * |body| && BitAt(body, k)
  {
    set k: nat | k < 8 * |body| && BitAt(body, k)
  }

  /** The dividend: the body times x^16, with the initial value added on top of its first bits. */
  function Dividend(body: seq<bv8>): Poly {
    Add(Shl(BodyPoly(body), 16), Shl(Reg(INITIAL), 8 * |body|))
  }

  lemma AppendByte(front: seq<bv8>, b: bv8)
    ensures BodyPoly(front + [b]) == Add(Shl(BodyPoly(front), 8), Reg(Widen(b)))
  {
    var body := front + [b];
    forall k: nat ensures k in BodyPoly(body) <==> ((k in Shl(BodyPoly(front), 8)) != (k in Reg(Widen(b)))) {
      if k < 8 {
        BitOfLastByte(front, b, k);
      } else {
        if k < 16 {
          ByteIsShort(b, k);
        }
        if k < 8 * |body| {
          BitOfFrontBytes(front, b, k);
        }
      }
    }
  }

  lemma BitOfLastByte(front: seq<bv8>, b: bv8, k: nat)
    requires k < 8
    ensures BitAt(front + [b], k) == Bit(Widen(b), k)
  {
    assert k / 8 == 0 && k % 8 == k;
  }

  lemma BitOfFrontBytes(front: seq<bv8>, b: bv8, k: nat)
    requires 8 <= k < 8 * |front| + 8
    ensures BitAt(front + [b], k) == BitAt(front, k - 8)
  {
    assert k / 8 == (k - 8) / 8 + 1 && k % 8 == (k - 8) % 8;
  }

  lemma AppendToDividend(front: seq<bv8>, b: bv8)
    ensures Dividend(front + [b]) == Add(Shl(Dividend(front), 8), Shl(Reg(Widen(b)), 16))
  {
    AppendByte(front, b);
    AppendParts(BodyPoly(front), BodyPoly(front + [b]), Reg(Widen(b)), Reg(INITIAL), 8 * |front|, 8 * |front + [b]|);
  }

  lemma AppendParts(p: Poly, q: Poly, byte: Poly, start: Poly, n: nat, m: nat)
    requires q == Add(Shl(p, 8), byte) && m == n + 8
    ensures Add(Shl(q, 16), Shl(start, m)) == Add(Shl(Add(Shl(p, 16), Shl(start, n)), 8), Shl(byte, 16))
  {
    ShlTwice(start, n, 8);
    DistributeShifts(p, byte, Shl(start, n));
  }

  lemma DistributeShifts(p: Poly, byte: Poly, init: Poly)
    ensures Add(Shl(Add(Shl(p, 8), byte), 16), Shl(init, 8)) == Add(Shl(Add(Shl(p, 16), init), 8), Shl(byte, 16))
  {
    ShlCommutes(p, 8, 16);
  }

  lemma MixedRegister(crc: bv16, b: bv8)
    ensures Reg(crc ^ (Widen(b) << 8)) == Add(Reg(crc), Shl(Reg(Widen(b)), 8))
  {
    RegAdds(crc, Widen(b) << 8);
    HighByte(b);
  }

  lemma FoldByteMultiplies(crc: bv16, b: bv8)
    ensures Congruent(Reg(FoldByte(crc, b)), Add(Shl(Reg(crc), 8), Shl(Reg(Widen(b)), 16)))
  {
    MixedRegister(crc, b);
    ShiftNMultiplies(crc ^ (Widen(b) << 8), 8);
    DistributeOnce(Reg(crc), Reg(Widen(b)));
  }

  lemma DistributeOnce(p: Poly, byte: Poly)
    ensures Shl(Add(p, Shl(byte, 8)), 8) == Add(Shl(p, 8), Shl(byte, 16))
  {
    ShlTwice(byte, 8, 8);
  }

  lemma {:induction false} FoldDivides(body: seq<bv8>)
    ensures Congruent(Reg(Sum(body)), Dividend(body))
  {
    if body == [] {
      assert Dividend(body) == Reg(INITIAL);
      CongruentRefl(Reg(INITIAL));
    } else {
      var front, b := body[..|body| - 1], body[|body| - 1];
      assert front + [b] == body;
      FoldDivides(front);
      CongruentShifts(Reg(Sum(front)), Dividend(front), 8);
      var byte := Shl(Reg(Widen(b)), 16);
      CongruentRefl(byte);
      CongruentAdds(Shl(Reg(Sum(front)), 8), Shl(Dividend(front), 8), byte, byte);
      AppendToDividend(front, b);
      FoldByteMultiplies(Sum(front), b);
      CongruentTrans(Reg(Sum(body)), Add(Shl(Reg(Sum(front)), 8), byte), Dividend(body));
    }
  }

  /** The checksum is the remainder of the dividend modulo the generator, and no other word is. */
  lemma ChecksumIsRemainder(body: seq<bv8>, r: bv16)
    ensures Congruent(Dividend(body), Reg(r)) <==> r == Sum(body)
  {
    FoldDivides(body);
    CongruentSym(Reg(Sum(body)), Dividend(body));
    if Congruent(Dividend(body), Reg(r)) {
      RemainderIsUnique(Dividend(body), Reg(r), Reg(Sum(body)));
      RegIsInjective(r, Sum(body));
    }
  }

  /** For a body of two bytes or more, 0xFFFF is added to the body's own first sixteen bits. */
  lemma DividendOfLongBody(body: seq<bv8>)
    requires |body| >= 2
    ensures Dividend(body) == Shl(Add(BodyPoly(body), Shl(Reg(INITIAL), 8 * |body| - 16)), 16)
  {
    ShlTwice(Reg(INITIAL), 8 * |body| - 16, 16);
  }

  // ---------------------------------------------------------------- error detection

  /** Two bodies share a checksum exactly when the generator divides the difference of their dividends. */
  lemma SameChecksum(a: seq<bv8>, b: seq<bv8>)
    ensures Sum(a) == Sum(b) <==> Divisible(Add(Dividend(a), Dividend(b)))
  {
    FoldDivides(a);
    FoldDivides(b);
    CongruentSym(Reg(Sum(a)), Dividend(a));
    if Sum(a) == Sum(b) {
      CongruentTrans(Dividend(a), Reg(Sum(b)), Dividend(b));
    }
    if Congruent(Dividend(a), Dividend(b)) {
      CongruentTrans(Reg(Sum(a)), Dividend(a), Dividend(b));
      CongruentSym(Reg(Sum(a)), Dividend(b));
      ChecksumIsRemainder(b, Sum(a));
    }
  }

  /** For bodies of one length it is their own difference that counts. */
  lemma SameChecksumOfOneLength(a: seq<bv8>, b: seq<bv8>)
    requires |a| == |b|
    ensures Sum(a) == Sum(b) <==> Divisible(Add(BodyPoly(a), BodyPoly(b)))
  {
    var difference := Add(BodyPoly(a), BodyPoly(b));
    assert Add(Dividend(a), Dividend(b)) == Shl(difference, 16);
    SameChecksum(a, b);
    if Divisible(Shl(difference, 16)) {
      CancelPower(difference, 16);
    }
    if Divisible(difference) {
      DivisibleShifts(difference, 16);
    }
  }

  /** The bodies have one length and differ only among `width` consecutive bits. */
  ghost predicate DifferWithin(a: seq<bv8>, b: seq<bv8>, low: nat, width: nat) {
    && |a| == |b|
    && forall k: nat :: k < 8 * |a| && BitAt(a, k) != BitAt(b, k) ==> low <= k < low + width
  }

  lemma EqualPolyEqualBody(a: seq<bv8>, b: seq<bv8>)
    requires |a| == |b| && BodyPoly(a) == BodyPoly(b)
    ensures a == b
  {
    forall i | 0 <= i < |a| ensures a[i] == b[i] {
      var base := 8 * (|a| - 1 - i);
      forall j: nat | j < 8 ensures Bit(Widen(a[i]), j) == Bit(Widen(b[i]), j) {
        var k := base + j;
        assert k / 8 == |a| - 1 - i && k % 8 == j;
        assert (k in BodyPoly(a)) == BitAt(a, k) && (k in BodyPoly(b)) == BitAt(b, k);
      }
      SameBitsSameByte(a[i], b[i]);
    }
  }

  lemma SameBitsSameByte(a: bv8, b: bv8)
    requires forall j: nat :: j < 8 ==> Bit(Widen(a), j) == Bit(Widen(b), j)
    ensures a == b
  {
    forall j: nat | j < 16 ensures Bit(Widen(a), j) == Bit(Widen(b), j) {
      ByteIsShort(a, j);
      ByteIsShort(b, j);
    }
    assert Reg(Widen(a)) == Reg(Widen(b));
    RegIsInjective(Widen(a), Widen(b));
  }

  /** No alteration confined to sixteen consecutive bits keeps the checksum. */
  lemma BurstIsDetected(a: seq<bv8>, b: seq<bv8>, low: nat)
    requires DifferWithin(a, b, low, 16)
    requires a != b
    ensures Sum(a) != Sum(b)
  {
    if Sum(a) == Sum(b) {
      SameChecksumOfOneLength(a, b);
      BurstNotDivisible(Add(BodyPoly(a), BodyPoly(b)), low);
      AddIsZero(BodyPoly(a), BodyPoly(b));
      EqualPolyEqualBody(a, b);
    }
  }

  /** One byte, or two neighbouring bytes, are sixteen consecutive bits. */
  lemma AdjacentBytesDetected(a: seq<bv8>, b: seq<bv8>, i: nat)
    requires |a| == |b| && a != b
    requires forall j :: 0 <= j < |a| && j != i && j != i + 1 ==> a[j] == b[j]
    ensures Sum(a) != Sum(b)
  {
    var low := if i + 1 < |a| then 8 * (|a| - 2 - i) else 0;
    forall k: nat | k < 8 * |a| && BitAt(a, k) != BitAt(b, k) ensures low <= k < low + 16 {
      var j := |a| - 1 - k / 8;
      assert a[j] != b[j];
    }
    BurstIsDetected(a, b, low);
  }

  /** An odd number of altered bits always changes the checksum. */
  lemma OddAlterationIsDetected(a: seq<bv8>, b: seq<bv8>)
    requires |a| == |b|
    requires OddSize(Add(BodyPoly(a), BodyPoly(b)))
    ensures Sum(a) != Sum(b)
  {
    SameChecksumOfOneLength(a, b);
    if Sum(a) == Sum(b) {
      MultipleHasEvenSize(Add(BodyPoly(a), BodyPoly(b)));
    }
  }

  function XorBytes(a: seq<bv8>, b: seq<bv8>): (c: seq<bv8>)
    requires |a| == |b|
    ensures |c| == |a|
    ensures forall i :: 0 <= i < |a| ==> c[i] == a[i] ^ b[i]
  {
    if a == [] then [] else [a[0] ^ b[0]] + XorBytes(a[1..], b[1..])
  }

  lemma XorAddsPolys(a: seq<bv8>, b: seq<bv8>)
    requires |a| == |b|
    ensures BodyPoly(XorBytes(a, b)) == Add(BodyPoly(a), BodyPoly(b))
  {
    var c := XorBytes(a, b);
    forall k: nat | k < 8 * |a| ensures BitAt(c, k) == (BitAt(a, k) != BitAt(b, k)) {
      XorAddsBits(a, b, c, k);
    }
  }

  lemma XorAddsBits(a: seq<bv8>, b: seq<bv8>, c: seq<bv8>, k: nat)
    requires |a| == |b| && c == XorBytes(a, b) && k < 8 * |a|
    ensures BitAt(c, k) == (BitAt(a, k) != BitAt(b, k))
  {
    var i := |a| - 1 - k / 8;
    MaskHasOneBit(k % 8);
    MaskAdds(Widen(a[i]), Widen(b[i]), Mask(k % 8));
  }

  // ---------------------------------------------------------------- every alteration exists

  /** One bit of a byte. */
  function ByteMask(t: nat): bv8
    requires t < 8
  {
    if t == 0 then 1 else ByteMask(t - 1) << 1
  }

  lemma WidenedMask(t: nat)
    requires t < 8
    ensures Widen(ByteMask(t)) == Mask(t)
  {
    MaskValues();
    assert ByteMask(2) == 0x04;
    assert ByteMask(4) == 0x10;
    assert ByteMask(6) == 0x40;
  }

  lemma MaskAlone(t: nat, j: nat)
    requires t < 8 && j < 8
    ensures Bit(Mask(t), j) <==> t == j
  {
    MaskValues();
  }

  /** n bytes of which only bit k is set. */
  function OneBit(n: nat, k: nat): (body: seq<bv8>)
    requires k < 8 * n
    ensures |body| == n
  {
    seq(n, i => if i == n - 1 - k / 8 then ByteMask(k % 8) else 0)
  }

  lemma OneBitIsPower(n: nat, k: nat)
    requires k < 8 * n
    ensures BodyPoly(OneBit(n, k)) == {k}
  {
    var body := OneBit(n, k);
    forall m: nat | m < 8 * n ensures BitAt(body, m) <==> m == k {
      if m / 8 == k / 8 {
        WidenedMask(k % 8);
        MaskAlone(k % 8, m % 8);
      }
    }
  }

  /** Every set of bits of a body can be the difference from another body. */
  lemma {:induction false} Altered(a: seq<bv8>, p: Poly) returns (b: seq<bv8>)
    requires forall k :: k in p ==> k < 8 * |a|
    ensures |b| == |a| && Add(BodyPoly(a), BodyPoly(b)) == p
    decreases |p|
  {
    if p == {} {
      b := a;
    } else {
      var k :| k in p;
      var c := Altered(a, p - {k});
      b := XorBytes(c, OneBit(|a|, k));
      XorAddsPolys(c, OneBit(|a|, k));
      OneBitIsPower(|a|, k);
      OneMoreBit(BodyPoly(a), BodyPoly(c), k, p);
    }
  }

  lemma OneMoreBit(a: Poly, c: Poly, k: nat, p: Poly)
    requires k in p && Add(a, c) == p - {k}
    ensures Add(a, Add(c, {k})) == p
  {
    forall m: nat ensures m in Add(a, Add(c, {k})) <==> m in p {
      assert m in Add(a, c) <==> m in p - {k};
    }
  }

  /** Sixteen is the limit: across any seventeen bits, every body has an alteration that goes unnoticed. */
  lemma SeventeenBitsCanHide(a: seq<bv8>, low: nat) returns (b: seq<bv8>)
    requires low + 16 < 8 * |a|
    ensures DifferWithin(a, b, low, 17) && a != b && Sum(a) == Sum(b)
  {
    b := Altered(a, {low + 16, low + 12, low + 5, low});
    GeneratorTerms(low);
    SameChecksumOfOneLength(a, b);
    SpreadOfGenerator(a, b, low);
  }

  lemma SpreadOfGenerator(a: seq<bv8>, b: seq<bv8>, low: nat)
    requires |a| == |b|
    requires Add(BodyPoly(a), BodyPoly(b)) == {low + 16, low + 12, low + 5, low}
    ensures DifferWithin(a, b, low, 17) && a != b
  {
    assert low in Add(BodyPoly(a), BodyPoly(b));
  }

  // ---------------------------------------------------------------- combining bodies

  /** The checksum is affine: three bodies of one length combine with exclusive or. */
  lemma ChecksumIsAffine(a: seq<bv8>, b: seq<bv8>, c: seq<bv8>)
    requires |a| == |b| == |c|
    ensures Sum(XorBytes(XorBytes(a, b), c)) == Sum(a) ^ Sum(b) ^ Sum(c)
  {
    FoldDivides(a);
    FoldDivides(b);
    FoldDivides(c);
    RegistersAdd(Sum(a), Sum(b), Sum(c), Dividend(a), Dividend(b), Dividend(c));
    DividendOfXor(a, b, c);
    ChecksumDecided(XorBytes(XorBytes(a, b), c), Sum(a) ^ Sum(b) ^ Sum(c));
  }

  lemma RegistersAdd(x: bv16, y: bv16, z: bv16, p: Poly, q: Poly, r: Poly)
    requires Congruent(Reg(x), p) && Congruent(Reg(y), q) && Congruent(Reg(z), r)
    ensures Congruent(Reg(x ^ y ^ z), Add(Add(p, q), r))
  {
    RegAdds(x, y);
    CongruentAdds(Reg(x), p, Reg(y), q);
    RegAdds(x ^ y, z);
    CongruentAdds(Reg(x ^ y), Add(p, q), Reg(z), r);
  }

  lemma ChecksumDecided(body: seq<bv8>, r: bv16)
    requires Congruent(Reg(r), Dividend(body))
    ensures r == Sum(body)
  {
    CongruentSym(Reg(r), Dividend(body));
    ChecksumIsRemainder(body, r);
  }

  lemma DividendOfXor(a: seq<bv8>, b: seq<bv8>, c: seq<bv8>)
    requires |a| == |b| == |c|
    ensures Dividend(XorBytes(XorBytes(a, b), c)) == Add(Add(Dividend(a), Dividend(b)), Dividend(c))
  {
    XorAddsPolys(a, b);
    XorAddsPolys(XorBytes(a, b), c);
    var p, q, r, init := BodyPoly(a), BodyPoly(b), BodyPoly(c), Shl(Reg(INITIAL), 8 * |a|);
  }

  // ---------------------------------------------------------------- hexadecimal rendering

  function HexDigit(n: bv16): char
    requires n < 16
  {
    if n == 0 then '0' else if n == 1 then '1' else if n == 2 then '2' else if n == 3 then '3'
    else if n == 4 then '4' else if n == 5 then '5' else if n == 6 then '6' else if n == 7 then '7'
    else if n == 8 then '8' else if n == 9 then '9' else if n == 10 then 'A' else if n == 11 then 'B'
    else if n == 12 then 'C' else if n == 13 then 'D' else if n == 14 then 'E' else 'F'
  }

  datatype Nibbles = Nibbles(n3: bv16, n2: bv16, n1: bv16, n0: bv16)

  predicate AllSmall(n: Nibbles) {
    n.n3 < 16 && n.n2 < 16 && n.n1 < 16 && n.n0 < 16
  }

  function Split(crc: bv16): (n: Nibbles)
    ensures AllSmall(n)
  {
    Nibbles(crc >> 12, (crc >> 8) & 15, (crc >> 4) & 15, crc & 15)
  }

  function Digits(n: Nibbles): string
    requires AllSmall(n)
  {
    [HexDigit(n.n3), HexDigit(n.n2), HexDigit(n.n1), HexDigit(n.n0)]
  }

  /** Four upper-case hexadecimal digits. */
  function Hex(crc: bv16): string {
    Digits(Split(crc))
  }

  lemma HexDigitIsInjective(m: bv16, n: bv16)
    requires m < 16 && n < 16 && HexDigit(m) == HexDigit(n)
    ensures m == n
  {
  }

  lemma DigitsIsInjective(m: Nibbles, n: Nibbles)
    requires AllSmall(m) && AllSmall(n) && Digits(m) == Digits(n)
    ensures m == n
  {
    var x, y := Digits(m), Digits(n);
    assert x[0] == y[0] && x[1] == y[1] && x[2] == y[2] && x[3] == y[3];
    HexDigitIsInjective(m.n3, n.n3);
    HexDigitIsInjective(m.n2, n.n2);
    HexDigitIsInjective(m.n1, n.n1);
    HexDigitIsInjective(m.n0, n.n0);
  }

  /** Different checksums are written differently. */
  lemma HexIsInjective(r: bv16, s: bv16)
    requires Hex(r) == Hex(s)
    ensures r == s
  {
    DigitsIsInjective(Split(r), Split(s));
  }
}
