/** Polynomials over GF(2), and division by the CRC generator. */
module Gf2 {

  /** A polynomial, as the set of exponents whose coefficient is one. */
  type Poly = set<nat>

  function Add(p: Poly, q: Poly): (r: Poly)
    ensures forall i :: i in r <==> ((i in p) != (i in q))
  {
    (p - q) + (q - p)
  }

  /** Multiplication by x^k. */
  function Shl(p: Poly, k: nat): (r: Poly)
    ensures forall i :: i in r <==> i >= k && i - k in p
  {
    set i | i in p :: i + k
  }

  /** Multiplication by the generator x^16 + x^12 + x^5 + 1 of section 2 of ITU-T V.41. */
  function TimesGenerator(q: Poly): Poly {
    Add(Add(Shl(q, 16), Shl(q, 12)), Add(Shl(q, 5), q))
  }

  ghost predicate Divisible(p: Poly) {
    exists q: Poly :: p == TimesGenerator(q)
  }

  ghost predicate Short(r: Poly) {
    forall i :: i in r ==> i < 16
  }

  ghost predicate Congruent(p: Poly, r: Poly) {
    Divisible(Add(p, r))
  }

  lemma TimesGeneratorAdds(p: Poly, q: Poly)
    ensures TimesGenerator(Add(p, q)) == Add(TimesGenerator(p), TimesGenerator(q))
  {
  }

  lemma ShlCommutes(p: Poly, j: nat, k: nat)
    ensures Shl(Shl(p, j), k) == Shl(Shl(p, k), j)
  {
  }

  lemma ShlTwice(p: Poly, j: nat, k: nat)
    ensures Shl(Shl(p, j), k) == Shl(p, j + k)
  {
  }

  lemma TimesGeneratorShifts(q: Poly, k: nat)
    ensures TimesGenerator(Shl(q, k)) == Shl(TimesGenerator(q), k)
  {
    ShlCommutes(q, 16, k);
    ShlCommutes(q, 12, k);
    ShlCommutes(q, 5, k);
  }

  lemma DivisibleAdds(p: Poly, r: Poly)
    requires Divisible(p) && Divisible(r)
    ensures Divisible(Add(p, r))
  {
    var q, t :| p == TimesGenerator(q) && r == TimesGenerator(t);
    TimesGeneratorAdds(q, t);
  }

  lemma DivisibleShifts(p: Poly, k: nat)
    requires Divisible(p)
    ensures Divisible(Shl(p, k))
  {
    var q :| p == TimesGenerator(q);
    TimesGeneratorShifts(q, k);
  }

  lemma CongruentAdds(p: Poly, r: Poly, q: Poly, s: Poly)
    requires Congruent(p, r) && Congruent(q, s)
    ensures Congruent(Add(p, q), Add(r, s))
  {
    DivisibleAdds(Add(p, r), Add(q, s));
    assert Add(Add(p, r), Add(q, s)) == Add(Add(p, q), Add(r, s));
  }

  lemma CongruentShifts(p: Poly, r: Poly, k: nat)
    requires Congruent(p, r)
    ensures Congruent(Shl(p, k), Shl(r, k))
  {
    DivisibleShifts(Add(p, r), k);
    assert Shl(Add(p, r), k) == Add(Shl(p, k), Shl(r, k));
  }

  lemma CongruentOneMore(next: Poly, p: Poly, q: Poly, n: nat)
    requires n > 0 && Congruent(p, Shl(q, n - 1)) && Congruent(next, Shl(p, 1))
    ensures Congruent(next, Shl(q, n))
  {
    CongruentShifts(p, Shl(q, n - 1), 1);
    ShlTwice(q, n - 1, 1);
    CongruentTrans(next, Shl(p, 1), Shl(q, n));
  }

  lemma CongruentRefl(p: Poly)
    ensures Congruent(p, p)
  {
    assert Add(p, p) == TimesGenerator({});
  }

  lemma CongruentTrans(p: Poly, q: Poly, r: Poly)
    requires Congruent(p, q) && Congruent(q, r)
    ensures Congruent(p, r)
  {
    DivisibleAdds(Add(p, q), Add(q, r));
    assert Add(Add(p, q), Add(q, r)) == Add(p, r);
  }

  lemma CongruentSym(p: Poly, r: Poly)
    requires Congruent(p, r)
    ensures Congruent(r, p)
  {
    assert Add(r, p) == Add(p, r);
  }

  lemma LargestExponent(p: Poly) returns (m: nat)
    requires p != {}
    ensures m in p && forall i :: i in p ==> i <= m
  {
    m :| m in p;
    if p != {m} {
      var n := LargestExponent(p - {m});
      assert forall i :: i in p ==> i == m || i in p - {m};
      m := if n > m then n else m;
    }
  }

  /** A nonzero multiple of the generator has degree at least 16. */
  lemma ProductDegree(q: Poly) returns (m: nat)
    requires q != {}
    ensures m >= 16 && m in TimesGenerator(q)
  {
    var n := LargestExponent(q);
    m := n + 16;
    assert m in Shl(q, 16) && m !in Shl(q, 12) && m !in Shl(q, 5) && m !in q;
  }

  lemma ShortMultipleIsZero(p: Poly)
    requires Divisible(p) && Short(p)
    ensures p == {}
  {
    var q :| p == TimesGenerator(q);
    if q != {} {
      var m := ProductDegree(q);
    }
  }

  /** Division leaves only one remainder. */
  lemma RemainderIsUnique(p: Poly, r: Poly, s: Poly)
    requires Congruent(p, r) && Short(r)
    requires Congruent(p, s) && Short(s)
    ensures r == s
  {
    CongruentSym(p, r);
    CongruentTrans(r, p, s);
    ShortMultipleIsZero(Add(r, s));
    assert forall i :: i !in Add(r, s);
  }

  /** The generator has a constant term, so it divides no more of x^k p than of p. */
  lemma {:induction false} CancelPower(p: Poly, k: nat)
    requires Divisible(Shl(p, k))
    ensures Divisible(p)
  {
    if k == 0 {
      assert Shl(p, 0) == p;
    } else {
      assert Shl(p, k) == Shl(Shl(p, k - 1), 1);
      CancelOne(Shl(p, k - 1));
      CancelPower(p, k - 1);
    }
  }

  lemma CancelOne(p: Poly)
    requires Divisible(Shl(p, 1))
    ensures Divisible(p)
  {
    var q :| Shl(p, 1) == TimesGenerator(q);
    assert 0 !in Shl(p, 1) && 0 !in Shl(q, 16) && 0 !in Shl(q, 12) && 0 !in Shl(q, 5);
    assert 0 !in q;
    var down := DivideByX(q);
    TimesGeneratorShifts(down, 1);
    ShlCancels(p, TimesGenerator(down));
  }

  /** Division by x of a polynomial without constant term. */
  function DivideByX(q: Poly): (r: Poly)
    requires 0 !in q
    ensures q == Shl(r, 1)
  {
    var r: Poly := set i | i in q :: i - 1;
    assert forall i :: i in q ==> i - 1 in r;
    r
  }

  lemma ShlCancels(p: Poly, q: Poly)
    requires Shl(p, 1) == Shl(q, 1)
    ensures p == q
  {
    forall i ensures i in p <==> i in q {
      assert i in p <==> i + 1 in Shl(p, 1);
    }
  }

  /** Division by x^low of a polynomial with no term below it. */
  function DropPower(p: Poly, low: nat): (r: Poly)
    requires forall k :: k in p ==> k >= low
    ensures p == Shl(r, low)
  {
    var r: Poly := set k | k in p :: k - low;
    assert forall k :: k in p ==> k - low in r;
    r
  }

  lemma ShortAfterDrop(r: Poly, low: nat)
    requires forall k :: k in Shl(r, low) ==> k < low + 16
    ensures Short(r)
  {
    forall i | i in r ensures i < 16 {
      assert i + low in Shl(r, low);
    }
  }

  /** No nonzero polynomial spread over sixteen exponents is a multiple of the generator. */
  lemma BurstNotDivisible(p: Poly, low: nat)
    requires forall k :: k in p ==> low <= k < low + 16
    requires Divisible(p)
    ensures p == {}
  {
    var window := DropPower(p, low);
    ShortAfterDrop(window, low);
    CancelPower(window, low);
    ShortMultipleIsZero(window);
  }

  lemma GeneratorTerms(low: nat)
    ensures TimesGenerator({low}) == {low + 16, low + 12, low + 5, low}
  {
    assert Shl({low}, 16) == {low + 16};
    assert Shl({low}, 12) == {low + 12};
    assert Shl({low}, 5) == {low + 5};
  }

  lemma AddIsZero(p: Poly, q: Poly)
    requires Add(p, q) == {}
    ensures p == q
  {
    assert forall k :: k !in Add(p, q);
  }

  predicate OddSize(p: Poly) {
    |p| % 2 == 1
  }

  lemma AddSize(p: Poly, q: Poly)
    ensures OddSize(Add(p, q)) == (OddSize(p) != OddSize(q))
  {
    SizeOfParts(p, q);
    SizeOfParts(q, p);
    assert p * q == q * p;
    assert |Add(p, q)| == |p - q| + |q - p|;
  }

  lemma SizeOfParts(p: Poly, q: Poly)
    ensures |p| == |p - q| + |p * q|
  {
    assert p == (p - q) + (p * q);
  }

  lemma {:induction false} ShlSize(p: Poly, k: nat)
    ensures |Shl(p, k)| == |p|
  {
    if p == {} {
      assert Shl(p, k) == {};
    } else {
      var i :| i in p;
      assert Shl(p, k) == Shl(p - {i}, k) + {i + k};
      ShlSize(p - {i}, k);
    }
  }

  /** The generator has an even number of terms, and so has each of its multiples. */
  lemma MultipleHasEvenSize(p: Poly)
    requires Divisible(p)
    ensures !OddSize(p)
  {
    var q :| p == TimesGenerator(q);
    SizeOfProduct(q);
  }

  lemma SizeOfProduct(q: Poly)
    ensures !OddSize(TimesGenerator(q))
  {
    var high, low := Add(Shl(q, 16), Shl(q, 12)), Add(Shl(q, 5), q);
    assert !OddSize(high) by {
      AddSize(Shl(q, 16), Shl(q, 12));
      ShlSize(q, 16);
      ShlSize(q, 12);
    }
    assert !OddSize(low) by {
      AddSize(Shl(q, 5), q);
      ShlSize(q, 5);
    }
    AddSize(high, low);
  }
}
