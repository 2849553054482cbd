/** The delay before a retry: doubled from attempt to attempt, in 64-bit nanoseconds. */
module Backoff {
  import opened GoLib
  import opened Ordering

  /** The delay after n doublings, None once the loop has left it for the ceiling. */
  function Doubling(base: int, n: nat): Option<int> {
    if n == 0 then Some(base)
    else
      match Doubling(base, n - 1)
      case None => None
      case Some(d) =>
        var twice := Wrap64(2 * d);
        if twice > MINUTE then None else Some(twice)
  }

  function Delay(base: int, attempt: int): int {
    match Doubling(base, if attempt < 1 then 0 else attempt - 1)
    case None => MINUTE
    case Some(d) => d
  }

  method ComputeDelay(base: int, attempt: int) returns (d: int)
    ensures d == Delay(base, attempt)
  {
    d := base;
    var i := 1;
    while i < attempt
      invariant i == 1 || 1 < i <= attempt
      invariant Doubling(base, i - 1) == Some(d)
    {
      d := Wrap64(d * 2);
      if d > MINUTE {
        StaysCapped(base, i, attempt - 1);
        return MINUTE;
      }
      i := i + 1;
    }
  }

  lemma {:induction false} StaysCapped(base: int, n: nat, m: nat)
    requires Doubling(base, n).None? && n <= m
    ensures Doubling(base, m).None?
  {
    if n < m {
      StaysCapped(base, n, m - 1);
    }
  }

  // ---------------------------------------------------------------- what the loop computes

  function Pow2(n: nat): (p: nat)
    ensures p >= 1
  {
    if n == 0 then 1 else 2 * Pow2(n - 1)
  }

  const TWO_62 := 0x4000_0000_0000_0000

  lemma DoublingStep(base: int, n: nat, p: int)
    requires n >= 1 && 0 < p
    requires Doubling(base, n - 1) == (if p <= MINUTE || n == 1 then Some(p) else None) && (n == 1 ==> p < TWO_62)
    ensures Doubling(base, n) == if 2 * p <= MINUTE then Some(2 * p) else None
  {
  }

  lemma PowerStep(base: int, n: nat)
    requires n >= 1 && base > 0
    ensures base * Pow2(n) == 2 * (base * Pow2(n - 1)) && base * Pow2(n - 1) > 0 && (n == 1 ==> base * Pow2(n - 1) == base)
  {
    var p := Pow2(n - 1);
    assert base * (2 * p) == 2 * (base * p);
  }

  /** No doubling on the way leaves the 64-bit range. */
  lemma {:induction false} DoublingClosedForm(base: int, n: nat)
    requires 0 < base < TWO_62
    ensures n >= 1 ==> Doubling(base, n) == if base * Pow2(n) <= MINUTE then Some(base * Pow2(n)) else None
    ensures n == 0 ==> Doubling(base, n) == Some(base * Pow2(n))
  {
    if n > 0 {
      DoublingClosedForm(base, n - 1);
      PowerStep(base, n);
      DoublingStep(base, n, base * Pow2(n - 1));
    }
  }

  /** Below 2^62 ns the first delay is the base itself, and every later one is the base doubled for
      each attempt, cut at one minute. */
  lemma DelayClosedForm(base: int, attempt: int)
    requires 0 < base < TWO_62 && attempt >= 1
    ensures Delay(base, attempt) == if attempt == 1 then base else Min(base * Pow2(attempt - 1), 60_000_000_000)
  {
    DoublingClosedForm(base, attempt - 1);
  }

  lemma SecondDelayWraps(base: int)
    requires TWO_62 <= base < TWO_63
    ensures Delay(base, 2) < 0
  {
    assert Doubling(base, 1) == Some(Wrap64(2 * base)) by {
      assert Doubling(base, 0) == Some(base);
      assert Wrap64(2 * base) == 2 * base - TWO_64;
    }
  }

  /** A retry always lies in the future exactly when the base is below 2^62 ns. */
  lemma DelayIsPositive(base: int)
    requires 0 < base < TWO_63
    ensures base < TWO_62 <==> forall attempt :: attempt >= 1 ==> Delay(base, attempt) > 0
  {
    if base < TWO_62 {
      forall attempt | attempt >= 1 ensures Delay(base, attempt) > 0 {
        DelayClosedForm(base, attempt);
      }
    } else {
      SecondDelayWraps(base);
    }
  }

  /** The ceiling of one minute holds for every attempt exactly when the base respects it itself:
      the first delay is never cut. */
  lemma CeilingHolds(base: int)
    requires 0 < base < TWO_63
    ensures base <= MINUTE <==> forall attempt :: attempt >= 1 ==> Delay(base, attempt) <= MINUTE
  {
    if base <= MINUTE {
      forall attempt | attempt >= 1 ensures Delay(base, attempt) <= MINUTE {
        DelayClosedForm(base, attempt);
      }
    } else {
      assert Delay(base, 1) == base;
    }
  }

  lemma {:induction false} Pow2Grows(m: nat, n: nat)
    requires m <= n
    ensures Pow2(m) <= Pow2(n)
  {
    if m < n {
      Pow2Grows(m, n - 1);
    }
  }

  lemma GrowsWithin(base: int, a: int, b: int)
    requires 0 < base <= MINUTE && 1 <= a <= b
    ensures base <= Delay(base, a) <= Delay(base, b) <= MINUTE
  {
    DelayClosedForm(base, a);
    DelayClosedForm(base, b);
    Pow2Grows(a - 1, b - 1);
    MulGrows(base, 1, Pow2(a - 1));
    MulGrows(base, Pow2(a - 1), Pow2(b - 1));
  }

  lemma MulGrows(k: int, m: int, n: int)
    requires 0 < k && m <= n
    ensures k * m <= k * n
  {
  }

  /** The delays never shrink from one attempt to the next under the same condition. */
  lemma DelayNeverShrinks(base: int)
    requires 0 < base < TWO_63
    ensures base <= MINUTE <==> forall a, b :: 1 <= a <= b ==> Delay(base, a) <= Delay(base, b)
  {
    if base <= MINUTE {
      forall a, b | 1 <= a <= b ensures Delay(base, a) <= Delay(base, b) {
        GrowsWithin(base, a, b);
      }
    } else {
      assert Delay(base, 1) == base;
      if base < TWO_62 {
        DelayClosedForm(base, 2);
      } else {
        SecondDelayWraps(base);
      }
    }
  }
}
