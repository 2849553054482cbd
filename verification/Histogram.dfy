/** The latency histogram, against the plain sequence of what was observed. */
module Histogram {
  import opened GoLib

  /** The i-th bound is the first that x does not exceed. */
  predicate FirstFit(bounds: seq<Float>, x: Float, i: nat) {
    i < |bounds| && FloatLessEq(x, bounds[i]) && forall j :: 0 <= j < i ==> !FloatLessEq(x, bounds[j])
  }

  predicate Exceeds(bounds: seq<Float>, x: Float) {
    bounds != [] && FloatLess(bounds[|bounds| - 1], x)
  }

  /** Slot i takes an observation: below the last slot the first bound that fits, the last one what
      exceeds the last bound. */
  predicate Lands(bounds: seq<Float>, x: Float, i: nat) {
    if i < |bounds| then FirstFit(bounds, x, i) else i == |bounds| && Exceeds(bounds, x)
  }

  function SlotCount(bounds: seq<Float>, seen: seq<Float>, i: nat): nat {
    if seen == [] then 0
    else SlotCount(bounds, seen[..|seen| - 1], i) + (if Lands(bounds, seen[|seen| - 1], i) then 1 else 0)
  }

  /** How many observations are at most b. */
  function AtMost(seen: seq<Float>, b: Float): nat {
    if seen == [] then 0
    else AtMost(seen[..|seen| - 1], b) + (if FloatLessEq(seen[|seen| - 1], b) then 1 else 0)
  }

  /** The observations added up one after another, with the rounding of the given addition. */
  function Total(add: (Float, Float) -> Float, seen: seq<Float>): Float {
    if seen == [] then Fin(false, 0.0) else add(Total(add, seen[..|seen| - 1]), seen[|seen| - 1])
  }

  // ---------------------------------------------------------------- the code

  class Histogram {
    const add: (Float, Float) -> Float
    const bounds: seq<Float>
    const counts: array<nat>
    var sum: Float
    var count: nat
    ghost var seen: seq<Float>

    ghost predicate Valid()
      reads this, counts
    {
      && counts.Length == |bounds| + 1
      && (forall i :: 0 <= i < counts.Length ==> counts[i] == SlotCount(bounds, seen, i))
      && count == |seen| && sum == Total(add, seen)
    }

    constructor (bounds: seq<Float>, add: (Float, Float) -> Float)
      ensures Valid() && fresh(counts) && this.bounds == bounds && this.add == add && seen == []
    {
      this.bounds, this.add := bounds, add;
      counts := new nat[|bounds| + 1](_ => 0);
      sum, count, seen := Fin(false, 0.0), 0, [];
    }

    /** The last bound is indexed, so there must be one. */
    method Observe(seconds: Float)
      requires Valid() && bounds != []
      modifies this, counts
      ensures Valid() && seen == old(seen) + [seconds]
    {
      sum := add(sum, seconds);
      count := count + 1;
      ghost var before := counts[..];
      var i := 0;
      while i < |bounds| && !FloatLessEq(seconds, bounds[i])
        invariant i <= |bounds|
        invariant forall j :: 0 <= j < i ==> !FloatLessEq(seconds, bounds[j])
      {
        i := i + 1;
      }
      if i < |bounds| {
        counts[i] := counts[i] + 1;
      }
      if FloatLess(bounds[|bounds| - 1], seconds) {
        counts[counts.Length - 1] := counts[counts.Length - 1] + 1;
      }
      seen := seen + [seconds];
      assert seen[..|seen| - 1] == old(seen);
    }

    /** The cumulative buckets in the order of the bounds, the one for +Inf, the sum and the count. */
    method Render() returns (buckets: seq<nat>, all: nat, total: Float, number: nat)
      requires Valid()
      ensures |buckets| == |bounds|
      ensures forall i :: 0 <= i < |bounds| ==> buckets[i] == Cumulative(bounds, seen, i + 1)
      ensures all == Cumulative(bounds, seen, |bounds| + 1)
      ensures total == Total(add, seen) && number == |seen|
    {
      var cum := 0;
      buckets := [];
      for i := 0 to |bounds|
        invariant |buckets| == i && cum == Cumulative(bounds, seen, i)
        invariant forall j :: 0 <= j < i ==> buckets[j] == Cumulative(bounds, seen, j + 1)
      {
        cum := cum + counts[i];
        buckets := buckets + [cum];
      }
      all := cum + counts[counts.Length - 1];
      total, number := sum, count;
    }
  }

  /** The first n slots together. */
  function Cumulative(bounds: seq<Float>, seen: seq<Float>, n: nat): nat {
    if n == 0 then 0 else Cumulative(bounds, seen, n - 1) + SlotCount(bounds, seen, n - 1)
  }

  // ---------------------------------------------------------------- every observation in one slot

  /** Every number has a slot. */
  ghost predicate Complete(bounds: seq<Float>) {
    forall x: Float :: !x.NaN? ==> exists i: nat :: Lands(bounds, x, i)
  }

  /** No number has two. */
  ghost predicate Disjoint(bounds: seq<Float>) {
    forall x: Float, i: nat, j: nat :: Lands(bounds, x, i) && Lands(bounds, x, j) ==> i == j
  }

  /** The last bound is a number, or some bound is +Inf. */
  predicate Covers(bounds: seq<Float>)
    requires bounds != []
  {
    !bounds[|bounds| - 1].NaN? || Inf(false) in bounds
  }

  predicate LastIsGreatest(bounds: seq<Float>)
    requires bounds != []
  {
    forall b :: b in bounds ==> !FloatLess(bounds[|bounds| - 1], b)
  }

  /** Exactly when the bounds cover the numbers does each have a slot, and exactly when no bound exceeds
      the last does none have two; a NaN never has one. */
  lemma OneSlotExactly(bounds: seq<Float>)
    requires bounds != []
    ensures Complete(bounds) <==> Covers(bounds)
    ensures Disjoint(bounds) <==> LastIsGreatest(bounds)
    ensures forall i: nat :: !Lands(bounds, NaN, i)
  {
    CompleteExactly(bounds);
    DisjointExactly(bounds);
  }

  lemma CompleteExactly(bounds: seq<Float>)
    requires bounds != []
    ensures Complete(bounds) <==> Covers(bounds)
  {
    if Covers(bounds) {
      forall x: Float | !x.NaN? ensures exists i: nat :: Lands(bounds, x, i) {
        var i := SlotOf(bounds, x);
      }
    }
    if Complete(bounds) && bounds[|bounds| - 1].NaN? {
      var i: nat :| Lands(bounds, Inf(false), i);
      assert bounds[i] == Inf(false);
    }
  }

  lemma SlotOf(bounds: seq<Float>, x: Float) returns (i: nat)
    requires bounds != [] && Covers(bounds) && !x.NaN?
    ensures Lands(bounds, x, i)
  {
    var last := |bounds| - 1;
    if Exceeds(bounds, x) {
      i := |bounds|;
    } else if bounds[last].NaN? {
      var n: nat :| n < |bounds| && bounds[n] == Inf(false);
      i := SomeFit(bounds, x, n);
    } else {
      i := SomeFit(bounds, x, last);
    }
  }

  lemma {:induction false} SomeFit(bounds: seq<Float>, x: Float, n: nat) returns (i: nat)
    requires n < |bounds| && FloatLessEq(x, bounds[n])
    ensures i <= n && FirstFit(bounds, x, i)
  {
    i := 0;
    while !FloatLessEq(x, bounds[i])
      invariant i <= n && forall j :: 0 <= j < i ==> !FloatLessEq(x, bounds[j])
      decreases n - i
    {
      i := i + 1;
    }
  }

  lemma DisjointExactly(bounds: seq<Float>)
    requires bounds != []
    ensures Disjoint(bounds) <==> LastIsGreatest(bounds)
  {
    if LastIsGreatest(bounds) {
      forall x: Float, i: nat, j: nat | Lands(bounds, x, i) && Lands(bounds, x, j) ensures i == j {
        if i < |bounds| {
          assert bounds[i] in bounds;
        }
        if j < |bounds| {
          assert bounds[j] in bounds;
        }
      }
    }
    if n: nat :| n < |bounds| && FloatLess(bounds[|bounds| - 1], bounds[n]) {
      var i := SomeFit(bounds, bounds[n], n);
      assert Lands(bounds, bounds[n], i) && Lands(bounds, bounds[n], |bounds|);
    }
  }

  // ---------------------------------------------------------------- what the buckets count

  /** How many of the first n slots take x. */
  function Taken(bounds: seq<Float>, x: Float, n: nat): nat {
    if n == 0 then 0 else Taken(bounds, x, n - 1) + (if Lands(bounds, x, n - 1) then 1 else 0)
  }

  /** x is at most one of the first n bounds. */
  predicate Fits(bounds: seq<Float>, x: Float, n: nat)
    requires n <= |bounds|
  {
    exists j :: 0 <= j < n && FloatLessEq(x, bounds[j])
  }

  lemma {:induction false} OneMoreSeen(bounds: seq<Float>, seen: seq<Float>, x: Float, n: nat)
    ensures Cumulative(bounds, seen + [x], n) == Cumulative(bounds, seen, n) + Taken(bounds, x, n)
  {
    if n > 0 {
      OneMoreSeen(bounds, seen, x, n - 1);
      assert (seen + [x])[..|seen|] == seen;
    }
  }

  lemma {:induction false} TakenOnce(bounds: seq<Float>, x: Float, n: nat)
    requires n <= |bounds|
    ensures Taken(bounds, x, n) == if Fits(bounds, x, n) then 1 else 0
  {
    if n > 0 {
      TakenOnce(bounds, x, n - 1);
    }
  }

  lemma {:induction false} NothingSeen(bounds: seq<Float>, n: nat)
    ensures Cumulative(bounds, [], n) == 0
  {
    if n > 0 {
      NothingSeen(bounds, n - 1);
    }
  }

  lemma SeenOnce(bounds: seq<Float>, x: Float, n: nat)
    ensures Cumulative(bounds, [x], n) == Taken(bounds, x, n)
  {
    NothingSeen(bounds, n);
    OneMoreSeen(bounds, [], x, n);
    assert [] + [x] == [x];
  }

  /** The i-th bucket is the number of observations at most the i-th bound, whatever was observed. */
  ghost predicate BucketsCount(bounds: seq<Float>) {
    forall seen: seq<Float>, i: nat :: i < |bounds| ==> Cumulative(bounds, seen, i + 1) == AtMost(seen, bounds[i])
  }

  /** No number stands before a smaller one or a NaN. */
  predicate Climbs(bounds: seq<Float>) {
    forall i, j :: 0 <= i < j < |bounds| ==> bounds[i].NaN? || FloatLessEq(bounds[i], bounds[j])
  }

  /** The buckets count what their bounds say exactly when the bounds do not descend. */
  lemma BucketsCountExactly(bounds: seq<Float>)
    ensures BucketsCount(bounds) <==> Climbs(bounds)
  {
    if Climbs(bounds) {
      forall seen: seq<Float>, i: nat | i < |bounds|
        ensures Cumulative(bounds, seen, i + 1) == AtMost(seen, bounds[i])
      {
        BucketCounts(bounds, seen, i);
      }
    }
    if BucketsCount(bounds) {
      forall i, j | 0 <= i < j < |bounds| && !bounds[i].NaN? ensures FloatLessEq(bounds[i], bounds[j]) {
        DescentIsMiscounted(bounds, i, j);
      }
    }
  }

  lemma {:induction false} BucketCounts(bounds: seq<Float>, seen: seq<Float>, i: nat)
    requires Climbs(bounds) && i < |bounds|
    ensures Cumulative(bounds, seen, i + 1) == AtMost(seen, bounds[i])
    decreases |seen|
  {
    if seen == [] {
      NothingSeen(bounds, i + 1);
    } else {
      var n := |seen| - 1;
      BucketCounts(bounds, seen[..n], i);
      OneMoreSeen(bounds, seen[..n], seen[n], i + 1);
      TakenOnce(bounds, seen[n], i + 1);
      FitsByBound(bounds, seen[n], i);
      assert seen == seen[..n] + [seen[n]];
    }
  }

  lemma FitsByBound(bounds: seq<Float>, x: Float, i: nat)
    requires Climbs(bounds) && i < |bounds|
    ensures Fits(bounds, x, i + 1) <==> FloatLessEq(x, bounds[i])
  {
    if j: nat :| j < i && FloatLessEq(x, bounds[j]) {
      assert FloatLessEq(bounds[j], bounds[i]);
    }
  }

  /** One observation at a bound shows a later bound that is smaller. */
  lemma DescentIsMiscounted(bounds: seq<Float>, i: nat, j: nat)
    requires i < j < |bounds| && !bounds[i].NaN?
    requires Cumulative(bounds, [bounds[i]], j + 1) == AtMost([bounds[i]], bounds[j])
    ensures FloatLessEq(bounds[i], bounds[j])
  {
    var x := bounds[i];
    SeenOnce(bounds, x, j + 1);
    TakenOnce(bounds, x, j + 1);
    assert FloatLessEq(x, bounds[i]);
    assert [x][..0] == [];
  }

  /** The +Inf bucket equals the count exactly when no NaN was observed, whatever was observed. */
  ghost predicate InfCounts(bounds: seq<Float>) {
    forall seen: seq<Float> :: Cumulative(bounds, seen, |bounds| + 1) == |seen| <==> NaN !in seen
  }

  lemma InfCountsExactly(bounds: seq<Float>)
    requires bounds != []
    ensures InfCounts(bounds) <==> Covers(bounds) && LastIsGreatest(bounds)
  {
    if Covers(bounds) && LastIsGreatest(bounds) {
      forall seen: seq<Float> ensures Cumulative(bounds, seen, |bounds| + 1) == |seen| <==> NaN !in seen {
        InfBucketCounts(bounds, seen);
      }
    }
    if InfCounts(bounds) {
      OneSlotExactly(bounds);
      forall x: Float | !x.NaN? ensures Taken(bounds, x, |bounds| + 1) == 1 {
        SeenOnce(bounds, x, |bounds| + 1);
        assert NaN !in [x];
      }
      TakenOnceIsOneSlot(bounds);
    }
  }

  lemma {:induction false} InfBucketCounts(bounds: seq<Float>, seen: seq<Float>)
    requires bounds != [] && Covers(bounds) && LastIsGreatest(bounds)
    ensures Cumulative(bounds, seen, |bounds| + 1) <= |seen|
    ensures Cumulative(bounds, seen, |bounds| + 1) == |seen| <==> NaN !in seen
    decreases |seen|
  {
    if seen == [] {
      NothingSeen(bounds, |bounds| + 1);
    } else {
      var n := |seen| - 1;
      InfBucketCounts(bounds, seen[..n]);
      OneMoreSeen(bounds, seen[..n], seen[n], |bounds| + 1);
      TakenBySlots(bounds, seen[n]);
      assert seen == seen[..n] + [seen[n]];
    }
  }

  lemma TakenBySlots(bounds: seq<Float>, x: Float)
    requires bounds != [] && Covers(bounds) && LastIsGreatest(bounds)
    ensures Taken(bounds, x, |bounds| + 1) == if x.NaN? then 0 else 1
  {
    TakenOnce(bounds, x, |bounds|);
    OneSlotExactly(bounds);
    if !x.NaN? {
      var i := SlotOf(bounds, x);
      if Fits(bounds, x, |bounds|) {
        var j: nat :| j < |bounds| && FloatLessEq(x, bounds[j]);
        var k := SomeFit(bounds, x, j);
        assert Lands(bounds, x, k);
      }
    }
  }

  lemma TakenOnceIsOneSlot(bounds: seq<Float>)
    requires bounds != [] && forall x: Float :: !x.NaN? ==> Taken(bounds, x, |bounds| + 1) == 1
    ensures Covers(bounds) && LastIsGreatest(bounds)
  {
    var last := bounds[|bounds| - 1];
    if last.NaN? {
      var x := Inf(false);
      TakenOnce(bounds, x, |bounds|);
      assert !Lands(bounds, x, |bounds|);
      assert Taken(bounds, x, |bounds| + 1) == 1;
      var j: nat :| j < |bounds| && FloatLessEq(x, bounds[j]);
      assert bounds[j] == x;
    }
    forall b | b in bounds ensures !FloatLess(last, b) {
      var n: nat :| n < |bounds| && bounds[n] == b;
      TakenTwice(bounds, n);
    }
  }

  lemma TakenTwice(bounds: seq<Float>, n: nat)
    requires n < |bounds|
    ensures FloatLess(bounds[|bounds| - 1], bounds[n]) ==> Taken(bounds, bounds[n], |bounds| + 1) == 2
  {
    TakenOnce(bounds, bounds[n], |bounds|);
    assert !bounds[n].NaN? ==> FloatLessEq(bounds[n], bounds[n]);
  }

  // ---------------------------------------------------------------- the bounds the program uses

  const DEFAULT_BOUNDS := [
    Fin(false, 0.005), Fin(false, 0.01), Fin(false, 0.025), Fin(false, 0.05), Fin(false, 0.1), Fin(false, 0.25),
    Fin(false, 0.5), Fin(false, 1.0), Fin(false, 2.5), Fin(false, 5.0), Fin(false, 10.0)]

  lemma {:induction false} StepsAscend(bounds: seq<Float>, i: nat, j: nat)
    requires i < j < |bounds| && forall k :: 0 < k < |bounds| ==> FloatLess(bounds[k - 1], bounds[k])
    ensures FloatLess(bounds[i], bounds[j])
  {
    if i < j - 1 {
      StepsAscend(bounds, i, j - 1);
    }
  }

  /** They have all of these properties. */
  lemma DefaultBoundsCount()
    ensures Complete(DEFAULT_BOUNDS) && Disjoint(DEFAULT_BOUNDS)
    ensures BucketsCount(DEFAULT_BOUNDS) && InfCounts(DEFAULT_BOUNDS)
  {
    forall i, j | 0 <= i < j < |DEFAULT_BOUNDS| ensures FloatLess(DEFAULT_BOUNDS[i], DEFAULT_BOUNDS[j]) {
      StepsAscend(DEFAULT_BOUNDS, i, j);
    }
    OneSlotExactly(DEFAULT_BOUNDS);
    BucketsCountExactly(DEFAULT_BOUNDS);
    InfCountsExactly(DEFAULT_BOUNDS);
  }
}
