/** Strict orders, and the one ascending arrangement of a finite set. */
module Ordering {

  ghost predicate StrictTotal<T(!new)>(lt: (T, T) -> bool, S: set<T>) {
    && (forall x :: x in S ==> !lt(x, x))
    && (forall x, y, z :: x in S && y in S && z in S && lt(x, y) && lt(y, z) ==> lt(x, z))
    && (forall x, y :: x in S && y in S && x != y ==> lt(x, y) || lt(y, x))
  }

  ghost predicate Ascending<T(!new)>(lt: (T, T) -> bool, xs: seq<T>) {
    forall i, j :: 0 <= i < j < |xs| ==> lt(xs[i], xs[j])
  }

  ghost function Elements<T>(xs: seq<T>): set<T> {
    set x | x in xs
  }

  ghost predicate IsLeast<T(!new)>(lt: (T, T) -> bool, S: set<T>, m: T) {
    m in S && forall y :: y in S && y != m ==> lt(m, y)
  }

  lemma {:induction false} LeastExists<T(!new)>(lt: (T, T) -> bool, S: set<T>) returns (m: T)
    requires S != {} && StrictTotal(lt, S)
    ensures IsLeast(lt, S, m)
    decreases |S|
  {
    var x :| x in S;
    var rest := S - {x};
    m := x;
    if rest != {} {
      var r := LeastExists(lt, rest);
      m := if lt(x, r) then x else r;
      LesserIsLeast(lt, S, x, r, m);
    } else {
      assert S == {x};
    }
  }

  lemma LesserIsLeast<T(!new)>(lt: (T, T) -> bool, S: set<T>, x: T, r: T, m: T)
    requires StrictTotal(lt, S) && x in S && IsLeast(lt, S - {x}, r)
    requires m == if lt(x, r) then x else r
    ensures IsLeast(lt, S, m)
  {
    forall y | y in S && y != m ensures lt(m, y) {
      assert y == x || y in S - {x};
    }
  }

  lemma HasLeast<T(!new)>(lt: (T, T) -> bool, S: set<T>)
    requires S != {} && StrictTotal(lt, S)
    ensures exists m :: IsLeast(lt, S, m)
  {
    var m := LeastExists(lt, S);
  }

  /** The members of S in ascending order. */
  ghost function Ranked<T(!new)>(lt: (T, T) -> bool, S: set<T>): (r: seq<T>)
    requires StrictTotal(lt, S)
  {
    if S == {} then []
    else
      HasLeast(lt, S);
      var m :| IsLeast(lt, S, m);
      [m] + Ranked(lt, S - {m})
  }

  lemma {:induction false} RankedIsAscending<T(!new)>(lt: (T, T) -> bool, S: set<T>)
    requires StrictTotal(lt, S)
    ensures Ascending(lt, Ranked(lt, S)) && Elements(Ranked(lt, S)) == S && |Ranked(lt, S)| == |S|
  {
    if S != {} {
      var m := Ranked(lt, S)[0];
      var rest := Ranked(lt, S - {m});
      RankedIsAscending(lt, S - {m});
      assert Ranked(lt, S) == [m] + rest;
      forall i, j | 0 <= i < j < |rest| + 1 ensures lt(Ranked(lt, S)[i], Ranked(lt, S)[j]) {
        assert rest[j - 1] in Elements(rest);
      }
      assert Elements(Ranked(lt, S)) == {m} + Elements(rest);
    }
  }

  /** There is one ascending arrangement: this is what makes an unstable sort deterministic. */
  lemma {:induction false} AscendingIsUnique<T(!new)>(lt: (T, T) -> bool, xs: seq<T>, ys: seq<T>)
    requires StrictTotal(lt, Elements(xs))
    requires Ascending(lt, xs) && Ascending(lt, ys) && Elements(xs) == Elements(ys)
    ensures xs == ys
    decreases |xs|
  {
    EmptyElements(xs);
    EmptyElements(ys);
    if xs != [] {
      TailElements(lt, xs);
      TailElements(lt, ys);
      AscendingIsUnique(lt, xs[1..], ys[1..]);
      assert xs == [xs[0]] + xs[1..] == ys;
    }
  }

  lemma EmptyElements<T>(xs: seq<T>)
    ensures Elements(xs) == {} <==> xs == []
  {
    if xs != [] {
      assert xs[0] in Elements(xs);
    }
  }

  lemma TailElements<T(!new)>(lt: (T, T) -> bool, xs: seq<T>)
    requires xs != [] && Ascending(lt, xs) && StrictTotal(lt, Elements(xs))
    ensures Elements(xs[1..]) == Elements(xs) - {xs[0]}
    ensures Ascending(lt, xs[1..]) && StrictTotal(lt, Elements(xs[1..]))
  {
    assert xs == [xs[0]] + xs[1..];
    assert xs[0] in Elements(xs);
    assert forall y :: y in xs[1..] ==> lt(xs[0], y);
  }

  lemma RankedIsUnique<T(!new)>(lt: (T, T) -> bool, S: set<T>, xs: seq<T>)
    requires StrictTotal(lt, S) && Ascending(lt, xs) && Elements(xs) == S
    ensures xs == Ranked(lt, S)
  {
    RankedIsAscending(lt, S);
    AscendingIsUnique(lt, xs, Ranked(lt, S));
  }

  lemma AscendingHasNoDuplicates<T(!new)>(lt: (T, T) -> bool, xs: seq<T>)
    requires Ascending(lt, xs) && StrictTotal(lt, Elements(xs))
    ensures forall i, j :: 0 <= i < j < |xs| ==> xs[i] != xs[j]
  {
    forall i, j | 0 <= i < j < |xs| ensures xs[i] != xs[j] {
      assert xs[i] in Elements(xs);
    }
  }

  function Without<T(==)>(xs: seq<T>, x: T): seq<T> {
    if xs == [] then [] else if xs[0] == x then Without(xs[1..], x) else [xs[0]] + Without(xs[1..], x)
  }

  lemma {:induction false} WithoutKeepsOrder<T(!new)>(lt: (T, T) -> bool, xs: seq<T>, x: T)
    requires Ascending(lt, xs)
    ensures Ascending(lt, Without(xs, x)) && Elements(Without(xs, x)) == Elements(xs) - {x}
  {
    if xs != [] {
      WithoutKeepsOrder(lt, xs[1..], x);
      var rest := Without(xs[1..], x);
      assert Elements(xs) == {xs[0]} + Elements(xs[1..]) by {
        assert xs == [xs[0]] + xs[1..];
      }
      if xs[0] != x {
        assert Without(xs, x) == [xs[0]] + rest;
        assert Elements(Without(xs, x)) == {xs[0]} + Elements(rest);
        forall j | 0 <= j < |rest| ensures lt(xs[0], rest[j]) {
          assert rest[j] in Elements(rest) && rest[j] in xs[1..];
        }
      }
    }
  }

  /** Taking a member out of the set takes it out of the ranking and moves nothing else. */
  lemma RankedWithout<T(!new)>(lt: (T, T) -> bool, S: set<T>, x: T)
    requires StrictTotal(lt, S)
    ensures StrictTotal(lt, S - {x}) && Ranked(lt, S - {x}) == Without(Ranked(lt, S), x)
  {
    RankedIsAscending(lt, S);
    WithoutKeepsOrder(lt, Ranked(lt, S), x);
    RankedIsUnique(lt, S - {x}, Without(Ranked(lt, S), x));
  }

  function Min(a: int, b: int): int {
    if a < b then a else b
  }

  /** The n smallest members. */
  ghost function FirstOf<T(!new)>(lt: (T, T) -> bool, S: set<T>, n: nat): (r: seq<T>)
    requires StrictTotal(lt, S)
  {
    var r := Ranked(lt, S);
    if n <= |r| then r[..n] else r
  }

  /** What is left out comes behind everything that is taken, and is left out only for want of room. */
  lemma FirstOfIsLowest<T(!new)>(lt: (T, T) -> bool, S: set<T>, n: nat)
    requires StrictTotal(lt, S)
    ensures
      var taken := FirstOf(lt, S, n);
      && Elements(taken) <= S && |taken| == |Elements(taken)| == (if n <= |S| then n else |S|)
      && Ascending(lt, taken)
      && forall x, y :: x in S && x !in taken && y in taken ==> lt(y, x)
  {
    var r, taken := Ranked(lt, S), FirstOf(lt, S, n);
    RankedIsAscending(lt, S);
    assert Elements(taken) <= Elements(r);
    AscendingHasNoDuplicates(lt, r);
    DistinctCount(taken);
    forall x, y | x in S && x !in taken && y in taken ensures lt(y, x) {
      assert x in Elements(r);
      var i :| 0 <= i < |r| && r[i] == x;
      var j :| 0 <= j < |taken| && taken[j] == y;
      assert taken[j] == r[j];
    }
  }

  lemma {:induction false} DistinctCount<T>(xs: seq<T>)
    requires forall i, j :: 0 <= i < j < |xs| ==> xs[i] != xs[j]
    ensures |Elements(xs)| == |xs|
  {
    if xs != [] {
      var n := |xs| - 1;
      DistinctCount(xs[..n]);
      assert xs == xs[..n] + [xs[n]];
      assert Elements(xs) == Elements(xs[..n]) + {xs[n]};
    }
  }

  /** ORDER BY a strict order. */
  method OrderBy<T(!new)>(lt: (T, T) -> bool, xs: seq<T>) returns (ys: seq<T>)
    requires StrictTotal(lt, Elements(xs))
    requires forall i, j :: 0 <= i < j < |xs| ==> xs[i] != xs[j]
    ensures ys == Ranked(lt, Elements(xs))
  {
    ys := [];
    for i := 0 to |xs|
      invariant Ascending(lt, ys) && Elements(ys) == Elements(xs[..i])
    {
      var p := 0;
      while p < |ys| && lt(ys[p], xs[i])
        invariant 0 <= p <= |ys|
        invariant forall k :: 0 <= k < p ==> lt(ys[k], xs[i])
      {
        p := p + 1;
      }
      Inserted(lt, xs, i, ys, p);
      ys := ys[..p] + [xs[i]] + ys[p..];
    }
    assert xs[..|xs|] == xs;
    RankedIsUnique(lt, Elements(xs), ys);
  }

  lemma Inserted<T(!new)>(lt: (T, T) -> bool, xs: seq<T>, i: nat, ys: seq<T>, p: nat)
    requires StrictTotal(lt, Elements(xs)) && i < |xs| && p <= |ys|
    requires forall j :: 0 <= j < i ==> xs[j] != xs[i]
    requires Ascending(lt, ys) && Elements(ys) == Elements(xs[..i])
    requires forall k :: 0 <= k < p ==> lt(ys[k], xs[i])
    requires p < |ys| ==> !lt(ys[p], xs[i])
    ensures
      var zs := ys[..p] + [xs[i]] + ys[p..];
      Ascending(lt, zs) && Elements(zs) == Elements(xs[..i + 1])
  {
    var x, zs := xs[i], ys[..p] + [xs[i]] + ys[p..];
    assert xs[..i + 1] == xs[..i] + [x];
    assert ys == ys[..p] + ys[p..];
    assert Elements(zs) == Elements(ys) + {x};
    assert x in Elements(xs) && x !in xs[..i];
    forall k | p <= k < |ys| ensures lt(x, ys[k]) {
      assert ys[k] in Elements(ys) && ys[p] in Elements(ys) && ys[k] in xs[..i] && ys[p] in xs[..i];
    }
  }

  // ---------------------------------------------------------------- byte strings

  /** The order of Go strings and of text columns: byte by byte, a prefix before what it begins. */
  predicate StringLess(a: string, b: string) {
    b != "" && (a == "" || a[0] < b[0] || (a[0] == b[0] && StringLess(a[1..], b[1..])))
  }

  lemma {:induction false} StringLessIrreflexive(a: string)
    ensures !StringLess(a, a)
  {
    if a != "" {
      StringLessIrreflexive(a[1..]);
    }
  }

  lemma {:induction false} StringLessTransitive(a: string, b: string, c: string)
    requires StringLess(a, b) && StringLess(b, c)
    ensures StringLess(a, c)
  {
    if a != "" && a[0] == b[0] == c[0] {
      StringLessTransitive(a[1..], b[1..], c[1..]);
    }
  }

  lemma {:induction false} StringLessTotal(a: string, b: string)
    ensures a == b || StringLess(a, b) || StringLess(b, a)
  {
    if a != "" && b != "" && a[0] == b[0] {
      StringLessTotal(a[1..], b[1..]);
      assert a == [a[0]] + a[1..] && b == [b[0]] + b[1..];
    }
  }
}
