/**
 * The sequential reference side of the prime computation: the trial-division
 * primality test, the list of primes below a bound, the list difference used to
 * find false positives and negatives, and the integer count of the sort rate.
 */
module PrimeComputerTester {
  import opened Outcomes

  // ---------------------------------------------------------------------------
  // Mathematical vocabulary
  // ---------------------------------------------------------------------------

  /** `d` is a non-zero divisor of `n`. */
  predicate Divides(d: int, n: int) {
    d != 0 && n % d == 0
  }

  /** Primality as mathematics defines it: at least 2, and no divisor strictly between 1 and n. */
  predicate IsPrimeNumber(n: int) {
    n >= 2 && forall d :: 2 <= d < n ==> !Divides(d, n)
  }

  predicate StrictlyAscending(s: seq<int>) {
    forall i, j :: 0 <= i < j < |s| ==> s[i] < s[j]
  }

  predicate NonDecreasing(s: seq<int>) {
    forall i, j :: 0 <= i <= j < |s| ==> s[i] <= s[j]
  }

  // ---------------------------------------------------------------------------
  // isPrime
  // ---------------------------------------------------------------------------

  /** The trial-division bound `(long) Math.sqrt(number)`, as the exact integer floor square root. */
  function FloorSqrt(n: nat): (r: nat)
    ensures r * r <= n < (r + 1) * (r + 1)
  {
    if n == 0 then 0
    else
      var s := FloorSqrt(n - 1);
      if (s + 1) * (s + 1) <= n then s + 1 else s
  }

  lemma MulLeft(a: int, b: int, c: int)
    requires a <= b && c >= 0
    ensures c * a <= c * b
  {
  }

  lemma FloorSqrtBelow(n: int)
    requires n >= 2
    ensures FloorSqrt(n) < n
  {
    var r := FloorSqrt(n);
    if r >= n {
      MulLeft(n, r, r);
      MulLeft(2, n, n);
      assert false;
    }
  }

  /** A number with an even divisor is even. */
  lemma EvenDivisorMakesEven(n: int, d: int)
    requires d >= 2 && d % 2 == 0 && Divides(d, n)
    ensures n % 2 == 0
  {
    var q := Cofactor(n, d);
    var h := d / 2;
    assert n == 2 * (h * q);
    MultipleIsDivisible(2, h * q);
  }

  /** The quotient of an exact division. */
  lemma Cofactor(n: int, d: int) returns (q: int)
    requires Divides(d, n)
    ensures n == d * q && n == q * d
  {
    q := n / d;
  }

  lemma MultipleIsDivisible(q: int, d: int)
    requires q >= 1
    ensures Divides(q, q * d)
  {
    var m := q * d;
    var k := m / q;
    assert q * (d - k) == m % q;
    if d - k >= 1 {
      MulLeft(1, d - k, q);
    } else if d - k <= -1 {
      MulLeft(d - k, -1, q);
    }
  }

  /** The classic bound: a number with a proper divisor has one no larger than its square root. */
  lemma {:induction false} CompositeHasSmallDivisor(n: int, d: int)
    requires 2 <= d < n && Divides(d, n)
    ensures exists e :: 2 <= e <= FloorSqrt(n) && Divides(e, n)
  {
    var r := FloorSqrt(n);
    if d <= r {
      return;
    }
    var q := Cofactor(n, d);
    if q <= 1 {
      MulLeft(q, 1, d);
    }
    if q > r {
      MulLeft(r + 1, q, r + 1);
      MulLeft(r + 1, d, q);
    }
    MultipleIsDivisible(q, d);
    assert 2 <= q <= r && Divides(q, n);
  }

  /**
   * Trial division is exact: an odd n >= 5 is prime exactly when no odd d with
   * 3 <= d <= floor(sqrt n) divides it.
   */
  lemma {:induction false} TrialDivisionCorrect(n: int)
    requires n >= 5 && n % 2 == 1
    ensures IsPrimeNumber(n) <==>
              forall d :: 3 <= d <= FloorSqrt(n) && d % 2 == 1 ==> !Divides(d, n)
  {
    FloorSqrtBelow(n);
    if !IsPrimeNumber(n) {
      var d :| 2 <= d < n && Divides(d, n);
      CompositeHasSmallDivisor(n, d);
      var e :| 2 <= e <= FloorSqrt(n) && Divides(e, n);
      if e % 2 == 0 {
        EvenDivisorMakesEven(n, e);
        assert false;
      }
      assert 3 <= e <= FloorSqrt(n) && e % 2 == 1 && Divides(e, n);
    }
  }

  /**
   * `isPrime`: rejects negative input, answers directly below 4 and for even
   * numbers, and otherwise tries the odd divisors up to the square root.
   */
  method IsPrime(number: int) returns (r: Result<bool>)
    ensures number < 0 ==> r == Failure(IllegalArgument("number is not natural"))
    ensures number >= 0 ==> r == Success(IsPrimeNumber(number))
    ensures number == 0 || number == 1 ==> r == Success(false)
    ensures number == 2 || number == 3 ==> r == Success(true)
    ensures number > 3 && number % 2 == 0 ==> r == Success(false)
  {
    if number < 0 {
      return Failure(IllegalArgument("number is not natural"));
    }
    if number < 2 {
      return Success(false);
    }
    if number == 2 || number == 3 {
      forall d | 2 <= d < number ensures !Divides(d, number) {
        assert d == 2;
      }
      return Success(true);
    }
    if number % 2 == 0 {
      assert Divides(2, number);
      return Success(false);
    }
    var limit := FloorSqrt(number);
    var divisor := 3;
    while divisor <= limit
      invariant 3 <= divisor && divisor % 2 == 1
      invariant forall d :: 3 <= d < divisor && d % 2 == 1 ==> !Divides(d, number)
    {
      if number % divisor == 0 {
        DivisorMeansComposite(number, divisor);
        return Success(false);
      }
      NextOddDivisor(number, divisor);
      divisor := divisor + 2;
    }
    NoOddDivisorMeansPrime(number, divisor);
    return Success(true);
  }

  /** Stepping from one odd candidate divisor to the next keeps "no odd divisor tried so far". */
  lemma NextOddDivisor(n: int, divisor: int)
    requires 3 <= divisor && divisor % 2 == 1 && n % divisor != 0
    requires forall d :: 3 <= d < divisor && d % 2 == 1 ==> !Divides(d, n)
    ensures (divisor + 2) % 2 == 1
    ensures forall d :: 3 <= d < divisor + 2 && d % 2 == 1 ==> !Divides(d, n)
  {
    forall d | 3 <= d < divisor + 2 && d % 2 == 1 ensures !Divides(d, n) {
      if d >= divisor {
        assert d == divisor;
      }
    }
  }

  /** A divisor found by the trial loop, which stays below the square root, refutes primality. */
  lemma DivisorMeansComposite(n: int, d: int)
    requires n >= 5 && 3 <= d <= FloorSqrt(n) && n % d == 0
    ensures !IsPrimeNumber(n)
  {
    FloorSqrtBelow(n);
    assert Divides(d, n);
  }

  /** When the trial loop runs past the square root without finding a divisor, n is prime. */
  lemma NoOddDivisorMeansPrime(n: int, bound: int)
    requires n >= 5 && n % 2 == 1 && bound > FloorSqrt(n)
    requires forall d :: 3 <= d < bound && d % 2 == 1 ==> !Divides(d, n)
    ensures IsPrimeNumber(n)
  {
    TrialDivisionCorrect(n);
  }

  /** Concrete answers of the oracle. */
  lemma OracleExamples()
    ensures !IsPrimeNumber(1) && IsPrimeNumber(2) && !IsPrimeNumber(9)
  {
    assert Divides(3, 9);
  }

  // ---------------------------------------------------------------------------
  // getPrimes
  // ---------------------------------------------------------------------------

  /** The primes c with 1 <= c < max, in the order getPrimes visits them. */
  function PrimesBelow(max: int): seq<int>
    decreases max
  {
    if max <= 1 then []
    else PrimesBelow(max - 1) + (if IsPrimeNumber(max - 1) then [max - 1] else [])
  }

  lemma {:induction false} PrimesBelowMembers(max: int)
    ensures forall c :: c in PrimesBelow(max) <==> 1 <= c < max && IsPrimeNumber(c)
    decreases max
  {
    if max > 1 {
      PrimesBelowMembers(max - 1);
    }
  }

  lemma {:induction false} PrimesBelowAscending(max: int)
    ensures StrictlyAscending(PrimesBelow(max))
    decreases max
  {
    if max > 1 {
      var init := PrimesBelow(max - 1);
      PrimesBelowAscending(max - 1);
      PrimesBelowMembers(max - 1);
      if IsPrimeNumber(max - 1) {
        var s := init + [max - 1];
        forall i, j | 0 <= i < j < |s| ensures s[i] < s[j] {
          if j < |init| {
            assert s[i] == init[i] && s[j] == init[j];
          } else {
            assert s[i] == init[i] && init[i] in init;
          }
        }
      }
    }
  }

  /** Nothing is prime below 2. */
  lemma {:induction false} PrimesBelowTwo(max: int)
    requires max <= 2
    ensures PrimesBelow(max) == []
  {
    if max == 2 {
      assert !IsPrimeNumber(1);
    }
  }

  lemma PrimesBelowTen()
    ensures PrimesBelow(3) == [2]
    ensures PrimesBelow(10) == [2, 3, 5, 7]
  {
    assert IsPrimeNumber(2) && IsPrimeNumber(3);
    assert Divides(2, 4) && Divides(2, 6) && Divides(2, 8) && Divides(3, 9);
    assert IsPrimeNumber(5) by {
      forall d | 2 <= d < 5 ensures !Divides(d, 5) {
        assert d == 2 || d == 3 || d == 4;
      }
    }
    assert IsPrimeNumber(7) by {
      forall d | 2 <= d < 7 ensures !Divides(d, 7) {
        assert d == 2 || d == 3 || d == 4 || d == 5 || d == 6;
      }
    }
  }

  /** `getPrimes`: tests every candidate 1 .. max - 1 in turn and appends the primes. */
  method GetPrimes(max: int) returns (primes: seq<int>)
    ensures primes == PrimesBelow(max)
    ensures forall c :: c in primes <==> 1 <= c < max && IsPrimeNumber(c)
    ensures StrictlyAscending(primes)
    ensures max <= 2 ==> primes == []
  {
    primes := [];
    var candidate := 1;
    while candidate < max
      invariant 1 <= candidate && (candidate <= max || candidate == 1)
      invariant primes == PrimesBelow(candidate)
    {
      var isPrime := IsPrime(candidate);
      if isPrime == Success(true) {
        primes := primes + [candidate];
      }
      candidate := candidate + 1;
    }
    PrimesBelowMembers(max);
    PrimesBelowAscending(max);
    if max <= 2 {
      PrimesBelowTwo(max);
    }
  }

  // ---------------------------------------------------------------------------
  // substract
  // ---------------------------------------------------------------------------

  /** The elements of `a` not contained in `b`, in a's order and with a's multiplicity. */
  function Difference<T(==)>(a: seq<T>, b: seq<T>): seq<T>
  {
    if a == [] then []
    else Difference(a[..|a| - 1], b) + (if a[|a| - 1] in b then [] else [a[|a| - 1]])
  }

  /** `s` can be obtained from `t` by deleting elements. */
  predicate IsSubsequence<T(==)>(s: seq<T>, t: seq<T>)
    decreases |t|
  {
    if s == [] then true
    else if t == [] then false
    else IsSubsequence(s, t[..|t| - 1])
         || (s[|s| - 1] == t[|t| - 1] && IsSubsequence(s[..|s| - 1], t[..|t| - 1]))
  }

  lemma {:induction false} DifferenceMember<T>(a: seq<T>, b: seq<T>, x: T)
    ensures x in Difference(a, b) <==> x in a && x !in b
  {
    if a != [] {
      DifferenceMember(a[..|a| - 1], b, x);
      assert a == a[..|a| - 1] + [a[|a| - 1]];
    }
  }

  lemma {:induction false} DifferenceCounts<T>(a: seq<T>, b: seq<T>)
    ensures forall x :: multiset(Difference(a, b))[x] == if x in b then 0 else multiset(a)[x]
  {
    if a != [] {
      DifferenceCounts(a[..|a| - 1], b);
      assert a == a[..|a| - 1] + [a[|a| - 1]];
    }
  }

  lemma {:induction false} DifferenceIsSubsequence<T>(a: seq<T>, b: seq<T>)
    ensures IsSubsequence(Difference(a, b), a)
  {
    if a != [] {
      var d := Difference(a, b);
      var init := a[..|a| - 1];
      DifferenceIsSubsequence(init, b);
      if a[|a| - 1] in b {
        assert d == Difference(init, b);
        if d != [] {
          assert IsSubsequence(d, a[..|a| - 1]);
        }
      } else {
        assert d == Difference(init, b) + [a[|a| - 1]];
        assert d[..|d| - 1] == Difference(init, b);
      }
    }
  }

  lemma {:induction false} DifferenceWithItself<T>(a: seq<T>)
    ensures Difference(a, a) == []
  {
    var d := Difference(a, a);
    if d != [] {
      DifferenceMember(a, a, d[0]);
    }
  }

  /** `substract`: keeps, in order, each element of the first collection absent from the second. */
  method Substract<T(==)>(collection1: seq<T>, collection2: seq<T>) returns (difference: seq<T>)
    ensures difference == Difference(collection1, collection2)
    ensures forall x :: x in difference <==> x in collection1 && x !in collection2
    ensures forall x :: multiset(difference)[x] ==
                          if x in collection2 then 0 else multiset(collection1)[x]
    ensures IsSubsequence(difference, collection1)
  {
    var lookup := set x | x in collection2;
    difference := [];
    var i := 0;
    while i < |collection1|
      invariant 0 <= i <= |collection1|
      invariant difference == Difference(collection1[..i], collection2)
    {
      var element := collection1[i];
      assert collection1[..i + 1][..i] == collection1[..i];
      if element !in lookup {
        difference := difference + [element];
      }
      i := i + 1;
    }
    assert collection1[..|collection1|] == collection1;
    forall x ensures x in difference <==> x in collection1 && x !in collection2 {
      DifferenceMember(collection1, collection2, x);
    }
    DifferenceCounts(collection1, collection2);
    DifferenceIsSubsequence(collection1, collection2);
  }

  // ---------------------------------------------------------------------------
  // sortRate
  // ---------------------------------------------------------------------------

  /** Number of indices i with s[i] <= s[i + 1]. */
  function InOrderPairs(s: seq<int>): (k: nat)
    ensures |s| >= 1 ==> k <= |s| - 1
  {
    if |s| <= 1 then 0
    else InOrderPairs(s[..|s| - 1]) + (if s[|s| - 2] <= s[|s| - 1] then 1 else 0)
  }

  /** Every adjacent pair is in order exactly when the whole list is non-decreasing. */
  lemma {:induction false} AllPairsInOrderIffNonDecreasing(s: seq<int>)
    requires |s| >= 1
    ensures InOrderPairs(s) == |s| - 1 <==> NonDecreasing(s)
  {
    if |s| >= 2 {
      var init := s[..|s| - 1];
      AllPairsInOrderIffNonDecreasing(init);
      if InOrderPairs(s) == |s| - 1 {
        assert NonDecreasing(init) && s[|s| - 2] <= s[|s| - 1];
        forall i, j | 0 <= i <= j < |s| ensures s[i] <= s[j] {
          if j < |s| - 1 {
            assert init[i] <= init[j];
          } else if i < |s| - 1 {
            assert init[i] <= init[|s| - 2];
          }
        }
      } else if NonDecreasing(s) {
        assert NonDecreasing(init) by {
          forall i, j | 0 <= i <= j < |init| ensures init[i] <= init[j] {
            assert s[i] <= s[j];
          }
        }
      }
    }
  }

  /** A rate `numerator / denominator`, kept as two integers. */
  datatype Ratio = Ratio(numerator: nat, denominator: nat)

  /**
   * `sortRate`: 0 for lists of at most one element, otherwise one plus the number
   * of adjacent pairs in order, over the list's size.
   */
  method SortRate(list: seq<int>) returns (rate: Ratio)
    ensures rate.denominator >= 1 && rate.numerator <= rate.denominator
    ensures |list| <= 1 ==> rate == Ratio(0, 1)
    ensures |list| >= 2 ==> rate == Ratio(1 + InOrderPairs(list), |list|)
    ensures rate.numerator == rate.denominator <==> |list| >= 2 && NonDecreasing(list)
  {
    if |list| <= 1 {
      return Ratio(0, 1);
    }
    var count := 1;
    var i := 0;
    while i < |list| - 1
      invariant 0 <= i <= |list| - 1
      invariant count == 1 + InOrderPairs(list[..i + 1])
    {
      assert list[..i + 2][..i + 1] == list[..i + 1];
      if list[i] <= list[i + 1] {
        count := count + 1;
      }
      i := i + 1;
    }
    assert list[..i + 1] == list;
    AllPairsInOrderIffNonDecreasing(list);
    return Ratio(count, |list|);
  }
}
