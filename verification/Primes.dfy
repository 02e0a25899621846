/** The two trial-division prime generators, with their unusual loop bound: every number is
    divided by all smaller than half of the upper limit, not half of itself. */
module Primes {

  ghost predicate IsPrime(n: nat) {
    n >= 2 && forall d :: 2 <= d < n ==> n % d != 0
  }

  /** The inner loop finds no divisor. */
  predicate Passes(i: nat, limit: nat) {
    forall j :: 2 <= j < limit / 2 ==> i == j || i % j != 0
  }

  /** The primes, and the numbers that pass, from `lo` to `hi`, in increasing order. */
  ghost function PrimesBetween(lo: nat, hi: int): seq<nat>
    decreases hi + 1 - lo
  {
    if hi < lo then [] else PrimesBetween(lo, hi - 1) + if IsPrime(hi) then [hi] else []
  }

  ghost function Passing(lo: nat, hi: int, limit: nat): seq<nat>
    decreases hi + 1 - lo
  {
    if hi < lo then [] else Passing(lo, hi - 1, limit) + if Passes(hi, limit) then [hi] else []
  }

  // ================================================================ the code

  method InnerLoop(i: nat, limit: nat) returns (isPrime: bool)
    ensures isPrime <==> Passes(i, limit)
  {
    var j := 2;
    while j < limit / 2
      invariant 2 <= j
      invariant forall k :: 2 <= k < j ==> i == k || i % k != 0
    {
      if i != j && i % j == 0 {
        return false;
      }
      j := j + 1;
    }
    return true;
  }

  /** `simple_primegen(start, limit, buf)`: the numbers appended to the buffer and their count. */
  method GenerateRange(start: nat, limit: nat) returns (found: seq<nat>, count: nat)
    requires start <= limit
    ensures found == Passing(start, limit, limit) && count == |found|
  {
    found, count := [], 0;
    var i := start;
    while i <= limit
      invariant start <= i <= limit + 1
      invariant found == Passing(start, i - 1, limit) && count == |found|
    {
      var isPrime := InnerLoop(i, limit);
      if isPrime {
        count := count + 1;
        found := found + [i];
      }
      i := i + 1;
    }
  }

  /** `simple_primegen(limit)`: 2 and 3 are printed unconditionally. */
  method GenerateUpTo(limit: nat) returns (printed: seq<nat>)
    ensures printed == [2, 3] + Passing(4, limit, limit)
  {
    printed := [2, 3];
    var i := 4;
    while i <= limit
      invariant 4 <= i && (i <= limit + 1 || i == 4)
      invariant printed == [2, 3] + Passing(4, i - 1, limit)
    {
      var isPrime := InnerLoop(i, limit);
      if isPrime {
        printed := printed + [i];
      }
      i := i + 1;
    }
  }

  // ================================================================ trial division is exact

  lemma DivisorPair(n: nat, d: nat)
    requires 2 <= d < n && n % d == 0
    ensures var e := n / d; n == d * e && 2 <= e < n && n % e == 0
  {
    var e := n / d;
    assert n == d * e;
    assert e != 0 && e != 1;
    assert d * e >= 2 * e;
    MultipleMod(d, e);
  }

  lemma MultipleMod(d: nat, e: nat)
    requires e > 0
    ensures (d * e) % e == 0
  {
    var q, r := (d * e) / e, (d * e) % e;
    assert d * e == q * e + r;
    NoRemainder(d - q, e, r);
  }

  lemma NoRemainder(k: int, e: nat, r: nat)
    requires k * e == r < e
    ensures r == 0
  {
  }

  lemma SmallerFactor(d: nat, e: nat)
    requires d * d > d * e
    ensures e < d && e * e <= d * e
  {
  }

  /** A composite number has a divisor at most its square root. */
  lemma SmallDivisor(n: nat) returns (d: nat)
    requires n >= 2 && !IsPrime(n)
    ensures 2 <= d < n && n % d == 0 && d * d <= n
  {
    d :| 2 <= d < n && n % d == 0;
    DivisorPair(n, d);
    if d * d > n {
      var e := n / d;
      SmallerFactor(d, e);
      d := e;
    }
  }

  /** ... which is therefore below half of any limit the number does not exceed, from 6 on. */
  lemma BelowHalf(d: nat, n: nat, limit: nat)
    requires 2 <= d && d * d <= n <= limit && limit >= 6
    ensures d < limit / 2
  {
    if d >= 3 { assert d * d >= 3 * d; }
  }

  lemma ZeroAndFour()
    ensures !IsPrime(0) && !IsPrime(1) && !IsPrime(4) && IsPrime(2) && IsPrime(3) && IsPrime(5)
  {
    assert 4 % 2 == 0;
  }

  /** For a number up to the limit the loop decides primality correctly in exactly these cases:
      the number is not 1, and it is not 0 or 4 with a limit below 6 (when the loop is empty). */
  lemma ExactlyWhenCorrect(i: nat, limit: nat)
    requires i <= limit
    ensures (Passes(i, limit) <==> IsPrime(i)) <==> i != 1 && !(limit < 6 && (i == 0 || i == 4))
  {
    ZeroAndFour();
    if limit >= 6 {
      if i == 0 {
        assert 0 % 2 == 0;
      } else if i >= 2 && !IsPrime(i) {
        var d := SmallDivisor(i);
        BelowHalf(d, i, limit);
      } else if IsPrime(i) {
        forall j | 2 <= j < limit / 2 ensures i == j || i % j != 0 {
          if j > i { SmallMod(i, j); }
        }
      }
    }
  }

  lemma SmallMod(i: nat, j: nat)
    requires 0 < i < j
    ensures i % j == i
  {
  }

  ghost predicate Below(s: seq<nat>, x: int) { forall k :: 0 <= k < |s| ==> s[k] < x }

  /** Two filtered lists grow by the same number; they are equal only if both tests agree. */
  lemma TestsAgree(p: seq<nat>, q: seq<nat>, x: nat, a: bool, b: bool)
    requires Below(p, x) && Below(q, x)
    ensures var p', q' := p + (if a then [x] else []), q + (if b then [x] else []);
      && (p' == q' <==> p == q && a == b)
      && Below(p', x + 1) && Below(q', x + 1)
  {
    var p', q' := p + (if a then [x] else []), q + (if b then [x] else []);
    if p' == q' {
      assert a ==> p'[|p'| - 1] == x;
      assert b ==> q'[|q'| - 1] == x;
      assert p == p'[..|p|] && q == q'[..|q|];
    }
  }

  ghost predicate Decided(i: nat, limit: nat) { Passes(i, limit) <==> IsPrime(i) }

  lemma {:induction false} ListedBelow(lo: nat, hi: int, limit: nat)
    ensures Below(Passing(lo, hi, limit), hi + 1) && Below(PrimesBetween(lo, hi), hi + 1)
    decreases hi + 1 - lo
  {
    if hi >= lo {
      ListedBelow(lo, hi - 1, limit);
      TestsAgree(Passing(lo, hi - 1, limit), PrimesBetween(lo, hi - 1), hi, Passes(hi, limit), IsPrime(hi));
    }
  }

  lemma {:induction false} EqualIfDecided(lo: nat, hi: int, limit: nat)
    requires forall i: nat :: lo <= i <= hi ==> Decided(i, limit)
    ensures Passing(lo, hi, limit) == PrimesBetween(lo, hi)
    decreases hi + 1 - lo
  {
    if hi >= lo {
      EqualIfDecided(lo, hi - 1, limit);
      assert Decided(hi, limit);
    }
  }

  /** One wrong decision shows in the list. */
  lemma {:induction false} DiffersIfNot(lo: nat, hi: int, limit: nat, i: nat)
    requires lo <= i <= hi && !Decided(i, limit)
    ensures Passing(lo, hi, limit) != PrimesBetween(lo, hi)
    decreases hi + 1 - lo
  {
    if i < hi { DiffersIfNot(lo, hi - 1, limit, i); }
    ListedBelow(lo, hi - 1, limit);
    TestsAgree(Passing(lo, hi - 1, limit), PrimesBetween(lo, hi - 1), hi, Passes(hi, limit), IsPrime(hi));
  }

  /** So from 2 on, and for limits from 6 on, exactly the primes pass. */
  lemma PassingPrimes(lo: nat, hi: int, limit: nat)
    requires lo >= 2 && hi <= limit && limit >= 6
    ensures Passing(lo, hi, limit) == PrimesBetween(lo, hi)
  {
    forall i: nat | lo <= i <= hi ensures Decided(i, limit) { ExactlyWhenCorrect(i, limit); }
    EqualIfDecided(lo, hi, limit);
  }

  /** A thread's range gives exactly its primes if and only if it does not contain 1 and, when it
      ends below 6, neither 0 nor 4.  The program's first range starts at 1. */
  lemma RangeExact(lo: nat, hi: nat)
    ensures Passing(lo, hi, hi) == PrimesBetween(lo, hi) <==>
            !(lo <= 1 <= hi) && (hi < 6 ==> lo != 0 && !(lo <= 4 <= hi))
  {
    forall i: nat | lo <= i <= hi
      ensures Decided(i, hi) <==> i != 1 && !(hi < 6 && (i == 0 || i == 4))
    {
      ExactlyWhenCorrect(i, hi);
    }
    if lo <= 1 <= hi {
      DiffersIfNot(lo, hi, hi, 1);
    } else if lo == 0 && hi < 6 {
      DiffersIfNot(lo, hi, hi, 0);
    } else if lo <= 4 <= hi < 6 {
      DiffersIfNot(lo, hi, hi, 4);
    } else {
      EqualIfDecided(lo, hi, hi);
    }
  }

  lemma {:induction false} Adjacent(lo: nat, mid: nat, hi: int)
    requires lo <= mid + 1 && mid <= hi
    ensures PrimesBetween(lo, mid) + PrimesBetween(mid + 1, hi) == PrimesBetween(lo, hi)
    decreases hi + 1 - mid
  {
    if hi > mid { Adjacent(lo, mid, hi - 1); }
  }

  /** The threads' ranges join up: what is generated from `lo` to `mid` and from `mid + 1` to
      `hi`, each with its own bound, is together what is generated from `lo` to `hi` with yet
      another bound, namely the primes; hence the counts add up. */
  lemma RangesJoin(lo: nat, mid: nat, hi: nat)
    requires 2 <= lo <= mid < hi && mid >= 6
    ensures Passing(lo, mid, mid) + Passing(mid + 1, hi, hi) == Passing(lo, hi, hi) == PrimesBetween(lo, hi)
    ensures |Passing(lo, mid, mid)| + |Passing(mid + 1, hi, hi)| == |Passing(lo, hi, hi)|
  {
    PassingPrimes(lo, mid, mid);
    PassingPrimes(mid + 1, hi, hi);
    PassingPrimes(lo, hi, hi);
    Adjacent(lo, mid, hi);
  }

  /** The single-threaded generator prints exactly the primes up to its limit if and only if the
      limit is at least 6.  The program accepts limits from 5 on, and for 5 it prints 4. */
  lemma PrintsThePrimes(limit: nat)
    requires limit > 4
    ensures [2, 3] + Passing(4, limit, limit) == PrimesBetween(2, limit) <==> limit >= 6
  {
    ZeroAndFour();
    assert PrimesBetween(2, 3) == [2, 3] by {
      assert PrimesBetween(2, 1) == [];
      assert PrimesBetween(2, 2) == [2];
    }
    Adjacent(2, 3, limit);
    if limit >= 6 {
      PassingPrimes(4, limit, limit);
    } else {
      assert Passing(4, 3, 5) == [] && Passing(4, 4, 5) == [4] && Passing(4, 5, 5) == [4, 5];
      assert PrimesBetween(4, 3) == [] && PrimesBetween(4, 4) == [] && PrimesBetween(4, 5) == [5];
      assert |[2, 3] + Passing(4, 5, 5)| == 4 && |PrimesBetween(2, 5)| == 3;
    }
  }
}
