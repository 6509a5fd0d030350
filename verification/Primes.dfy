/** The search for prime table sizes in ltutil.cpp, over the natural numbers. */
module Primes {
  predicate Divides(d: nat, n: nat)
    requires d > 0
  {
    n % d == 0
  }

  ghost predicate Prime(n: nat) {
    n >= 2 && forall d: nat :: 2 <= d < n ==> !Divides(d, n)
  }

  /** What is_prime accepts. */
  ghost predicate Accepted(n: nat) {
    n == 1 || (n > 23 && Prime(n))
  }

  const FIRST: seq<nat> := [2, 3, 5, 7, 11, 13, 17, 19, 23]

  // ---------- divisors ----------

  lemma DividesTimes(d: nat, n: nat)
    requires d > 0
    ensures Divides(d, n) <==> n == d * (n / d)
  {
  }

  lemma TimesDivides(d: nat, q: nat)
    requires d > 0
    ensures Divides(d, d * q) && Divides(d, q * d)
  {
    var m, r := (d * q) / d, (d * q) % d;
    assert d * (q - m) == r;
    if q - m >= 1 {
      MulMono(d, 1, q - m);
    } else if q - m <= -1 {
      MulMono(d, 1, m - q);
    }
  }

  lemma DividesTrans(d: nat, m: nat, n: nat)
    requires d > 0 && m > 0 && Divides(d, m) && Divides(m, n)
    ensures Divides(d, n)
  {
    var a, b := m / d, n / m;
    DividesTimes(d, m);
    DividesTimes(m, n);
    assert n == d * (a * b) by {
      assert n == m * b == (d * a) * b;
    }
    TimesDivides(d, a * b);
  }

  /** The least divisor above 1. */
  function LeastFrom(n: nat, d: nat): (r: nat)
    requires 2 <= d <= n
    ensures d <= r <= n && Divides(r, n)
    ensures forall x: nat :: d <= x < r ==> !Divides(x, n)
    decreases n - d
  {
    if Divides(d, n) then d else LeastFrom(n, d + 1)
  }

  function LeastDivisor(n: nat): (r: nat)
    requires n >= 2
    ensures 2 <= r <= n && Divides(r, n)
    ensures forall x: nat :: 2 <= x < r ==> !Divides(x, n)
  {
    LeastFrom(n, 2)
  }

  lemma LeastIsPrime(n: nat)
    requires n >= 2
    ensures Prime(LeastDivisor(n))
  {
    var r := LeastDivisor(n);
    forall d: nat | 2 <= d < r
      ensures !Divides(d, r)
    {
      if Divides(d, r) {
        DividesTrans(d, r, n);
      }
    }
  }

  /** A composite number has a divisor up to its square root. */
  lemma LeastIsSmall(n: nat)
    requires n >= 2 && !Prime(n)
    ensures LeastDivisor(n) * LeastDivisor(n) <= n
  {
    var r := LeastDivisor(n);
    var q := n / r;
    DividesTimes(r, n);
    assert r < n;
    assert q != 0 && q != 1;
    TimesDivides(q, r);
    assert Divides(q, n);
    assert r <= q;
    assert r * r <= r * q by {
      MulMono(r, r, q);
    }
  }

  lemma MulMono(p: nat, a: nat, b: nat)
    requires a <= b
    ensures p * a <= p * b
  {
  }

  /** Every number from 2 to 28 has a divisor among the first primes. */
  lemma SmallDivisor(d: nat)
    requires 2 <= d < 29
    ensures exists i :: 0 <= i < |FIRST| && Divides(FIRST[i], d)
  {
    if Divides(2, d) {
      assert Divides(FIRST[0], d);
    } else if Divides(3, d) {
      assert Divides(FIRST[1], d);
    } else if Divides(5, d) {
      assert Divides(FIRST[2], d);
    } else {
      var i := if d == 7 then 3 else if d == 11 then 4 else if d == 13 then 5 else if d == 17 then 6 else if d == 19 then 7 else 8;
      assert Divides(FIRST[i], d);
    }
  }

  /** The trial divisors of is_prime are enough. */
  lemma TrialEnough(n: nat, half: nat)
    requires n >= 2 && half * half <= n < (half + 1) * (half + 1)
    requires forall i :: 0 <= i < |FIRST| ==> !Divides(FIRST[i], n)
    requires forall d: nat :: 29 <= d <= half ==> !Divides(d, n)
    ensures Prime(n) && n > 23
  {
    if !Prime(n) {
      var r := LeastDivisor(n);
      LeastIsSmall(n);
      if r < 29 {
        SmallDivisor(r);
        var i :| 0 <= i < |FIRST| && Divides(FIRST[i], r);
        DividesTrans(FIRST[i], r, n);
      } else {
        assert r > half;
        MulMono(r, half + 1, r);
        MulMono(half + 1, half + 1, r);
      }
    }
    if n <= 23 {
      SmallDivisor(n);
    }
  }

  /** `(int)sqrt(n)`: the integer square root. */
  function Sqrt(n: nat): (r: nat)
    ensures r * r <= n < (r + 1) * (r + 1)
  {
    if n == 0 then 0
    else
      var r := Sqrt(n - 1);
      if (r + 1) * (r + 1) <= n then r + 1 else r
  }

  /** is_prime: exactly 1 and the primes above 23. */
  method IsPrime(n: nat) returns (b: bool)
    ensures b <==> Accepted(n)
  {
    var i: nat := 0;
    while i < |FIRST|
      invariant i <= |FIRST| && forall j :: 0 <= j < i ==> !Divides(FIRST[j], n)
    {
      if n % FIRST[i] == 0 {
        assert Divides(FIRST[i], n);
        return false;
      }
      i := i + 1;
    }
    assert !Divides(FIRST[0], n);
    var half := Sqrt(n);
    i := 29;
    while i <= half
      invariant 29 <= i && forall d: nat :: 29 <= d < i ==> !Divides(d, n)
    {
      if n % i == 0 {
        MulMono(half, 1, half);
        assert Divides(i, n) && half < n by {
          MulMono(half, 29, half);
        }
        return false;
      }
      i := i + 1;
    }
    if n >= 2 {
      TrialEnough(n, half);
    }
    return true;
  }

  // ---------- the next one ----------

  function Factorial(n: nat): (f: nat)
    ensures f >= 1
  {
    if n == 0 then 1 else n * Factorial(n - 1)
  }

  lemma {:induction false} FactorialDivides(d: nat, n: nat)
    requires 1 <= d <= n
    ensures Divides(d, Factorial(n))
  {
    if d == n {
      TimesDivides(n, Factorial(n - 1));
    } else {
      FactorialDivides(d, n - 1);
      DividesTimes(d, Factorial(n - 1));
      var q := Factorial(n - 1) / d;
      assert Factorial(n) == d * (n * q) by {
        assert n * (d * q) == d * (n * q);
      }
      TimesDivides(d, n * q);
    }
  }

  /** Euclid: there is a prime above every number. */
  lemma PrimeAbove(n: nat) returns (p: nat)
    ensures p > n && Prime(p)
  {
    var m := Factorial(n) + 1;
    p := LeastDivisor(m);
    LeastIsPrime(m);
    if p <= n {
      FactorialDivides(p, n);
      DividesTimes(p, Factorial(n));
      DividesTimes(p, m);
      NoTwoMultiples(p, Factorial(n) / p, m / p);
    }
  }

  lemma NoTwoMultiples(p: nat, a: nat, b: nat)
    requires p >= 2
    ensures p * a + 1 != p * b
  {
    if a >= b {
      MulMono(p, b, a);
    } else {
      MulMono(p, a + 1, b);
    }
  }

  /** next_prime: the least accepted number above `n`; the search ends. */
  method NextPrime(n: nat) returns (r: nat)
    ensures r > n && Accepted(r) && forall m: nat :: n < m < r ==> !Accepted(m)
  {
    ghost var bound := PrimeAbove(if n < 23 then 23 else n);
    r := n + 1;
    var b := IsPrime(r);
    while !b
      invariant n < r <= bound && (b <==> Accepted(r)) && forall m: nat :: n < m < r ==> !Accepted(m)
      decreases bound - r, !b
    {
      r := r + 1;
      b := IsPrime(r);
    }
  }

  /** `k` and `2k + 1` are both accepted. */
  ghost predicate Double(k: nat) {
    Accepted(k) && Accepted(2 * k + 1)
  }

  ghost predicate LeastDouble(n: nat, k: nat) {
    k > n && Double(k) && forall m: nat :: n < m < k ==> !Double(m)
  }

  /** find_double_prime returns if there is a number to find, and then finds the least one; nobody knows
      whether there always is one. */
  method FindDoublePrime(n: nat, ghost some: nat) returns (r: nat)
    requires some > n / 2 && Double(some)
    ensures r > n && r % 2 == 1 && LeastDouble(n / 2, r / 2)
    ensures Prime(r / 2) && Prime(r)
  {
    var k := n / 2;
    while true
      invariant n / 2 <= k < some && forall m: nat :: n / 2 < m <= k ==> !Double(m)
      decreases some - k
    {
      k := NextPrime(k);
      var b := IsPrime(k * 2 + 1);
      if b {
        assert Double(k);
        NotThree(k);
        return k * 2 + 1;
      }
      assert k != some;
    }
  }

  /** 1 is accepted, but 3 is not: both numbers that are found are primes. */
  lemma NotThree(k: nat)
    requires Double(k)
    ensures Prime(k) && Prime(2 * k + 1)
  {
  }
}
