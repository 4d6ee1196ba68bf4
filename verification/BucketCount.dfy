/** fslow_QueryOptimalBucketCount.cpp: a bucket count without small prime factors. */
module BucketCount {
  import opened Arithmetic

  /** No divisor among the first seven primes. */
  predicate Coprime(n: int) {
    n % 2 != 0 && n % 3 != 0 && n % 5 != 0 && n % 7 != 0 && n % 11 != 0 && n % 13 != 0 && n % 17 != 0
  }

  /** How many of the k numbers from n on are r modulo q. */
  function Hits(n: int, k: nat, q: nat, r: nat): nat
    requires q > 0
  {
    if k == 0 then 0 else Hits(n, k - 1, q, r) + if (n + k - 1) % q == r then 1 else 0
  }

  /** Numbers less than a period apart do not agree. */
  lemma Distinct(a: int, b: int, q: nat)
    requires a < b < a + q
    ensures a % q != b % q
  {
    var k := b / q - a / q;
    assert k * q == b / q * q - a / q * q;
    assert a == a / q * q + a % q && b == b / q * q + b % q;
    if k >= 1 { MulGrows(k, q); }
    if k <= -1 { MulGrows(-k, q); }
    assert -k * q == -(k * q);
  }

  /** The remainder is the one number below q that differs from n by a multiple of q. */
  lemma Remainder(n: int, q: nat, s: int, r: nat)
    requires r < q && n == s * q + r
    ensures n % q == r
  {
    var k := n / q - s;
    assert k * q == n / q * q - s * q;
    assert n == n / q * q + n % q;
    assert -k * q == -(k * q);
    if k >= 1 { MulGrows(k, q); }
    if k <= -1 { MulGrows(-k, q); }
  }

  lemma {:induction false} NoneInWindow(n: int, k: nat, q: nat, r: nat, b: int)
    requires q > 0 && n + k <= b < n + q && b % q == r
    ensures Hits(n, k, q, r) == 0
  {
    if k > 0 {
      Distinct(n + k - 1, b, q);
      NoneInWindow(n, k - 1, q, r, b);
    }
  }

  lemma {:induction false} OneInWindow(n: int, k: nat, q: nat, r: nat)
    requires q > 0 && k <= q
    ensures Hits(n, k, q, r) <= 1
  {
    if k > 0 {
      if (n + k - 1) % q == r { NoneInWindow(n, k - 1, q, r, n + k - 1); } else { OneInWindow(n, k - 1, q, r); }
    }
  }

  lemma {:induction false} HitsSplit(n: int, j: nat, k: nat, q: nat, r: nat)
    requires q > 0
    ensures Hits(n, j + k, q, r) == Hits(n, j, q, r) + Hits(n + j, k, q, r)
  {
    if k > 0 {
      HitsSplit(n, j, k - 1, q, r);
      assert j + k - 1 == j + (k - 1);
    }
  }

  /** Among k numbers, at most one per started period. */
  lemma {:induction false} HitsBound(n: int, k: nat, q: nat, r: nat, m: nat)
    requires q > 0 && k <= m * q
    ensures Hits(n, k, q, r) <= m
    decreases m
  {
    if m == 0 {
      assert k == 0;
    } else if k <= q {
      OneInWindow(n, k, q, r);
    } else {
      HitsSplit(n, q, k - q, q, r);
      OneInWindow(n, q, q, r);
      assert (m - 1) * q == m * q - q;
      HitsBound(n + q, k - q, q, r, m - 1);
    }
  }

  lemma {:induction false} OddHalf(n: int, m: nat)
    ensures Hits(n, 2 * m, 2, 1) == m
  {
    if m > 0 {
      OddHalf(n, m - 1);
      HitsSplit(n, 2 * (m - 1), 2, 2, 1);
      TwoInARow(n + 2 * (m - 1));
    }
  }

  lemma TwoInARow(n: int)
    ensures Hits(n, 2, 2, 1) == 1
  {
    assert Hits(n, 2, 2, 1) == Hits(n, 1, 2, 1) + if (n + 1) % 2 == 1 then 1 else 0;
    assert Hits(n, 1, 2, 1) == Hits(n, 0, 2, 1) + if n % 2 == 1 then 1 else 0;
  }

  function OddMultiples(n: int, k: nat): nat {
    Hits(n, k, 6, 3) + Hits(n, k, 10, 5) + Hits(n, k, 14, 7) + Hits(n, k, 22, 11) + Hits(n, k, 26, 13) + Hits(n, k, 34, 17)
  }

  /** An odd multiple of p is p modulo 2p. */
  lemma OddTimes(n: int, p: nat)
    requires p > 0 && n % 2 == 1 && n % p == 0
    ensures n % (2 * p) == p
  {
    var t := n / p;
    var s := t / 2;
    assert n == t * p;
    var odd := t % 2;
    assert t == 2 * s + odd;
    assert n == 2 * (s * p) + odd * p;
    assert n == s * (2 * p) + odd * p;
    assert odd == 0 ==> odd * p == 0;
    assert odd == 1;
    Remainder(n, 2 * p, s, p);
  }

  /** An odd number that is not coprime is an odd multiple of one of the six odd primes. */
  lemma OddMultiple(n: int)
    requires n % 2 == 1 && !Coprime(n)
    ensures n % 6 == 3 || n % 10 == 5 || n % 14 == 7 || n % 22 == 11 || n % 26 == 13 || n % 34 == 17
  {
    if n % 3 == 0 { OddTimes(n, 3); }
    else if n % 5 == 0 { OddTimes(n, 5); }
    else if n % 7 == 0 { OddTimes(n, 7); }
    else if n % 11 == 0 { OddTimes(n, 11); }
    else if n % 13 == 0 { OddTimes(n, 13); }
    else { OddTimes(n, 17); }
  }

  lemma {:induction false} OddsCovered(n: int, k: nat)
    requires forall m :: n <= m < n + k ==> !Coprime(m)
    ensures Hits(n, k, 2, 1) <= OddMultiples(n, k)
  {
    hide Coprime;
    if k > 0 {
      OddsCovered(n, k - 1);
      if (n + k - 1) % 2 == 1 { OddMultiple(n + k - 1); }
    }
  }

  /** Of any 100 consecutive numbers one is coprime: 50 are odd, and the odd multiples of the six
      primes are at most 17 + 10 + 8 + 5 + 4 + 3 of them. */
  lemma OneInHundred(n: int)
    ensures exists m :: n <= m < n + 100 && Coprime(m)
  {
    hide Coprime, Hits;
    if forall m :: n <= m < n + 100 ==> !Coprime(m) {
      OddsCovered(n, 100);
      OddHalf(n, 50);
      HitsBound(n, 100, 6, 3, 17);
      HitsBound(n, 100, 10, 5, 10);
      HitsBound(n, 100, 14, 7, 8);
      HitsBound(n, 100, 22, 11, 5);
      HitsBound(n, 100, 26, 13, 4);
      HitsBound(n, 100, 34, 17, 3);
      assert false;
    }
  }

  /** `n | 1` */
  function OrOne(n: nat): nat { if n % 2 == 0 then n + 1 else n }

  lemma OrOneIs(n: bv32)
    ensures n | 1 == if n % 2 == 0 then n + 1 else n
  {}

  /** The least coprime number from n on. */
  ghost predicate IsLeast(n: int, r: int) { n <= r && Coprime(r) && forall m :: n <= m < r ==> !Coprime(m) }

  function Candidate(n: nat, i: nat): nat { (n + i) % 0x1_0000_0000 }

  /** The last coprime u32, and what lies behind it. */
  lemma TopOfRange()
    ensures Coprime(0xffff_fffd) && !Coprime(0xffff_fffe) && !Coprime(0xffff_ffff) && !Coprime(0) && Coprime(1)
  {}

  lemma NoWrap(n: nat, i: nat)
    requires n + i < 0x1_0000_0000
    ensures Candidate(n, i) == n + i
  {}

  lemma BeforeOne(n: nat, i: nat)
    requires 0xffff_fffd < n < 0x1_0000_0000 && n + i <= 0x1_0000_0001
    ensures n + i == 0x1_0000_0001 <==> Candidate(n, i) == 1
    ensures n + i < 0x1_0000_0001 ==> Candidate(n, i) == 0xffff_fffe || Candidate(n, i) == 0xffff_ffff || Candidate(n, i) == 0
  {}

  /** The first candidate that is coprime. */
  lemma FirstCandidate(n: nat, i: nat)
    requires 19 < n < 0x1_0000_0000 && i < 100 && Coprime(Candidate(n, i))
    requires forall k :: 0 <= k < i ==> !Coprime(Candidate(n, k))
    ensures if n <= 0xffff_fffd then IsLeast(n, Candidate(n, i)) else Candidate(n, i) == 1
  {
    hide Coprime;
    TopOfRange();
    if n <= 0xffff_fffd {
      var j := 0xffff_fffd - n;
      NoWrap(n, j);
      assert i <= j;
      NoWrap(n, i);
      forall m | n <= m < n + i ensures !Coprime(m) { NoWrap(n, m - n); }
    } else {
      assert !Coprime(Candidate(n, 0));
      var j := 0x1_0000_0001 - n;
      assert Candidate(n, j) == 1;
      assert i <= j;
      BeforeOne(n, i);
    }
  }

  /** The loop does not run out of candidates. */
  lemma SomeCandidate(n: nat)
    requires 19 < n < 0x1_0000_0000
    ensures exists i :: 0 <= i < 100 && Coprime(Candidate(n, i))
  {
    hide Coprime;
    TopOfRange();
    if n + 99 < 0x1_0000_0000 {
      OneInHundred(n);
      var m :| n <= m < n + 100 && Coprime(m);
      NoWrap(n, m - n);
      assert Coprime(Candidate(n, m - n));
    } else if n <= 0xffff_fffd {
      NoWrap(n, 0xffff_fffd - n);
      assert Coprime(Candidate(n, 0xffff_fffd - n));
    } else {
      assert Candidate(n, 0x1_0000_0001 - n) == 1;
    }
  }

  /** QueryOptimalBucketCount.  The loop always finds a candidate; it is the least coprime number from
      countEntries on unless the u32 sum wraps past every one, which happens for the two largest
      arguments only. */
  method QueryOptimalBucketCount(countEntries: nat) returns (r: nat)
    requires countEntries < 0x1_0000_0000
    ensures countEntries <= 3 ==> r == 3
    ensures 3 < countEntries <= 19 ==> r == OrOne(countEntries)
    ensures 19 < countEntries <= 0xffff_fffd ==> IsLeast(countEntries, r)
    ensures countEntries > 0xffff_fffd ==> r == 1
    ensures r >= countEntries <==> countEntries <= 0xffff_fffd
  {
    hide Coprime;
    if countEntries <= 3 { return 3; }
    if countEntries <= 19 { return OrOne(countEntries); }
    var i := 0;
    while i < 100
      invariant i <= 100
      invariant forall k :: 0 <= k < i ==> !Coprime(Candidate(countEntries, k))
    {
      var candidate := Candidate(countEntries, i);
      if Coprime(candidate) {
        FirstCandidate(countEntries, i);
        return candidate;
      }
      i := i + 1;
    }
    SomeCandidate(countEntries);
    assert false;
  }
}
