/** Where the constants of SHA-256 come from: the first 32 bits of the fractional parts of the cube roots of the
    first 64 primes, and of the square roots of the first eight (sections 4.2.2 and 5.3.3 of FIPS 180-4). */
module RoundConstants {
  import opened Words
  import opened Fips180

  const PRIMES: seq<nat> :=
    [2, 3, 5, 7, 11, 13, 17, 19] +
    [23, 29, 31, 37, 41, 43, 47, 53] +
    [59, 61, 67, 71, 73, 79, 83, 89] +
    [97, 101, 103, 107, 109, 113, 127, 131] +
    [137, 139, 149, 151, 157, 163, 167, 173] +
    [179, 181, 191, 193, 197, 199, 211, 223] +
    [227, 229, 233, 239, 241, 251, 257, 263] +
    [269, 271, 277, 281, 283, 293, 307, 311]

  predicate IsPrime(n: nat) {
    n >= 2 && forall d :: 2 <= d < n ==> n % d != 0
  }

  /** q is the floor of 2^32 times the cube root of p. */
  predicate IsCubeRoot(p: nat, q: nat) {
    q * q * q <= p * 0x1_0000_0000_0000_0000_0000_0000 < (q + 1) * (q + 1) * (q + 1)
  }

  /** q is the floor of 2^32 times the square root of p. */
  predicate IsSquareRoot(p: nat, q: nat) {
    q * q <= p * 0x1_0000_0000_0000_0000 < (q + 1) * (q + 1)
  }

  /** The whole part of the cube root of a prime of the table. */
  function CubeWhole(p: nat): nat {
    if p < 8 then 1 else if p < 27 then 2 else if p < 64 then 3 else if p < 125 then 4 else if p < 216 then 5 else 6
  }

  /** Place k of the two tables. */
  predicate Stands(k: nat)
    requires k < 64
  {
    && |PRIMES| == 64 && |K| == 64
    && Sifted(PRIMES[k]) && (k < 63 ==> PRIMES[k] < PRIMES[k + 1])
    && IsCubeRoot(PRIMES[k], CubeWhole(PRIMES[k]) * TWO_32 + K[k])
  }

  // ---- the primes ----

  /** Not a proper multiple of a prime up to 17. */
  predicate Sifted(n: nat) {
    && (n % 2 != 0 || n == 2) && (n % 3 != 0 || n == 3) && (n % 5 != 0 || n == 5) && (n % 7 != 0 || n == 7)
    && (n % 11 != 0 || n == 11) && (n % 13 != 0 || n == 13) && (n % 17 != 0 || n == 17)
  }

  /** Below 18 * 18 a number with a divisor has one up to 17, and then a prime one. */
  lemma SiftedIsPrime(n: nat)
    requires 2 <= n < 324
    ensures IsPrime(n) <==> Sifted(n)
  {
    hide Sifted;
    if IsPrime(n) {
      PrimeStays(n);
    } else {
      var d :| 2 <= d < n && n % d == 0;
      SmallDivisor(n, d);
      var f :| 2 <= f <= 17 && f < n && n % f == 0;
      SiftedOut(n, f);
    }
  }

  lemma PrimeStays(n: nat)
    requires IsPrime(n)
    ensures Sifted(n)
  {
    forall p | p in {2, 3, 5, 7, 11, 13, 17}
      ensures n % p != 0 || n == p
    {
      if n < p { assert n % p == n; }
    }
  }

  lemma SiftedOut(n: nat, f: nat)
    requires 2 <= f <= 17 && f < n && n % f == 0
    ensures !Sifted(n)
  {
    hide Sifted;
    var p := if f % 2 == 0 then 2 else if f % 3 == 0 then 3 else if f % 5 == 0 then 5 else f;
    MultipleOf(n, f, p);
    ProperMultiple(n, p);
  }

  lemma ProperMultiple(n: nat, p: nat)
    requires p == 2 || p == 3 || p == 5 || p == 7 || p == 11 || p == 13 || p == 17
    requires p < n && n % p == 0
    ensures !Sifted(n)
  {
  }

  lemma MultipleOf(n: nat, f: nat, p: nat)
    requires 0 < p <= f && f % p == 0 && n % f == 0
    ensures n % p == 0
  {
    var e, h := n / f, f / p;
    assert n == f * e && f == p * h;
    assert (p * h) * e == p * (h * e);
    DivUnique(n, p, h * e, 0);
  }

  /** What is left of the multiples of 2, 3 and 5. */
  lemma ResidueOf(n: nat)
    ensures n % 2 != 0 && n % 3 != 0 && n % 5 != 0 ==>
      var t := n / 30;
      n in {30 * t + 1, 30 * t + 7, 30 * t + 11, 30 * t + 13, 30 * t + 17, 30 * t + 19, 30 * t + 23, 30 * t + 29}
  {
    var t, r := n / 30, n % 30;
    DivUnique(n, 2, 15 * t + r / 2, r % 2);
    DivUnique(n, 3, 10 * t + r / 3, r % 3);
    DivUnique(n, 5, 6 * t + r / 5, r % 5);
  }

  lemma SmallCofactor(e: nat, d: nat)
    requires d >= 18 && e * d < 324
    ensures e < 18
  {
    assert e * d >= 18 * e by {
      assert e * d == 18 * e + e * (d - 18);
    }
  }

  lemma SmallDivisor(n: nat, d: nat)
    requires 2 <= d < n < 324 && n % d == 0
    ensures exists f :: 2 <= f <= 17 && f < n && n % f == 0
  {
    if d > 17 {
      var e := n / d;
      assert n == e * d;
      SmallCofactor(e, d);
      DivUnique(n, e, d, 0);
    }
  }

  lemma Between0(k: nat, n: nat)
    requires 0 <= k < 8 && PRIMES[k] < n < PRIMES[k + 1]
    ensures !Sifted(n)
  {
    ResidueOf(n);
  }

  lemma Between1(k: nat, n: nat)
    requires 8 <= k < 16 && PRIMES[k] < n < PRIMES[k + 1]
    ensures !Sifted(n)
  {
    ResidueOf(n);
  }

  lemma Between2(k: nat, n: nat)
    requires 16 <= k < 24 && PRIMES[k] < n < PRIMES[k + 1]
    ensures !Sifted(n)
  {
    ResidueOf(n);
  }

  lemma Between3(k: nat, n: nat)
    requires 24 <= k < 32 && PRIMES[k] < n < PRIMES[k + 1]
    ensures !Sifted(n)
  {
    ResidueOf(n);
  }

  lemma Between4(k: nat, n: nat)
    requires 32 <= k < 40 && PRIMES[k] < n < PRIMES[k + 1]
    ensures !Sifted(n)
  {
    ResidueOf(n);
  }

  lemma Between5(k: nat, n: nat)
    requires 40 <= k < 48 && PRIMES[k] < n < PRIMES[k + 1]
    ensures !Sifted(n)
  {
    ResidueOf(n);
  }

  lemma Between6(k: nat, n: nat)
    requires 48 <= k < 56 && PRIMES[k] < n < PRIMES[k + 1]
    ensures !Sifted(n)
  {
    ResidueOf(n);
  }

  lemma Between7(k: nat, n: nat)
    requires 56 <= k < 63 && PRIMES[k] < n < PRIMES[k + 1]
    ensures !Sifted(n)
  {
    ResidueOf(n);
  }

  lemma Row0(k: nat)
    requires 0 <= k < 8
    ensures Stands(k)
  {
  }

  lemma Row1(k: nat)
    requires 8 <= k < 16
    ensures Stands(k)
  {
  }

  lemma Row2(k: nat)
    requires 16 <= k < 24
    ensures Stands(k)
  {
  }

  lemma Row3(k: nat)
    requires 24 <= k < 32
    ensures Stands(k)
  {
  }

  lemma Row4(k: nat)
    requires 32 <= k < 40
    ensures Stands(k)
  {
  }

  lemma Row5(k: nat)
    requires 40 <= k < 48
    ensures Stands(k)
  {
  }

  lemma Row6(k: nat)
    requires 48 <= k < 56
    ensures Stands(k)
  {
  }

  lemma Row7(k: nat)
    requires 56 <= k < 64
    ensures Stands(k)
  {
  }

  lemma TableStands(k: nat)
    requires k < 64
    ensures Stands(k)
  {
    hide Stands;
    if k < 8 { Row0(k); } else if k < 16 { Row1(k); } else if k < 24 { Row2(k); } else if k < 32 { Row3(k); }
    else if k < 40 { Row4(k); } else if k < 48 { Row5(k); } else if k < 56 { Row6(k); } else { Row7(k); }
  }

  lemma NothingBetween(k: nat, n: nat)
    requires k < 63 && |PRIMES| == 64 && PRIMES[k] < n < PRIMES[k + 1]
    ensures !Sifted(n)
  {
    hide Sifted, PRIMES;
    if k < 8 { Between0(k, n); } else if k < 16 { Between1(k, n); } else if k < 24 { Between2(k, n); }
    else if k < 32 { Between3(k, n); } else if k < 40 { Between4(k, n); } else if k < 48 { Between5(k, n); }
    else if k < 56 { Between6(k, n); } else { Between7(k, n); }
  }

  /** The place in the table before which a number belongs. */
  lemma {:induction false} Place(n: nat, hi: nat) returns (k: nat)
    requires |PRIMES| == 64 && 0 < hi < 64 && PRIMES[0] <= n <= PRIMES[hi]
    ensures k <= hi && PRIMES[k] <= n && (k < hi ==> n < PRIMES[k + 1])
  {
    hide PRIMES;
    if n == PRIMES[hi] {
      k := hi;
    } else if PRIMES[hi - 1] <= n {
      k := hi - 1;
    } else {
      k := Place(n, hi - 1);
    }
  }

  lemma TableEnds()
    ensures |PRIMES| == 64 && PRIMES[0] == 2 && PRIMES[63] == 311
  {
  }

  /** The table holds the first 64 primes, in order. */
  lemma PrimesAreFirst()
    ensures |PRIMES| == 64 && PRIMES[63] == 311
    ensures forall i, j :: 0 <= i < j < 64 ==> PRIMES[i] < PRIMES[j]
    ensures forall n: nat :: n <= 311 ==> (n in PRIMES <==> IsPrime(n))
  {
    hide PRIMES, IsPrime, Sifted;
    TableEnds();
    forall i, j | 0 <= i < j < 64
      ensures PRIMES[i] < PRIMES[j]
    {
      Ascends(i, j);
    }
    forall n: nat | n <= 311
      ensures n in PRIMES <==> IsPrime(n)
    {
      Listed(n);
    }
  }

  lemma {:induction false} Ascends(i: nat, j: nat)
    requires i < j < 64
    ensures |PRIMES| == 64 && PRIMES[i] < PRIMES[j]
    decreases j
  {
    hide PRIMES, Sifted, IsCubeRoot;
    TableStands(j - 1);
    if i < j - 1 { Ascends(i, j - 1); }
  }

  lemma Listed(n: nat)
    requires n <= 311
    ensures n in PRIMES <==> IsPrime(n)
  {
    hide PRIMES, IsPrime, Sifted, IsCubeRoot;
    TableEnds();
    if n < 2 {
      TooSmall(n);
    } else {
      SiftedIsPrime(n);
      if n in PRIMES {
        var i :| 0 <= i < 64 && PRIMES[i] == n;
        TableStands(i);
      } else {
        var k := Place(n, 63);
        assert PRIMES[k] in PRIMES;
        NothingBetween(k, n);
      }
    }
  }

  lemma TooSmall(n: nat)
    requires n < 2
    ensures !IsPrime(n) && n !in PRIMES
  {
    hide IsCubeRoot;
    if n in PRIMES {
      TableEnds();
      var i :| 0 <= i < 64 && PRIMES[i] == n;
      if i > 0 { Ascends(0, i); }
    }
  }

  // ---- the constants ----

  /** Each round constant is the first 32 bits of the fractional part of the cube root of the next prime. */
  lemma RoundConstantsAreRoots(i: nat)
    requires i < 64
    ensures |PRIMES| == 64 && |K| == 64
    ensures exists q: nat :: IsCubeRoot(PRIMES[i], q) && K[i] == q % TWO_32
  {
    hide PRIMES, K, IsCubeRoot, Sifted, CubeWhole;
    TableStands(i);
    var q: nat := CubeWhole(PRIMES[i]) * TWO_32 + K[i];
    DivUnique(q, TWO_32, CubeWhole(PRIMES[i]), K[i]);
    assert IsCubeRoot(PRIMES[i], q) && K[i] == q % TWO_32;
  }

  /** Each initial hash word is the first 32 bits of the fractional part of the square root of a prime. */
  lemma InitialIsRoots(i: nat)
    requires i < 8
    ensures |PRIMES| == 64
    ensures var h := INITIAL; var words := [h.a, h.b, h.c, h.d, h.e, h.f, h.g, h.h];
      exists q: nat :: IsSquareRoot(PRIMES[i], q) && words[i] == q % TWO_32
  {
    var h := INITIAL;
    var words := [h.a, h.b, h.c, h.d, h.e, h.f, h.g, h.h];
    var whole := if i < 2 then 1 else if i < 4 then 2 else if i < 6 then 3 else 4;
    var q: nat := whole * TWO_32 + words[i];
    DivUnique(q, TWO_32, whole, words[i]);
    assert IsSquareRoot(PRIMES[i], q);
  }
}
