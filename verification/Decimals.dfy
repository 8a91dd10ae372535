/** Numbers written in base ten: of any length, as `toString`, and of a fixed width, as in a formatted time. */
module Decimals {
  import opened Names

  function Pow10(k: nat): (p: nat)
    ensures p > 0
  {
    if k == 0 then 1 else 10 * Pow10(k - 1)
  }

  predicate IsDigit(c: char) { '0' <= c <= '9' }

  predicate AllDigits(s: string) { forall i :: 0 <= i < |s| ==> IsDigit(s[i]) }

  /** The number that digits stand for, the most significant one first. */
  function Value(s: string): nat
    requires AllDigits(s)
  {
    if s == "" then 0 else 10 * Value(s[..|s| - 1]) + (s[|s| - 1] as int - '0' as int)
  }

  function Digit(d: nat): char
    requires d < 10
  {
    "0123456789"[d]
  }

  /** `n.toString()` */
  function Decimal(n: nat): string {
    if n < 10 then [Digit(n)] else Decimal(n / 10) + [Digit(n % 10)]
  }

  /** The last w digits of n, with leading zeros. */
  function Padded(n: nat, w: nat): (s: string)
    ensures |s| == w
  {
    if w == 0 then "" else Padded(n / 10, w - 1) + [Digit(n % 10)]
  }

  lemma OneMore(s: string, d: nat)
    requires AllDigits(s) && d < 10
    ensures AllDigits(s + [Digit(d)]) && Value(s + [Digit(d)]) == 10 * Value(s) + d
  {
    assert (s + [Digit(d)])[..|s|] == s;
    assert Digit(d) as int == '0' as int + d;
  }

  /** A number is written with digits that read back as it, and without a leading zero unless it is 0. */
  lemma {:induction false} DecimalReadsBack(n: nat)
    ensures AllDigits(Decimal(n)) && Value(Decimal(n)) == n
    ensures Decimal(n) != "" && (n > 0 ==> Decimal(n)[0] != '0') && (n == 0 ==> Decimal(n) == "0")
  {
    if n < 10 {
      OneMore("", n);
      assert "" + [Digit(n)] == [Digit(n)];
    } else {
      DecimalReadsBack(n / 10);
      OneMore(Decimal(n / 10), n % 10);
    }
  }

  /** It is the only such text of the number. */
  lemma {:induction false} DecimalUnique(s: string)
    requires s != "" && AllDigits(s) && (|s| > 1 ==> s[0] != '0')
    ensures Decimal(Value(s)) == s
  {
    var n := |s| - 1;
    var d := s[n] as int - '0' as int;
    assert Digit(d) == s[n];
    assert s == s[..n] + [s[n]];
    if n == 0 {
      assert Value(s[..0]) == 0;
    } else {
      DecimalUnique(s[..n]);
      DecimalReadsBack(0);
      assert s[..n][0] == s[0];
      assert Value(s) / 10 == Value(s[..n]) && Value(s) % 10 == d;
    }
  }

  lemma {:induction false} DecimalLength(n: nat, k: nat)
    requires 0 < k && n < Pow10(k)
    ensures |Decimal(n)| <= k
  {
    if n >= 10 {
      assert k > 1;
      DecimalLength(n / 10, k - 1);
    }
  }

  lemma {:induction false} PaddedReadsBack(n: nat, w: nat)
    requires n < Pow10(w)
    ensures AllDigits(Padded(n, w)) && Value(Padded(n, w)) == n
  {
    if w > 0 {
      PaddedReadsBack(n / 10, w - 1);
      OneMore(Padded(n / 10, w - 1), n % 10);
    }
  }

  /** Texts of equally many digits are in the order of their numbers, and equal only when these are. */
  lemma {:induction false} ValueOrder(s: string, t: string)
    requires |s| == |t| && AllDigits(s) && AllDigits(t)
    ensures Less(s, t) <==> Value(s) < Value(t)
    ensures s == t <==> Value(s) == Value(t)
  {
    if s != "" {
      var n := |s| - 1;
      assert s == s[..n] + [s[n]] && t == t[..n] + [t[n]];
      ValueOrder(s[..n], t[..n]);
      LessConcat(s[..n], [s[n]], t[..n], [t[n]]);
    }
  }

  /** Fixed-width numbers are in the order of their texts. */
  lemma PaddedOrder(n: nat, m: nat, w: nat)
    requires n < Pow10(w) && m < Pow10(w)
    ensures Less(Padded(n, w), Padded(m, w)) <==> n < m
    ensures Padded(n, w) == Padded(m, w) <==> n == m
  {
    PaddedReadsBack(n, w);
    PaddedReadsBack(m, w);
    ValueOrder(Padded(n, w), Padded(m, w));
  }

  lemma SmallPowers()
    ensures Pow10(2) == 100 && Pow10(4) == 10_000
  {
  }
}
