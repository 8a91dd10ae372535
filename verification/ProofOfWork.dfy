/** The proof-of-work search of web/src/components/pow/PowCaptcha.tsx. */
module ProofOfWork {
  import opened Words
  import opened Wrappers
  import opened Hex
  import opened Decimals
  import opened JsNumbers
  import Fips180
  import Sha256

  const BATCH_SIZE := 10000

  // maxNumber is None when the field is missing from the decoded challenge.
  datatype Challenge = Challenge(algorithm: string, challenge: string, maxNumber: Option<JsInteger>,
                                 salt: string, signature: string)

  datatype Solution = Solution(algorithm: string, challenge: string, number: nat,
                               salt: string, signature: string)

  /** `TextEncoder.encode`: some encoding of at most three bytes for a UTF-16 unit. */
  type Utf8 = string -> seq<Byte>

  ghost predicate Encodes(utf8: Utf8) {
    forall s :: |utf8(s)| <= 3 * |s|
  }

  function Digest(message: seq<Byte>): string {
    HexOf(Fips180.HashPadded(Sha256.SourcePad(message)))
  }

  /** n solves the challenge. */
  predicate Matches(c: Challenge, utf8: Utf8, n: nat) {
    Digest(utf8(c.salt + Decimal(n))) == c.challenge
  }

  ghost predicate NoMatchBelow(c: Challenge, utf8: Utf8, bound: int) {
    forall n: nat :: n < bound ==> !Matches(c, utf8, n)
  }

  /** `sha256` of sha256.ts. */
  method Sha256Text(message: string, utf8: Utf8) returns (hex: string)
    requires |utf8(message)| + 72 < 0x20_0000_0000_0000
    ensures hex == Digest(utf8(message))
    ensures |utf8(message)| < 0x2000_0000 ==> hex == HexOf(Fips180.Sha256(utf8(message)))
  {
    hide Sha256.SourcePad, Fips180.HashPadded, Fips180.Sha256, HexOf;
    var encoded := utf8(message);
    var bytes := new Byte[|encoded|](i requires 0 <= i < |encoded| => encoded[i]);
    assert bytes[..] == encoded;
    var hash := Sha256.Sha256Hash(bytes);
    hex := ToHex(hash);
  }

  /** How doubles round: exact at zero, and never reversing the order of two results. */
  type Rounding = real -> real

  ghost predicate Rounds(fl: Rounding) {
    fl(0.0) == 0.0 && forall x, y :: x <= y ==> fl(x) <= fl(y)
  }

  /** `Math.min(99, Math.floor((end / maxNumber) * 100))`, rounding after each operation. */
  function Percent(fl: Rounding, end: nat, maxNumber: nat): int {
    if maxNumber == 0 then 99   // end / 0 is Infinity
    else
      var percent := fl(fl(end as real / maxNumber as real) * 100.0).Floor;
      if percent < 99 then percent else 99
  }

  lemma PercentMonotone(fl: Rounding, end: nat, later: nat, maxNumber: nat)
    requires Rounds(fl) && end <= later
    ensures 0 <= Percent(fl, end, maxNumber) <= Percent(fl, later, maxNumber) <= 99
  {
    if maxNumber > 0 {
      var p, q := end as real / maxNumber as real, later as real / maxNumber as real;
      QuotientMonotone(end as real, later as real, maxNumber as real);
      assert 0.0 <= fl(p) <= fl(q);
      assert 0.0 <= fl(fl(p) * 100.0) <= fl(fl(q) * 100.0);
    }
  }

  lemma QuotientMonotone(x: real, y: real, d: real)
    requires 0.0 <= x <= y && d > 0.0
    ensures 0.0 <= x / d <= y / d
  {
    var p, q := x / d, y / d;
    assert p * d == x && q * d == y;
    if p > q {
      assert false;
    }
  }

  /** Without rounding a report is the part of 0..maxNumber that is done, in whole percent, but never 100. */
  lemma PercentMeans(fl: Rounding, end: nat, maxNumber: nat)
    requires maxNumber > 0 && forall x :: fl(x) == x
    ensures Percent(fl, end, maxNumber) == if end * 100 / maxNumber < 99 then end * 100 / maxNumber else 99
  {
    var x := end as real / maxNumber as real;
    assert x * maxNumber as real == end as real;
    assert x * 100.0 * maxNumber as real == (end * 100) as real;
    WholePart(end * 100, maxNumber, x * 100.0);
  }

  lemma {:induction false} CastProduct(d: nat, q: nat)
    ensures (d * q) as real == d as real * q as real
  {
    if q > 0 {
      CastProduct(d, q - 1);
      assert d * q == d * (q - 1) + d;
    }
  }

  lemma WholePart(n: nat, d: nat, x: real)
    requires d > 0 && x * d as real == n as real
    ensures x.Floor == n / d
  {
    var q: nat, r: nat := n / d, n % d;
    assert n == d * q + r;
    CastProduct(d, q);
    Between(x, q as real, d as real, r as real);
  }

  lemma Between(x: real, q: real, d: real, r: real)
    requires 0.0 <= r < d && x * d == d * q + r
    ensures q <= x < q + 1.0
  {
    var y := x - q;
    assert y * d == r;
    if y < 0.0 || y >= 1.0 {
      SignOfProduct(y, d);
      assert false;
    }
  }

  lemma SignOfProduct(y: real, d: real)
    requires d > 0.0
    ensures y < 0.0 ==> y * d < 0.0
    ensures y >= 1.0 ==> y * d >= d
  {
    if y >= 1.0 { assert (y - 1.0) * d >= 0.0; }
  }

  /** The last report is 99 for every rounding that keeps 1 and 100. */
  lemma LastReport(fl: Rounding, end: nat, maxNumber: nat)
    requires Rounds(fl) && fl(1.0) == 1.0 && fl(100.0) == 100.0 && end > maxNumber
    ensures Percent(fl, end, maxNumber) == 99
  {
    hide Rounds;
    if maxNumber > 0 {
      var d := maxNumber as real;
      var q := end as real / d;
      QuotientMonotone(d, end as real, d);
      KeepsOrder(fl, 1.0, q);
      KeepsOrder(fl, 100.0, fl(q) * 100.0);
    }
  }

  lemma KeepsOrder(fl: Rounding, x: real, y: real)
    requires Rounds(fl) && x <= y
    ensures fl(x) <= fl(y)
  {
  }

  /** The end of batch b. */
  function BatchEnd(b: nat, maxNumber: nat): nat {
    var end := b * BATCH_SIZE + BATCH_SIZE;
    if end < maxNumber + 1 then end else maxNumber + 1
  }

  /** The reports after the first n batches. */
  function Reports(fl: Rounding, n: nat, maxNumber: nat): (r: seq<int>)
    ensures |r| == n
  {
    seq(n, b requires 0 <= b < n => Percent(fl, BatchEnd(b, maxNumber), maxNumber))
  }

  /** Progress never falls and never reaches 100 before the answer. */
  lemma ProgressMonotone(fl: Rounding, n: nat, maxNumber: nat, i: nat, j: nat)
    requires Rounds(fl) && i <= j < n
    ensures 0 <= Reports(fl, n, maxNumber)[i] <= Reports(fl, n, maxNumber)[j] <= 99
  {
    PercentMonotone(fl, BatchEnd(i, maxNumber), BatchEnd(j, maxNumber), maxNumber);
  }

  lemma CandidateLength(n: JsInteger)
    requires n >= 0
    ensures |Decimal(n)| <= 16
  {
    assert Pow10(8) == 1_0000_0000;
    assert Pow10(16) == 1_0000_0000_0000_0000;
    DecimalLength(n, 16);
  }

  /** Tries every candidate in order. `cancelled(b)` is the answer before batch b. */
  method SolveChallenge(c: Challenge, utf8: Utf8, fl: Rounding, cancelled: nat -> bool)
      returns (solution: Option<Solution>, progress: seq<int>)
    requires Encodes(utf8)
    requires |c.salt| < 0x4_0000_0000_0000
    ensures c.maxNumber.None? || c.maxNumber.value < 0 ==> solution.None? && progress == []
    ensures c.maxNumber.Some? && c.maxNumber.value >= 0 ==>
      progress == Reports(fl, |progress|, c.maxNumber.value)
    ensures solution.Some? ==>
      && c.maxNumber.Some? && solution.value.number <= c.maxNumber.value
      && Matches(c, utf8, solution.value.number) && NoMatchBelow(c, utf8, solution.value.number)
      && solution.value == Solution(c.algorithm, c.challenge, solution.value.number, c.salt, c.signature)
      && |progress| == solution.value.number / BATCH_SIZE
    ensures solution.None? && c.maxNumber.Some? && c.maxNumber.value >= 0 ==>
      || NoMatchBelow(c, utf8, c.maxNumber.value + 1)
      || (cancelled(|progress|) && NoMatchBelow(c, utf8, |progress| * BATCH_SIZE))
    ensures forall b :: 0 <= b < |progress| ==> !cancelled(b)
    ensures (forall b: nat :: !cancelled(b)) ==>
      (solution.Some? <==> exists n: nat :: c.maxNumber.Some? && n <= c.maxNumber.value && Matches(c, utf8, n))
  {
    hide Digest, Decimal, Percent;
    progress := [];
    if c.maxNumber.None? { return None, []; }   // start <= undefined is false
    var maxNumber := c.maxNumber.value;
    var start := 0;
    while start <= maxNumber
      invariant start == |progress| * BATCH_SIZE
      invariant NoMatchBelow(c, utf8, if start <= maxNumber then start else maxNumber + 1)
      invariant start > 0 ==> maxNumber >= 0
      invariant maxNumber >= 0 ==> progress == Reports(fl, |progress|, maxNumber)
      invariant forall b :: 0 <= b < |progress| ==> !cancelled(b)
      decreases maxNumber - start
    {
      if cancelled(|progress|) { return None, progress; }
      var end := if start + BATCH_SIZE < maxNumber + 1 then start + BATCH_SIZE else maxNumber + 1;
      var n: nat := start;
      while n < end
        invariant start <= n <= end
        invariant NoMatchBelow(c, utf8, n)
      {
        CandidateLength(n);
        var hash := Sha256Text(c.salt + Decimal(n), utf8);
        if hash == c.challenge {
          return Some(Solution(c.algorithm, c.challenge, n, c.salt, c.signature)), progress;
        }
        n := n + 1;
      }
      progress := progress + [Percent(fl, end, maxNumber)];
      start := start + BATCH_SIZE;
    }
    return None, progress;
  }
}
