/** SHA-256 as FIPS 180-4 defines it, on 32-bit words. */
module Fips180 {
  import opened Words

  // Section 4.2.2, a row of eight words at a time.
  const K: seq<Word> :=
    [0x428a2f98, 0x71374491, 0xb5c0fbcf, 0xe9b5dba5, 0x3956c25b, 0x59f111f1, 0x923f82a4, 0xab1c5ed5] +
    [0xd807aa98, 0x12835b01, 0x243185be, 0x550c7dc3, 0x72be5d74, 0x80deb1fe, 0x9bdc06a7, 0xc19bf174] +
    [0xe49b69c1, 0xefbe4786, 0x0fc19dc6, 0x240ca1cc, 0x2de92c6f, 0x4a7484aa, 0x5cb0a9dc, 0x76f988da] +
    [0x983e5152, 0xa831c66d, 0xb00327c8, 0xbf597fc7, 0xc6e00bf3, 0xd5a79147, 0x06ca6351, 0x14292967] +
    [0x27b70a85, 0x2e1b2138, 0x4d2c6dfc, 0x53380d13, 0x650a7354, 0x766a0abb, 0x81c2c92e, 0x92722c85] +
    [0xa2bfe8a1, 0xa81a664b, 0xc24b8b70, 0xc76c51a3, 0xd192e819, 0xd6990624, 0xf40e3585, 0x106aa070] +
    [0x19a4c116, 0x1e376c08, 0x2748774c, 0x34b0bcb5, 0x391c0cb3, 0x4ed8aa4a, 0x5b9cca4f, 0x682e6ff3] +
    [0x748f82ee, 0x78a5636f, 0x84c87814, 0x8cc70208, 0x90befffa, 0xa4506ceb, 0xbef9a3f7, 0xc67178f2]

  datatype Hash = Hash(a: Word, b: Word, c: Word, d: Word, e: Word, f: Word, g: Word, h: Word)

  // Section 5.3.3.
  const INITIAL := Hash(0x6a09e667, 0xbb67ae85, 0x3c6ef372, 0xa54ff53a,
                        0x510e527f, 0x9b05688c, 0x1f83d9ab, 0x5be0cd19)

  function Add(x: Word, y: Word): Word { (x + y) % TWO_32 }

  // Section 4.1.2.
  function Ch(x: Word, y: Word, z: Word): Word { Xor(And(x, y), And(Not(x), z)) }
  function Maj(x: Word, y: Word, z: Word): Word { Xor(Xor(And(x, y), And(x, z)), And(y, z)) }
  function BigSigma0(x: Word): Word { Xor(Xor(Rotr(x, 2), Rotr(x, 13)), Rotr(x, 22)) }
  function BigSigma1(x: Word): Word { Xor(Xor(Rotr(x, 6), Rotr(x, 11)), Rotr(x, 25)) }
  function SmallSigma0(x: Word): Word { Xor(Xor(Rotr(x, 7), Rotr(x, 18)), Shr(x, 3)) }
  function SmallSigma1(x: Word): Word { Xor(Xor(Rotr(x, 17), Rotr(x, 19)), Shr(x, 10)) }

  /** Bit by bit Ch chooses by x between y and z, and Maj is what at least two of the three have. */
  lemma ChooseAndMajority(x: Word, y: Word, z: Word, i: nat)
    requires i < 32
    ensures Bit(Ch(x, y, z), i) == if Bit(x, i) then Bit(y, i) else Bit(z, i)
    ensures Bit(Maj(x, y, z), i) == if Bit(x, i) == Bit(y, i) then Bit(x, i) else Bit(z, i)
  {
    hide And, Xor, Not, Bit;
    OperationBits(x, y, i);
    OperationBits(x, z, i);
    OperationBits(y, z, i);
    OperationBits(Not(x), z, i);
    OperationBits(And(x, y), And(Not(x), z), i);
    OperationBits(And(x, y), And(x, z), i);
    OperationBits(Xor(And(x, y), And(x, z)), And(y, z), i);
  }

  predicate Odd(a: bool, b: bool, c: bool) { (a != b) != c }

  /** Bit i of the Sigma functions, from the bits of the argument; a shift brings in zeros. */
  lemma SigmaBits(x: Word, i: nat)
    requires i < 32
    ensures Bit(BigSigma0(x), i) == Odd(Bit(x, (i + 2) % 32), Bit(x, (i + 13) % 32), Bit(x, (i + 22) % 32))
    ensures Bit(BigSigma1(x), i) == Odd(Bit(x, (i + 6) % 32), Bit(x, (i + 11) % 32), Bit(x, (i + 25) % 32))
    ensures Bit(SmallSigma0(x), i) ==
      Odd(Bit(x, (i + 7) % 32), Bit(x, (i + 18) % 32), i + 3 < 32 && Bit(x, i + 3))
    ensures Bit(SmallSigma1(x), i) ==
      Odd(Bit(x, (i + 17) % 32), Bit(x, (i + 19) % 32), i + 10 < 32 && Bit(x, i + 10))
  {
    hide Xor, Rotr, Shr, Bit;
    OddBits(Rotr(x, 2), Rotr(x, 13), Rotr(x, 22), i);
    OddBits(Rotr(x, 6), Rotr(x, 11), Rotr(x, 25), i);
    OddBits(Rotr(x, 7), Rotr(x, 18), Shr(x, 3), i);
    OddBits(Rotr(x, 17), Rotr(x, 19), Shr(x, 10), i);
    RotrBit(x, 2, i); RotrBit(x, 13, i); RotrBit(x, 22, i);
    RotrBit(x, 6, i); RotrBit(x, 11, i); RotrBit(x, 25, i);
    RotrBit(x, 7, i); RotrBit(x, 18, i); RotrBit(x, 17, i); RotrBit(x, 19, i);
    ShiftBits(x, 3, i); ShiftBits(x, 10, i);
    if i + 3 >= 32 { WordHighBit(x, i + 3); }
    if i + 10 >= 32 { WordHighBit(x, i + 10); }
  }

  lemma OddBits(x: Word, y: Word, z: Word, i: nat)
    requires i < 32
    ensures Bit(Xor(Xor(x, y), z), i) == Odd(Bit(x, i), Bit(y, i), Bit(z, i))
  {
    hide Xor, Bit;
    OperationBits(x, y, i);
    OperationBits(Xor(x, y), z, i);
  }

  /** The big-endian 32-bit word at a position, section 3.1. */
  function WordAt(s: seq<Byte>, p: nat): Word
    requires p + 4 <= |s|
  {
    (s[p] as int) * 0x100_0000 + (s[p + 1] as int) * 0x1_0000 + (s[p + 2] as int) * 0x100 + s[p + 3]
  }

  function WordBytes(w: Word): (s: seq<Byte>)
    ensures |s| == 4 && WordAt(s, 0) == w
  {
    var q := w / 0x100;
    var r := q / 0x100;
    [r / 0x100, r % 0x100, q % 0x100, w % 0x100]
  }

  /** The first n words of the message schedule of a block, section 6.2.2 step 1. */
  function Schedule(block: seq<Byte>, n: nat): (w: seq<Word>)
    requires |block| == 64
    ensures |w| == n
  {
    if n == 0 then []
    else
      var w := Schedule(block, n - 1);
      w + [if n <= 16 then WordAt(block, 4 * (n - 1)) else NextWord(w)]
  }

  function NextWord(w: seq<Word>): Word
    requires |w| >= 16
  {
    var t := |w|;
    Add(Add(Add(w[t - 16], SmallSigma0(w[t - 15])), w[t - 7]), SmallSigma1(w[t - 2]))
  }

  /** One round, section 6.2.2 step 3. */
  function Round(s: Hash, k: Word, w: Word): Hash {
    var t1 := Add(Add(Add(Add(s.h, BigSigma1(s.e)), Ch(s.e, s.f, s.g)), k), w);
    var t2 := Add(BigSigma0(s.a), Maj(s.a, s.b, s.c));
    Hash(Add(t1, t2), s.a, s.b, s.c, Add(s.d, t1), s.e, s.f, s.g)
  }

  function Rounds(s: Hash, w: seq<Word>, n: nat): Hash
    requires n <= |w| <= 64
  {
    if n == 0 then s else Round(Rounds(s, w, n - 1), K[n - 1], w[n - 1])
  }

  /** Section 6.2.2 step 4. */
  function AddHash(x: Hash, y: Hash): Hash {
    Hash(Add(x.a, y.a), Add(x.b, y.b), Add(x.c, y.c), Add(x.d, y.d),
         Add(x.e, y.e), Add(x.f, y.f), Add(x.g, y.g), Add(x.h, y.h))
  }

  function Compress(s: Hash, block: seq<Byte>): Hash
    requires |block| == 64
  {
    AddHash(s, Rounds(s, Schedule(block, 64), 64))
  }

  /** The hash value after the first n blocks of a padded message. */
  function Chain(padded: seq<Byte>, n: nat): Hash
    requires 64 * n <= |padded|
  {
    if n == 0 then INITIAL else Compress(Chain(padded, n - 1), padded[64 * (n - 1)..64 * n])
  }

  function HashBytes(s: Hash): seq<Byte> {
    WordBytes(s.a) + WordBytes(s.b) + WordBytes(s.c) + WordBytes(s.d) +
    WordBytes(s.e) + WordBytes(s.f) + WordBytes(s.g) + WordBytes(s.h)
  }

  function HashPadded(padded: seq<Byte>): seq<Byte>
    requires |padded| % 64 == 0
  {
    HashBytes(Chain(padded, |padded| / 64))
  }

  /** k zero bytes, the byte 0x80 and an 8-byte length end the message on a block boundary. */
  predicate FillsBlock(length: nat, k: nat) { (length + 1 + k + 8) % 64 == 0 }

  /** Number of zero bytes after the byte 0x80: the least one that fills a block. */
  function ZeroBytes(length: nat): (k: nat)
    ensures FillsBlock(length, k)
    ensures forall j: nat :: FillsBlock(length, j) ==> k <= j
  {
    (55 - length) % 64
  }

  function Zeros(n: nat): (s: seq<Byte>)
    ensures |s| == n && forall i :: 0 <= i < n ==> s[i] == 0
  {
    seq(n, i => 0)
  }

  /** The padded message, section 5.1.1: a one bit, zero bits, and the bit length in 64 bits. */
  function Pad(message: seq<Byte>): (p: seq<Byte>)
    requires |message| < 0x2000_0000_0000_0000
    ensures |p| % 64 == 0
  {
    var bits := 8 * |message|;
    message + [0x80] + Zeros(ZeroBytes(|message|)) + WordBytes(bits / TWO_32) + WordBytes(bits % TWO_32)
  }

  function Sha256(message: seq<Byte>): seq<Byte>
    requires |message| < 0x2000_0000_0000_0000
  {
    HashPadded(Pad(message))
  }

  /** The equation for the number of zero bits in section 5.1.1, for a message of `bits` bits. */
  predicate ZeroBitRule(bits: nat, k: nat) { (bits + 1 + k) % 512 == 448 }

  /** The byte 0x80 and ZeroBytes zero bytes are the least padding that section 5.1.1 allows. */
  lemma PaddingRule(length: nat)
    ensures ZeroBitRule(8 * length, 7 + 8 * ZeroBytes(length))
    ensures forall k: nat :: ZeroBitRule(8 * length, k) ==> 7 + 8 * ZeroBytes(length) <= k
  {
    forall k: nat | ZeroBitRule(8 * length, k)
      ensures 7 + 8 * ZeroBytes(length) <= k
    {
      hide ZeroBytes, FillsBlock;
      var j := WholeBytes(length, k);
      assert FillsBlock(length, j);
    }
  }

  /** The zero bits that the rule allows fill the byte 0x80 and whole bytes. */
  lemma WholeBytes(length: nat, k: nat) returns (j: nat)
    requires ZeroBitRule(8 * length, k)
    ensures k == 7 + 8 * j && FillsBlock(length, j)
  {
    var q := (8 * length + 1 + k) / 512;
    assert 8 * length + 1 + k == 512 * q + 448;
    j := 64 * q + 55 - length;
    DivUnique(length + 1 + j + 8, 64, q + 1, 0);
  }

  /** Bit j of a message, the most significant bit of each byte first. */
  predicate BitAt(s: seq<Byte>, j: nat)
    requires j < 8 * |s|
  {
    Bit(s[j / 8], 7 - j % 8)
  }

  /** A word is read from four bytes with its most significant bit first. */
  lemma WordAtBits(s: seq<Byte>, p: nat, j: nat)
    requires p + 4 <= |s| && j < 32
    ensures Bit(WordAt(s, p), 31 - j) == BitAt(s, 8 * p + j)
  {
    hide Bit;
    assert (8 * p + j) / 8 == p + j / 8 && (8 * p + j) % 8 == j % 8;
    assert Pow2(8) == 256 by { Pow2At32(); }
    var high: nat := s[p];
    var two: nat := high * 256 + s[p + 1];
    var three: nat := two * 256 + s[p + 2];
    assert WordAt(s, p) == three * 256 + s[p + 3];
    JoinedBit(three, s[p + 3], 31 - j);
    if j < 24 {
      JoinedBit(two, s[p + 2], 23 - j);
      if j < 16 {
        JoinedBit(high, s[p + 1], 15 - j);
      }
    }
  }

  lemma JoinedBit(high: nat, low: Byte, i: nat)
    ensures Bit(high * 256 + low, i) == if i < 8 then Bit(low, i) else Bit(high, i - 8)
  {
    hide Bit;
    Pow2At32();
    DivUnique(high * 256 + low, 256, high, low);
    if i < 8 {
      ModBit(high * 256 + low, 8, i);
    } else {
      ShrBit(high * 256 + low, 8, i - 8);
    }
  }

  /** The digest is the eight words in order. */
  lemma DigestWords(h: Hash)
    ensures var s := HashBytes(h);
      && |s| == 32
      && WordAt(s, 0) == h.a && WordAt(s, 4) == h.b && WordAt(s, 8) == h.c && WordAt(s, 12) == h.d
      && WordAt(s, 16) == h.e && WordAt(s, 20) == h.f && WordAt(s, 24) == h.g && WordAt(s, 28) == h.h
  {
    hide WordBytes;
    var s := HashBytes(h);
    WordInside(s, 0, h.a); WordInside(s, 4, h.b); WordInside(s, 8, h.c); WordInside(s, 12, h.d);
    WordInside(s, 16, h.e); WordInside(s, 20, h.f); WordInside(s, 24, h.g); WordInside(s, 28, h.h);
  }

  lemma WordInside(s: seq<Byte>, p: nat, w: Word)
    requires p + 4 <= |s| && s[p..p + 4] == WordBytes(w)
    ensures WordAt(s, p) == w
  {
    var b := s[p..p + 4];
    assert s[p] == b[0] && s[p + 1] == b[1] && s[p + 2] == b[2] && s[p + 3] == b[3];
  }

  /** The padded message in bits: the message, a one, zeros up to the last 64 bits, and there the bit length. */
  lemma PadBits(message: seq<Byte>)
    requires |message| < 0x2000_0000_0000_0000
    ensures var p, n := Pad(message), 8 * |message|;
      && n + 65 <= 8 * |p| < n + 65 + 512
      && (forall j: nat :: j < n ==> BitAt(p, j) == BitAt(message, j))
      && BitAt(p, n)
      && (forall j: nat :: n < j < 8 * |p| - 64 ==> !BitAt(p, j))
      && WordAt(p, |p| - 8) * TWO_32 + WordAt(p, |p| - 4) == n
  {
    hide Bit, WordBytes, ZeroBytes, WordAt;
    var p, n, k := Pad(message), 8 * |message|, ZeroBytes(|message|);
    FewZeros(|message|);
    assert forall i :: 0 <= i < |message| ==> p[i] == message[i];
    assert p[|message|] == 0x80;
    assert forall i :: |message| < i < |p| - 8 ==> p[i] == 0;
    MarkBits();
    forall j: nat | n < j < 8 * |p| - 64
      ensures !BitAt(p, j)
    {
      if j / 8 == |message| {
      } else {
        ZeroBit(7 - j % 8);
      }
    }
    WordsAtEnd(message + [0x80] + Zeros(k), n / TWO_32, n % TWO_32);
  }

  lemma FewZeros(length: nat)
    ensures ZeroBytes(length) < 64
  {
  }

  /** The byte 0x80 is a one and seven zeros. */
  lemma MarkBits()
    ensures Bit(0x80, 7) && forall i: nat :: i < 7 ==> !Bit(0x80, i)
  {
    forall i: nat | i < 7
      ensures !Bit(0x80, i)
    {
      assert i == 0 || i == 1 || i == 2 || i == 3 || i == 4 || i == 5 || i == 6;
    }
  }

  lemma WordsAtEnd(head: seq<Byte>, high: Word, low: Word)
    ensures var p := head + WordBytes(high) + WordBytes(low);
      WordAt(p, |p| - 8) == high && WordAt(p, |p| - 4) == low
  {
    var p := head + WordBytes(high) + WordBytes(low);
    assert forall i :: 0 <= i < 4 ==> p[|p| - 8 + i] == WordBytes(high)[i] && p[|p| - 4 + i] == WordBytes(low)[i];
  }
}
