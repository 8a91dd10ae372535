/** The SHA-256 of web/src/lib/pow/sha256.ts: JavaScript numbers and typed arrays. */
module Sha256 {
  import opened Words
  import opened JsNumbers
  import Fips180

  const K: seq<Word> :=
    [0x428a2f98, 0x71374491, 0xb5c0fbcf, 0xe9b5dba5, 0x3956c25b, 0x59f111f1, 0x923f82a4, 0xab1c5ed5] +
    [0xd807aa98, 0x12835b01, 0x243185be, 0x550c7dc3, 0x72be5d74, 0x80deb1fe, 0x9bdc06a7, 0xc19bf174] +
    [0xe49b69c1, 0xefbe4786, 0x0fc19dc6, 0x240ca1cc, 0x2de92c6f, 0x4a7484aa, 0x5cb0a9dc, 0x76f988da] +
    [0x983e5152, 0xa831c66d, 0xb00327c8, 0xbf597fc7, 0xc6e00bf3, 0xd5a79147, 0x06ca6351, 0x14292967] +
    [0x27b70a85, 0x2e1b2138, 0x4d2c6dfc, 0x53380d13, 0x650a7354, 0x766a0abb, 0x81c2c92e, 0x92722c85] +
    [0xa2bfe8a1, 0xa81a664b, 0xc24b8b70, 0xc76c51a3, 0xd192e819, 0xd6990624, 0xf40e3585, 0x106aa070] +
    [0x19a4c116, 0x1e376c08, 0x2748774c, 0x34b0bcb5, 0x391c0cb3, 0x4ed8aa4a, 0x5b9cca4f, 0x682e6ff3] +
    [0x748f82ee, 0x78a5636f, 0x84c87814, 0x8cc70208, 0x90befffa, 0xa4506ceb, 0xbef9a3f7, 0xc67178f2]

  function RightRotate(value: JsInteger, amount: nat): Int32
    requires amount <= 32
  {
    BitOr(ShiftRightUnsigned(value, amount), ShiftLeft(value, 32 - amount))
  }

  /** Rotating a number, whichever sign its reading has, rotates the word it stands for. */
  lemma RightRotateRotates(value: JsInteger, amount: nat)
    requires 0 < amount < 32
    ensures ToUint32(RightRotate(value, amount)) == Rotr(ToUint32(value), amount)
  {
    hide Or, Shr, Shl, ToUint32, ToInt32, BitOr;
    var high, low := ShiftRightUnsigned(value, amount), ShiftLeft(value, 32 - amount);
    OperatorWords(high, low);
    WordSurvives(high);
    WordSurvives(Shl(ToUint32(value), 32 - amount));
  }

  // The working variables: 32-bit results, or the unsigned constants they start from.
  type Working = x: int | -0x8000_0000 <= x < 0x1_0000_0000 witness 0

  datatype Chaining = Chaining(h0: Working, h1: Working, h2: Working, h3: Working,
                               h4: Working, h5: Working, h6: Working, h7: Working)
  {
    /** The hash value these numbers stand for. */
    function Words(): Fips180.Hash {
      Fips180.Hash(ToUint32(h0), ToUint32(h1), ToUint32(h2), ToUint32(h3),
                   ToUint32(h4), ToUint32(h5), ToUint32(h6), ToUint32(h7))
    }
  }

  function WordsOf(w: seq<Int32>): (r: seq<Word>)
    ensures |r| == |w|
    ensures forall i :: 0 <= i < |w| ==> r[i] == ToUint32(w[i])
  {
    seq(|w|, i requires 0 <= i < |w| => ToUint32(w[i]))
  }

  function GetInt32(view: seq<Byte>, offset: nat): Int32
    requires offset + 4 <= |view|
  {
    ToInt32(Fips180.WordAt(view, offset))
  }

  function S1(e: Working): Int32 {
    BitXor(BitXor(RightRotate(e, 6), RightRotate(e, 11)), RightRotate(e, 25))
  }

  function S0(a: Working): Int32 {
    BitXor(BitXor(RightRotate(a, 2), RightRotate(a, 13)), RightRotate(a, 22))
  }

  function Ch(e: Working, f: Working, g: Working): Int32 {
    BitXor(BitAnd(e, f), BitAnd(BitNot(e), g))
  }

  function Maj(a: Working, b: Working, c: Working): Int32 {
    BitXor(BitXor(BitAnd(a, b), BitAnd(a, c)), BitAnd(b, c))
  }

  function SmallS0(x: Int32): Int32 {
    BitXor(BitXor(RightRotate(x, 7), RightRotate(x, 18)), ShiftRightUnsigned(x, 3))
  }

  function SmallS1(x: Int32): Int32 {
    BitXor(BitXor(RightRotate(x, 17), RightRotate(x, 19)), ShiftRightUnsigned(x, 10))
  }

  lemma S1IsBigSigma1(e: Working)
    ensures ToUint32(S1(e)) == Fips180.BigSigma1(ToUint32(e))
  {
    hide Xor, Rotr, Shr, RightRotate, BitXor, ToUint32;
    RightRotateRotates(e, 6); RightRotateRotates(e, 11); RightRotateRotates(e, 25);
    OperatorWords(RightRotate(e, 6), RightRotate(e, 11));
    OperatorWords(BitXor(RightRotate(e, 6), RightRotate(e, 11)), RightRotate(e, 25));
  }

  lemma S0IsBigSigma0(a: Working)
    ensures ToUint32(S0(a)) == Fips180.BigSigma0(ToUint32(a))
  {
    hide Xor, Rotr, Shr, RightRotate, BitXor, ToUint32;
    RightRotateRotates(a, 2); RightRotateRotates(a, 13); RightRotateRotates(a, 22);
    OperatorWords(RightRotate(a, 2), RightRotate(a, 13));
    OperatorWords(BitXor(RightRotate(a, 2), RightRotate(a, 13)), RightRotate(a, 22));
  }

  lemma SmallS0IsSmallSigma0(x: Int32)
    ensures ToUint32(SmallS0(x)) == Fips180.SmallSigma0(ToUint32(x))
  {
    hide Xor, Rotr, Shr, RightRotate, BitXor, ToUint32;
    RightRotateRotates(x, 7); RightRotateRotates(x, 18);
    OperatorWords(RightRotate(x, 7), RightRotate(x, 18));
    OperatorWords(BitXor(RightRotate(x, 7), RightRotate(x, 18)), ShiftRightUnsigned(x, 3));
    WordSurvives(ShiftRightUnsigned(x, 3));
  }

  lemma SmallS1IsSmallSigma1(x: Int32)
    ensures ToUint32(SmallS1(x)) == Fips180.SmallSigma1(ToUint32(x))
  {
    hide Xor, Rotr, Shr, RightRotate, BitXor, ToUint32;
    RightRotateRotates(x, 17); RightRotateRotates(x, 19);
    OperatorWords(RightRotate(x, 17), RightRotate(x, 19));
    OperatorWords(BitXor(RightRotate(x, 17), RightRotate(x, 19)), ShiftRightUnsigned(x, 10));
    WordSurvives(ShiftRightUnsigned(x, 10));
  }

  lemma ChIsCh(e: Working, f: Working, g: Working)
    ensures ToUint32(Ch(e, f, g)) == Fips180.Ch(ToUint32(e), ToUint32(f), ToUint32(g))
  {
    hide And, Xor, Not, BitAnd, BitXor, BitNot, ToUint32;
    OperatorWords(e, f);
    OperatorWords(BitNot(e), g);
    OperatorWords(BitAnd(e, f), BitAnd(BitNot(e), g));
  }

  lemma MajIsMaj(a: Working, b: Working, c: Working)
    ensures ToUint32(Maj(a, b, c)) == Fips180.Maj(ToUint32(a), ToUint32(b), ToUint32(c))
  {
    hide And, Xor, BitAnd, BitXor, ToUint32;
    OperatorWords(a, b);
    OperatorWords(a, c);
    OperatorWords(b, c);
    OperatorWords(BitAnd(a, b), BitAnd(a, c));
    OperatorWords(BitXor(BitAnd(a, b), BitAnd(a, c)), BitAnd(b, c));
  }

  /** The first pair of loops over a block: the message schedule. */
  method FillSchedule(view: array<Byte>, offset: nat, w: array<Int32>)
    requires offset + 64 <= view.Length && w.Length == 64
    modifies w
    ensures WordsOf(w[..]) == Fips180.Schedule(view[offset..offset + 64], 64)
  {
    hide SmallS0, SmallS1, ToInt32, ToUint32, Fips180.NextWord, Fips180.WordAt;
    ghost var block := view[offset..offset + 64];
    for i := 0 to 16
      invariant WordsOf(w[..i]) == Fips180.Schedule(block, i)
    {
      w[i] := GetInt32(view[..], offset + i * 4);
      WordWithin(view[..], offset, i);
      Extended(w[..], i);
    }
    for i := 16 to 64
      invariant WordsOf(w[..i]) == Fips180.Schedule(block, i)
    {
      var s0 := SmallS0(w[i - 15]);
      var s1 := SmallS1(w[i - 2]);
      NextWordMatches(w[..i]);
      w[i] := ToInt32(Plus(Plus(Plus(w[i - 16], s0), w[i - 7]), s1));
      Extended(w[..], i);
    }
    assert w[..64] == w[..];
  }

  lemma WordWithin(view: seq<Byte>, offset: nat, i: nat)
    requires offset + 64 <= |view| && i < 16
    ensures ToUint32(GetInt32(view, offset + i * 4)) == Fips180.WordAt(view[offset..offset + 64], 4 * i)
  {
    var block := view[offset..offset + 64];
    assert Fips180.WordAt(view, offset + i * 4) == Fips180.WordAt(block, 4 * i);
    SameBits(Fips180.WordAt(block, 4 * i));
  }

  lemma Extended(w: seq<Int32>, i: nat)
    requires i < |w|
    ensures WordsOf(w[..i + 1]) == WordsOf(w[..i]) + [ToUint32(w[i])]
  {
  }

  lemma NextWordMatches(w: seq<Int32>)
    requires |w| >= 16
    ensures var t := |w|;
      ToUint32(ToInt32(w[t - 16] + SmallS0(w[t - 15]) + w[t - 7] + SmallS1(w[t - 2]))) == Fips180.NextWord(WordsOf(w))
  {
    hide SmallS0, SmallS1, Fips180.SmallSigma0, Fips180.SmallSigma1, ToInt32, ToUint32;
    var t := |w|;
    SmallS0IsSmallSigma0(w[t - 15]);
    SmallS1IsSmallSigma1(w[t - 2]);
    SumReduces(w[t - 16], SmallS0(w[t - 15]));
    SumReduces(w[t - 16] + SmallS0(w[t - 15]), w[t - 7]);
    SumReduces(w[t - 16] + SmallS0(w[t - 15]) + w[t - 7], SmallS1(w[t - 2]));
    SameBits(w[t - 16] + SmallS0(w[t - 15]) + w[t - 7] + SmallS1(w[t - 2]));
  }

  function Temp1(c: Chaining, k: Word, w: Int32): Int32 {
    ToInt32(Plus(Plus(Plus(Plus(c.h7, S1(c.h4)), Ch(c.h4, c.h5, c.h6)), k), w))
  }

  function Temp2(c: Chaining): Int32 {
    ToInt32(Plus(S0(c.h0), Maj(c.h0, c.h1, c.h2)))
  }

  lemma Temp1Matches(c: Chaining, k: Word, w: Int32)
    ensures ToUint32(Temp1(c, k, w)) ==
      Fips180.Add(Fips180.Add(Fips180.Add(Fips180.Add(ToUint32(c.h7), Fips180.BigSigma1(ToUint32(c.h4))),
        Fips180.Ch(ToUint32(c.h4), ToUint32(c.h5), ToUint32(c.h6))), k), ToUint32(w))
  {
    hide S1, Ch, Fips180.BigSigma1, Fips180.Ch, ToInt32, ToUint32;
    var s1, ch := S1(c.h4), Ch(c.h4, c.h5, c.h6);
    S1IsBigSigma1(c.h4);
    ChIsCh(c.h4, c.h5, c.h6);
    SumReduces(c.h7, s1);
    SumReduces(c.h7 + s1, ch);
    SumReduces(c.h7 + s1 + ch, k);
    SumReduces(c.h7 + s1 + ch + k, w);
    WordSurvives(k);
    SameBits(c.h7 + s1 + ch + k + w);
  }

  lemma Temp2Matches(c: Chaining)
    ensures ToUint32(Temp2(c)) ==
      Fips180.Add(Fips180.BigSigma0(ToUint32(c.h0)), Fips180.Maj(ToUint32(c.h0), ToUint32(c.h1), ToUint32(c.h2)))
  {
    hide S0, Maj, Fips180.BigSigma0, Fips180.Maj, ToInt32, ToUint32;
    var s0, maj := S0(c.h0), Maj(c.h0, c.h1, c.h2);
    S0IsBigSigma0(c.h0);
    MajIsMaj(c.h0, c.h1, c.h2);
    SumReduces(s0, maj);
    SameBits(Plus(s0, maj));
  }

  /** The new working variables of one round. */
  function NextWorking(c: Chaining, k: Word, w: Int32): Chaining {
    var temp1, temp2 := Temp1(c, k, w), Temp2(c);
    Chaining(ToInt32(Plus(temp1, temp2)), c.h0, c.h1, c.h2, ToInt32(Plus(c.h3, temp1)), c.h4, c.h5, c.h6)
  }

  /** A round on JavaScript numbers is a round on the words they stand for. */
  lemma RoundMatches(c: Chaining, k: Word, w: Int32)
    ensures NextWorking(c, k, w).Words() == Fips180.Round(c.Words(), k, ToUint32(w))
  {
    hide Temp1, Temp2, Fips180.BigSigma0, Fips180.BigSigma1, Fips180.Maj, Fips180.Ch, ToInt32, ToUint32;
    var temp1, temp2 := Temp1(c, k, w), Temp2(c);
    Temp1Matches(c, k, w);
    Temp2Matches(c);
    SumReduces(temp1, temp2);
    SameBits(Plus(temp1, temp2));
    SumReduces(c.h3, temp1);
    SameBits(Plus(c.h3, temp1));
  }

  lemma TableIsStandard()
    ensures K == Fips180.K && |K| == 64
  {
  }

  /** The 64 rounds over one block and the chaining update. */
  method CompressBlock(s: Chaining, w: array<Int32>) returns (r: Chaining)
    requires w.Length == 64
    ensures r.Words() == Fips180.AddHash(s.Words(), Fips180.Rounds(s.Words(), WordsOf(w[..]), 64))
  {
    hide S0, S1, Ch, Maj, ToInt32, ToUint32, Fips180.Round, Fips180.K, K;
    TableIsStandard();
    var a: Working, b: Working, c: Working, d: Working, e: Working, f: Working, g: Working, h: Working :=
      s.h0, s.h1, s.h2, s.h3, s.h4, s.h5, s.h6, s.h7;
    for i := 0 to 64
      invariant Chaining(a, b, c, d, e, f, g, h).Words() == Fips180.Rounds(s.Words(), WordsOf(w[..]), i)
    {
      ghost var was := Chaining(a, b, c, d, e, f, g, h);
      RoundMatches(was, K[i], w[i]);
      var temp1 := ToInt32(Plus(Plus(Plus(Plus(h, S1(e)), Ch(e, f, g)), K[i]), w[i]));
      var temp2 := ToInt32(Plus(S0(a), Maj(a, b, c)));
      h := g;
      g := f;
      f := e;
      e := ToInt32(Plus(d, temp1));
      d := c;
      c := b;
      b := a;
      a := ToInt32(Plus(temp1, temp2));
    }
    r := Chaining(ToInt32(Plus(s.h0, a)), ToInt32(Plus(s.h1, b)), ToInt32(Plus(s.h2, c)), ToInt32(Plus(s.h3, d)),
                  ToInt32(Plus(s.h4, e)), ToInt32(Plus(s.h5, f)), ToInt32(Plus(s.h6, g)), ToInt32(Plus(s.h7, h)));
    ChainingSum(s.h0, a); ChainingSum(s.h1, b); ChainingSum(s.h2, c); ChainingSum(s.h3, d);
    ChainingSum(s.h4, e); ChainingSum(s.h5, f); ChainingSum(s.h6, g); ChainingSum(s.h7, h);
  }

  lemma ChainingSum(x: Working, y: Working)
    ensures ToUint32(ToInt32(Plus(x, y))) == Fips180.Add(ToUint32(x), ToUint32(y))
  {
    SumReduces(x, y);
    SameBits(x + y);
  }

  /** The buffer the hash loops run over: only the low 32 bits of the bit length are written. */
  function SourcePad(message: seq<Byte>): (p: seq<Byte>)
    ensures |p| % 64 == 0
  {
    message + [0x80] + Fips180.Zeros(Fips180.ZeroBytes(|message|)) + Fips180.Zeros(4) +
    Fips180.WordBytes(ToUint32(8 * |message|))
  }

  /** The padding is the standard's exactly for messages below 2^29 bytes. */
  lemma PaddingIsStandard(message: seq<Byte>)
    requires |message| < 0x2000_0000_0000_0000
    ensures SourcePad(message) == Fips180.Pad(message) <==> |message| < 0x2000_0000
  {
    var head := message + [0x80] + Fips180.Zeros(Fips180.ZeroBytes(|message|));
    var high: Word := 8 * |message| / TWO_32;
    var tail := Fips180.WordBytes(ToUint32(8 * |message|));
    assert SourcePad(message) == head + Fips180.Zeros(4) + tail;
    assert Fips180.Pad(message) == head + Fips180.WordBytes(high) + tail;
    ZeroWord(high);
    if SourcePad(message) == Fips180.Pad(message) {
      SameMiddle(head, Fips180.Zeros(4), Fips180.WordBytes(high), tail);
    }
  }

  lemma SameMiddle<T>(head: seq<T>, x: seq<T>, y: seq<T>, tail: seq<T>)
    requires |x| == |y| && head + x + tail == head + y + tail
    ensures x == y
  {
    assert x == (head + x + tail)[|head|..|head| + |x|];
    assert y == (head + y + tail)[|head|..|head| + |y|];
  }

  lemma ZeroWord(w: Word)
    ensures Fips180.WordBytes(w) == Fips180.Zeros(4) <==> w == 0
  {
  }

  /** The padding loses nothing, whatever the length of the message. */
  lemma PaddingIsInjective(m: seq<Byte>, n: seq<Byte>)
    requires SourcePad(m) == SourcePad(n)
    ensures m == n
  {
    var p := SourcePad(m);
    assert Fips180.WordBytes(ToUint32(8 * |m|)) == p[|p| - 4..];
    assert Fips180.WordBytes(ToUint32(8 * |n|)) == p[|p| - 4..];
    assert ToUint32(8 * |m|) == ToUint32(8 * |n|);
    SameLength(|m|, |n|, Fips180.ZeroBytes(|m|), Fips180.ZeroBytes(|n|));
    assert m == p[..|m|];
    assert n == p[..|n|];
  }

  lemma SameLength(m: nat, n: nat, zerosM: nat, zerosN: nat)
    requires m + zerosM == n + zerosN && zerosM < 64 && zerosN < 64
    requires ToUint32(8 * m) == ToUint32(8 * n)
    ensures m == n
  {
    var qm, qn := 8 * m / TWO_32, 8 * n / TWO_32;
    assert 8 * (m - n) == TWO_32 * (qm - qn);
  }

  /** `DataView.setUint32`, big-endian: stores the low 32 bits of a number. */
  method SetUint32(view: array<Byte>, offset: nat, value: int)
    requires offset + 4 <= view.Length
    modifies view
    ensures view[..offset + 4] == old(view[..offset]) + Fips180.WordBytes(ToUint32(value))
    ensures view[offset + 4..] == old(view[offset + 4..])
  {
    hide Fips180.WordBytes;
    var b := Fips180.WordBytes(ToUint32(value));
    view[offset], view[offset + 1], view[offset + 2], view[offset + 3] := b[0], b[1], b[2], b[3];
    assert view[..offset + 4] == old(view[..offset]) + [b[0], b[1], b[2], b[3]];
    assert [b[0], b[1], b[2], b[3]] == b;
  }

  function PadLen(msgLen: nat): (k: nat)
    ensures k == Fips180.ZeroBytes(msgLen) && k < 64
  {
    var q, r := (msgLen + 9) / 64, (msgLen + 9) % 64;
    assert 55 - msgLen == 64 * (if r == 0 then 1 - q else -q) + (if r == 0 then 0 else 64 - r);
    DivUnique(55 - msgLen, 64, if r == 0 then 1 - q else -q, if r == 0 then 0 else 64 - r);
    (64 - ((msgLen + 9) % 64)) % 64
  }

  method PadMessage(bytes: array<Byte>) returns (padded: array<Byte>)
    requires bytes.Length + 72 < 0x20_0000_0000_0000
    ensures fresh(padded) && padded[..] == SourcePad(bytes[..])
  {
    hide PadLen, SourcePad, ToUint32, Fips180.WordBytes, Fips180.ZeroBytes;
    var msgLen := bytes.Length;
    var bitLen := msgLen * 8;
    var padLen := PadLen(msgLen);
    var paddedLen: JsInteger := msgLen + 1 + padLen + 8;
    padded := Marked(bytes, paddedLen);
    ghost var image := padded[..];
    SetUint32(padded, paddedLen - 4, bitLen);
    assert padded[..] == padded[..paddedLen];
    ghost var message := bytes[..];
    assert bitLen == 8 * |message|;
    assert padded[..] == image[..|image| - 4] + Fips180.WordBytes(ToUint32(bitLen));
    ZeroFilled(image, message);
  }

  /** A buffer with the message, the byte 0x80, and zeros up to its end. */
  method Marked(bytes: array<Byte>, paddedLen: nat) returns (padded: array<Byte>)
    requires bytes.Length < paddedLen
    ensures fresh(padded) && padded.Length == paddedLen
    ensures padded[..bytes.Length] == bytes[..] && padded[bytes.Length] == 0x80
    ensures forall i :: bytes.Length < i < paddedLen ==> padded[..][i] == 0
  {
    padded := new Byte[paddedLen](_ => 0);
    forall i | 0 <= i < bytes.Length {
      padded[i] := bytes[i];
    }
    padded[bytes.Length] := 0x80;
  }

  lemma ZeroFilled(p: seq<Byte>, m: seq<Byte>)
    requires |p| == |m| + 1 + Fips180.ZeroBytes(|m|) + 8
    requires p[..|m|] == m && p[|m|] == 0x80 && forall i :: |m| < i < |p| ==> p[i] == 0
    ensures p[..|p| - 4] + Fips180.WordBytes(ToUint32(8 * |m|)) == SourcePad(m)
  {
    hide ToUint32, Fips180.WordBytes, Fips180.ZeroBytes;
    assert p[..|p| - 4] == m + [0x80] + Fips180.Zeros(Fips180.ZeroBytes(|m|)) + Fips180.Zeros(4);
  }

  /** The big-endian bytes of the eight chaining values. */
  method ResultBytes(h: Chaining) returns (result: array<Byte>)
    ensures result[..] == Fips180.HashBytes(h.Words())
  {
    hide ToUint32, Fips180.WordBytes;
    result := new Byte[32];
    SetUint32(result, 0, h.h0);
    SetUint32(result, 4, h.h1);
    SetUint32(result, 8, h.h2);
    SetUint32(result, 12, h.h3);
    SetUint32(result, 16, h.h4);
    SetUint32(result, 20, h.h5);
    SetUint32(result, 24, h.h6);
    SetUint32(result, 28, h.h7);
    assert result[..] == result[..32];
  }

  lemma InitialIsStandard()
    ensures Chaining(0x6a09e667, 0xbb67ae85, 0x3c6ef372, 0xa54ff53a,
                     0x510e527f, 0x9b05688c, 0x1f83d9ab, 0x5be0cd19).Words() == Fips180.INITIAL
  {
  }

  /** Pads the message and runs the compression over every block. */
  method Sha256Hash(bytes: array<Byte>) returns (result: array<Byte>)
    requires bytes.Length + 72 < 0x20_0000_0000_0000
    ensures result[..] == Fips180.HashPadded(SourcePad(bytes[..]))
    ensures bytes.Length < 0x2000_0000 ==> result[..] == Fips180.Sha256(bytes[..])
  {
    hide Fips180.Schedule, Fips180.Rounds, Fips180.Compress, Fips180.HashBytes, ToUint32, SourcePad, Fips180.Pad;
    var h := Chaining(0x6a09e667, 0xbb67ae85, 0x3c6ef372, 0xa54ff53a,
                      0x510e527f, 0x9b05688c, 0x1f83d9ab, 0x5be0cd19);
    InitialIsStandard();
    var padded := PadMessage(bytes);
    ghost var message := padded[..];
    var w := new Int32[64];
    var offset := 0;
    ghost var n := 0;
    while offset < padded.Length
      invariant 0 <= offset <= padded.Length && offset == 64 * n
      invariant padded[..] == message
      invariant h.Words() == Fips180.Chain(message, n)
    {
      FillSchedule(padded, offset, w);
      ghost var was := h.Words();
      h := CompressBlock(h, w);
      NextInChain(message, n, was, WordsOf(w[..]), h.Words());
      offset, n := offset + 64, n + 1;
    }
    result := ResultBytes(h);
    if bytes.Length < 0x2000_0000 {
      PaddingIsStandard(bytes[..]);
    }
  }

  lemma NextInChain(message: seq<Byte>, n: nat, h: Fips180.Hash, w: seq<Word>, next: Fips180.Hash)
    requires 64 * n + 64 <= |message| && h == Fips180.Chain(message, n)
    requires w == Fips180.Schedule(message[64 * n..64 * n + 64], 64)
    requires next == Fips180.AddHash(h, Fips180.Rounds(h, w, 64))
    ensures next == Fips180.Chain(message, n + 1)
  {
    hide Fips180.Schedule, Fips180.Rounds, Fips180.AddHash;
    assert 64 * (n + 1) == 64 * n + 64;
  }
}
