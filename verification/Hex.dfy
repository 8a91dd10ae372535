/** The hexadecimal text of a digest. */
module Hex {
  import opened Words

  const DIGITS := "0123456789abcdef"

  /** `b.toString(16).padStart(2, '0')` */
  function ByteHex(b: Byte): string {
    var digits := if b < 16 then [DIGITS[b]] else [DIGITS[b / 16], DIGITS[b % 16]];
    if |digits| < 2 then "0" + digits else digits
  }

  function HexOf(bytes: seq<Byte>): string {
    if bytes == [] then "" else HexOf(bytes[..|bytes| - 1]) + ByteHex(bytes[|bytes| - 1])
  }

  method ToHex(bytes: array<Byte>) returns (hex: string)
    ensures hex == HexOf(bytes[..])
  {
    hide ByteHex;
    hex := "";
    for i := 0 to bytes.Length
      invariant hex == HexOf(bytes[..i])
    {
      assert bytes[..i + 1][..i] == bytes[..i];
      hex := hex + ByteHex(bytes[i]);
    }
    assert bytes[..bytes.Length] == bytes[..];
  }

  predicate IsLowerHex(c: char) { '0' <= c <= '9' || 'a' <= c <= 'f' }

  function DigitValue(c: char): nat
    requires IsLowerHex(c)
  {
    if c <= '9' then c as int - '0' as int else c as int - 'a' as int + 10
  }

  /** Reads pairs of hexadecimal digits. */
  function FromHex(hex: string): seq<Byte>
    requires |hex| % 2 == 0 && forall c :: c in hex ==> IsLowerHex(c)
  {
    if hex == "" then []
    else
      var n := |hex| - 2;
      FromHex(hex[..n]) + [16 * DigitValue(hex[n]) + DigitValue(hex[n + 1])]
  }

  lemma ByteHexReadsBack(b: Byte)
    ensures var h := ByteHex(b);
      |h| == 2 && IsLowerHex(h[0]) && IsLowerHex(h[1]) && 16 * DigitValue(h[0]) + DigitValue(h[1]) == b
  {
    DigitReadsBack(b / 16);
    DigitReadsBack(b % 16);
  }

  lemma DigitReadsBack(d: nat)
    requires d < 16
    ensures IsLowerHex(DIGITS[d]) && DigitValue(DIGITS[d]) == d
  {
  }

  /** The digest text is lower-case, two digits a byte, and decodes to the digest. */
  lemma {:induction false} HexReadsBack(bytes: seq<Byte>)
    ensures |HexOf(bytes)| == 2 * |bytes|
    ensures forall c :: c in HexOf(bytes) ==> IsLowerHex(c)
    ensures FromHex(HexOf(bytes)) == bytes
  {
    hide ByteHex, DigitValue, IsLowerHex, FromHex;
    if bytes == [] {
      EmptyReadsBack();
    } else {
      var n := |bytes| - 1;
      HexReadsBack(bytes[..n]);
      ByteHexReadsBack(bytes[n]);
      ReadsOneMore(HexOf(bytes[..n]), ByteHex(bytes[n]));
      assert bytes == bytes[..n] + [bytes[n]];
    }
  }

  lemma EmptyReadsBack()
    ensures FromHex("") == []
  {
  }

  /** Two more digits read as one more byte. */
  lemma ReadsOneMore(hex: string, h: string)
    requires |hex| % 2 == 0 && |h| == 2 && IsLowerHex(h[0]) && IsLowerHex(h[1])
    requires forall c :: c in hex ==> IsLowerHex(c)
    ensures forall c :: c in hex + h ==> IsLowerHex(c)
    ensures FromHex(hex + h) == FromHex(hex) + [16 * DigitValue(h[0]) + DigitValue(h[1])]
  {
    hide DigitValue, IsLowerHex;
    assert h == [h[0], h[1]];
    assert (hex + h)[..|hex|] == hex;
  }
}
