/**
 * format_data of the master's helpers: a byte string as lowercase hexadecimal text,
 * two zero-padded digits per byte ('%02x'), joined in input order.
 */
module Helpers {
  import opened Common

  const HexDigits: string := "0123456789abcdef"

  /** '%02x' % b: the high nibble's digit, then the low nibble's. */
  function Hex2(b: Byte): (s: string)
    ensures |s| == 2
  {
    [HexDigits[b / 16], HexDigits[b % 16]]
  }

  /** format_data. */
  function FormatData(data: seq<Byte>): (s: string)
    ensures |s| == 2 * |data|
  {
    if data == [] then "" else Hex2(data[0]) + FormatData(data[1..])
  }

  /** The value of a lowercase hexadecimal digit, -1 for any other character. */
  function DigitValue(c: char): int
  {
    if '0' <= c <= '9' then c as int - '0' as int
    else if 'a' <= c <= 'f' then c as int - 'a' as int + 10
    else -1
  }

  /** Reads text back two digits at a time, the inverse of FormatData. */
  function ParseHex(s: string): seq<int>
  {
    if |s| < 2 then [] else [16 * DigitValue(s[0]) + DigitValue(s[1])] + ParseHex(s[2..])
  }

  /** Every digit written is a lowercase hexadecimal digit that reads back as its nibble. */
  lemma DigitsReadBack(n: nat)
    requires n < 16
    ensures HexDigits[n] in "0123456789abcdef" && DigitValue(HexDigits[n]) == n
  {
  }

  /** The two digits of a byte read back as the byte. */
  lemma Hex2ReadBack(b: Byte)
    ensures 16 * DigitValue(Hex2(b)[0]) + DigitValue(Hex2(b)[1]) == b
  {
    DigitsReadBack(b / 16);
    DigitsReadBack(b % 16);
  }

  /** The two digits of a byte are zero-padded lowercase hexadecimal. */
  lemma Hex2Lowercase(b: Byte)
    ensures forall c :: c in Hex2(b) ==> '0' <= c <= '9' || 'a' <= c <= 'f'
  {
    DigitsReadBack(b / 16);
    DigitsReadBack(b % 16);
  }

  /** ParseHex reads a leading pair of digits and carries on with the rest. */
  lemma ParsePair(h: string, t: string)
    requires |h| == 2
    ensures ParseHex(h + t) == [16 * DigitValue(h[0]) + DigitValue(h[1])] + ParseHex(t)
  {
    assert (h + t)[2..] == t;
  }

  /** One step of ParseFormat: the first two characters are the first byte's digits. */
  lemma ParseStep(data: seq<Byte>)
    requires data != []
    ensures ParseHex(FormatData(data)) == [data[0]] + ParseHex(FormatData(data[1..]))
  {
    var h, t := Hex2(data[0]), FormatData(data[1..]);
    assert FormatData(data) == h + t;
    ParsePair(h, t);
    var x := 16 * DigitValue(h[0]) + DigitValue(h[1]);
    assert x == data[0] by {
      Hex2ReadBack(data[0]);
    }
    assert ParseHex(FormatData(data)) == [x] + ParseHex(t);
  }

  /** Byte i of the input becomes characters 2i and 2i+1 of the output. */
  lemma {:induction false} FormatDataDigits(data: seq<Byte>, i: nat)
    requires i < |data|
    ensures FormatData(data)[2 * i..2 * i + 2] == Hex2(data[i])
  {
    if i > 0 {
      FormatDataDigits(data[1..], i - 1);
      assert FormatData(data)[2 * i..2 * i + 2] == FormatData(data[1..])[2 * (i - 1)..2 * (i - 1) + 2];
    }
  }

  /** Formatting distributes over concatenation; empty input gives the empty string. */
  lemma {:induction false} FormatDataAppend(a: seq<Byte>, b: seq<Byte>)
    ensures FormatData(a + b) == FormatData(a) + FormatData(b)
    ensures FormatData([]) == ""
  {
    if a != [] {
      assert (a + b)[1..] == a[1..] + b;
      FormatDataAppend(a[1..], b);
    } else {
      assert a + b == b;
    }
  }

  /** Parsing the text gives the bytes back. */
  lemma {:induction false} ParseFormat(data: seq<Byte>)
    ensures ParseHex(FormatData(data)) == data
  {
    if data != [] {
      ParseStep(data);
      ParseFormat(data[1..]);
    }
  }

  /** Distinct inputs give distinct outputs. */
  lemma FormatDataInjective(a: seq<Byte>, b: seq<Byte>)
    ensures FormatData(a) == FormatData(b) ==> a == b
  {
    ParseFormat(a);
    ParseFormat(b);
  }
}
