/**
 * The hex encoding behind the digest helpers: `bytesToHex` writes each byte as `%02x`, the two
 * lowercase hex digits of its unsigned value, high nibble first (Base16 of section 8 of
 * RFC 4648, in lowercase).
 */
module CryptoUtils {
  import opened JavaInts

  const HexDigits: string := "0123456789abcdef"

  predicate IsLowerHexDigit(c: char) {
    '0' <= c <= '9' || 'a' <= c <= 'f'
  }

  /** The digit for a nibble. */
  function HexDigit(n: int): (c: char)
    requires 0 <= n < 16
    ensures IsLowerHexDigit(c)
  {
    if n < 10 then ('0' as int + n) as char else ('a' as int + n - 10) as char
  }

  /** The nibble a digit stands for. */
  function HexValue(c: char): (n: int)
    requires IsLowerHexDigit(c)
    ensures 0 <= n < 16
    ensures HexDigit(n) == c
  {
    if c <= '9' then c as int - '0' as int else c as int - 'a' as int + 10
  }

  lemma HexDigitsTable(n: int)
    requires 0 <= n < 16
    ensures HexDigits[n] == HexDigit(n)
  {
  }

  /** `String.format("%02x", b)`: the unsigned value in two digits, high nibble first. */
  function HexPair(b: Byte): string {
    [HexDigit(Unsigned(b) / 16), HexDigit(Unsigned(b) % 16)]
  }

  /** The encoding of a byte sequence, one pair per byte in order. */
  function Hex(bytes: seq<Byte>): string
    decreases |bytes|
  {
    if bytes == [] then "" else Hex(bytes[..|bytes| - 1]) + HexPair(bytes[|bytes| - 1])
  }

  method BytesToHex(bytes: array<Byte>) returns (hex: string)
    ensures hex == Hex(bytes[..])
  {
    var sb: string := "";
    var i := 0;
    while i < bytes.Length
      invariant 0 <= i <= bytes.Length
      invariant sb == Hex(bytes[..i])
    {
      assert bytes[..i + 1][..i] == bytes[..i];
      sb := sb + HexPair(bytes[i]);
      i := i + 1;
    }
    assert bytes[..bytes.Length] == bytes[..];
    hex := sb;
  }

  /** Byte i is written at characters 2i and 2i + 1; the output is twice as long as the input. */
  lemma {:induction false} HexLayout(bytes: seq<Byte>)
    ensures |Hex(bytes)| == 2 * |bytes|
    ensures forall i :: 0 <= i < |bytes| ==> Hex(bytes)[2 * i..2 * i + 2] == HexPair(bytes[i])
    decreases |bytes|
  {
    if bytes != [] {
      var init := bytes[..|bytes| - 1];
      HexLayout(init);
      forall i | 0 <= i < |bytes|
        ensures Hex(bytes)[2 * i..2 * i + 2] == HexPair(bytes[i])
      {
        if i < |init| {
          assert Hex(bytes)[2 * i..2 * i + 2] == Hex(init)[2 * i..2 * i + 2];
        }
      }
    }
  }

  /** Every character of the output is 0-9 or a-f. */
  lemma HexIsLowercase(bytes: seq<Byte>)
    ensures forall k :: 0 <= k < |Hex(bytes)| ==> IsLowerHexDigit(Hex(bytes)[k])
  {
    HexLayout(bytes);
    forall k | 0 <= k < |Hex(bytes)|
      ensures IsLowerHexDigit(Hex(bytes)[k])
    {
      var i := k / 2;
      assert Hex(bytes)[2 * i..2 * i + 2] == HexPair(bytes[i]);
      assert Hex(bytes)[k] == HexPair(bytes[i])[k - 2 * i];
    }
  }

  /** Encoding a concatenation concatenates the encodings. */
  lemma {:induction false} HexAppend(a: seq<Byte>, b: seq<Byte>)
    ensures Hex(a + b) == Hex(a) + Hex(b)
    decreases |b|
  {
    if b == [] {
      assert a + b == a;
    } else {
      var ab := a + b;
      assert ab[..|ab| - 1] == a + b[..|b| - 1];
      HexAppend(a, b[..|b| - 1]);
    }
  }

  /** Decoding: each pair of digits is the unsigned value of one byte. */
  function Unhex(s: string): seq<Byte>
    requires |s| % 2 == 0
    requires forall k :: 0 <= k < |s| ==> IsLowerHexDigit(s[k])
    decreases |s|
  {
    if s == [] then []
    else [ToByte(HexValue(s[0]) * 16 + HexValue(s[1]))] + Unhex(s[2..])
  }

  lemma PairRoundTrip(b: Byte)
    ensures ToByte(HexValue(HexPair(b)[0]) * 16 + HexValue(HexPair(b)[1])) == b
  {
    var u := Unsigned(b);
    assert HexValue(HexDigit(u / 16)) == u / 16;
    assert HexValue(HexDigit(u % 16)) == u % 16;
    assert ToByte(u) == b;
  }

  /** Decoding the output pairwise recovers the input. */
  lemma {:induction false} HexRoundTrip(bytes: seq<Byte>)
    ensures |Hex(bytes)| % 2 == 0 && forall k :: 0 <= k < |Hex(bytes)| ==> IsLowerHexDigit(Hex(bytes)[k])
    ensures Unhex(Hex(bytes)) == bytes
    decreases |bytes|
  {
    HexLayout(bytes);
    HexIsLowercase(bytes);
    if bytes != [] {
      var rest := bytes[1..];
      assert bytes == [bytes[0]] + rest;
      HexAppend([bytes[0]], rest);
      assert Hex([bytes[0]]) == HexPair(bytes[0]) by {
        assert [bytes[0]][..0] == [];
      }
      var s := Hex(bytes);
      assert s[2..] == Hex(rest);
      HexRoundTrip(rest);
      PairRoundTrip(bytes[0]);
    }
  }

  /** Different inputs give different outputs. */
  lemma HexInjective(a: seq<Byte>, b: seq<Byte>)
    requires Hex(a) == Hex(b)
    ensures a == b
  {
    HexRoundTrip(a);
    HexRoundTrip(b);
  }

  /** An MD5 digest (16 bytes) gives 32 characters, a SHA-256 digest (32 bytes) gives 64. */
  lemma DigestLengths(md5: seq<Byte>, sha256: seq<Byte>)
    requires |md5| == 16 && |sha256| == 32
    ensures |Hex(md5)| == 32 && |Hex(sha256)| == 64
  {
    HexLayout(md5);
    HexLayout(sha256);
  }

  /** The sign bit is not extended: -1 is "ff", 127 is "7f", 0 is "00". */
  lemma PairExamples()
    ensures HexPair(-1) == "ff" && HexPair(127) == "7f" && HexPair(0) == "00" && HexPair(-128) == "80"
  {
  }
}
