/**
 * The two renderings `format!` performs in the object store: a `usize` in decimal
 * (`{}`) for the header's length field, and a SHA-1 digest in lowercase hex (`{:x}`,
 * two zero-padded digits per byte) for the object identifier. Each rendering comes
 * with a parser, and the round-trip lemmas show that nothing is lost in rendering.
 */
module Format {
  import opened Bytes

  predicate IsDigit(c: byte)
  {
    '0' as int <= c as int <= '9' as int
  }

  predicate AllDigits(s: Bytes)
  {
    forall i :: 0 <= i < |s| ==> IsDigit(s[i])
  }

  /** `{}` on a `usize`: the decimal digits of `n`, most significant first, no leading zeros. */
  function Decimal(n: nat): (r: Bytes)
    ensures 1 <= |r|
    ensures AllDigits(r)
    ensures |r| == 1 <==> n < 10
    ensures |r| > 1 ==> r[0] != '0' as byte
    ensures r[0] == '0' as byte ==> n == 0
  {
    if n < 10 then [('0' as int + n) as byte]
    else Decimal(n / 10) + [('0' as int + n % 10) as byte]
  }

  /** Reads a string of decimal digits back as a number. */
  function ParseDecimal(s: Bytes): nat
    requires AllDigits(s)
  {
    if s == [] then 0
    else ParseDecimal(s[..|s| - 1]) * 10 + (s[|s| - 1] as int - '0' as int)
  }

  /** The length field can be read back: the decimal rendering is faithful. */
  lemma {:induction false} DecimalRoundTrip(n: nat)
    ensures ParseDecimal(Decimal(n)) == n
  {
    if n >= 10 {
      var d := Decimal(n);
      assert d[..|d| - 1] == Decimal(n / 10);
      DecimalRoundTrip(n / 10);
    }
  }

  predicate IsLowerHex(c: byte)
  {
    IsDigit(c) || 'a' as int <= c as int <= 'f' as int
  }

  predicate AllLowerHex(s: Bytes)
  {
    forall i :: 0 <= i < |s| ==> IsLowerHex(s[i])
  }

  /** The lowercase hex digit of a value below 16. */
  function HexDigit(v: nat): (c: byte)
    requires v < 16
    ensures IsLowerHex(c)
  {
    if v < 10 then ('0' as int + v) as byte else ('a' as int + v - 10) as byte
  }

  function HexValue(c: byte): (v: nat)
    requires IsLowerHex(c)
    ensures v < 16
  {
    if IsDigit(c) then c as int - '0' as int else c as int - 'a' as int + 10
  }

  lemma HexDigitRoundTrip(v: nat)
    requires v < 16
    ensures HexValue(HexDigit(v)) == v
  {
  }

  /** `{:x}` on a digest: two lowercase hex digits per byte, high nibble first, in byte order. */
  function Hex(d: Bytes): (r: Bytes)
    ensures |r| == 2 * |d|
    ensures AllLowerHex(r)
  {
    if d == [] then []
    else [HexDigit(d[0] as int / 16), HexDigit(d[0] as int % 16)] + Hex(d[1..])
  }

  /** Reads lowercase hex text back as bytes, two digits per byte. */
  function ParseHex(s: Bytes): Bytes
    requires |s| % 2 == 0 && AllLowerHex(s)
  {
    if s == [] then []
    else [(HexValue(s[0]) * 16 + HexValue(s[1])) as byte] + ParseHex(s[2..])
  }

  /** The identifier determines the digest it was rendered from. */
  lemma {:induction false} HexRoundTrip(d: Bytes)
    ensures ParseHex(Hex(d)) == d
  {
    if d != [] {
      var h := Hex(d);
      HexDigitRoundTrip(d[0] as int / 16);
      HexDigitRoundTrip(d[0] as int % 16);
      assert h[2..] == Hex(d[1..]);
      HexRoundTrip(d[1..]);
    }
  }

  /** Different digests never share an identifier. */
  lemma HexInjective(a: Bytes, b: Bytes)
    requires Hex(a) == Hex(b)
    ensures a == b
  {
    HexRoundTrip(a);
    HexRoundTrip(b);
  }

  /** Hex text is ASCII, so any split of it falls on a char boundary. */
  lemma HexIsAscii(d: Bytes)
    ensures IsAscii(Hex(d))
  {
    var h := Hex(d);
    forall i | 0 <= i < |h|
      ensures h[i] < 0x80
    {
      assert IsLowerHex(h[i]);
    }
  }
}
