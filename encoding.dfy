/** Byte and text encodings the application uses implicitly: UTF-8 (`TextEncoder`,
    `Buffer.from`), UTF-16 code units (`charCodeAt`), base64
    (`Buffer.toString('base64')`), two-digit lowercase hex, and
    `Number.prototype.toString(radix)` for non-negative integers. */
module Encoding {

  type Byte = b: int | 0 <= b < 256

  // ---------------------------------------------------------------- UTF-8

  /** The UTF-8 encoding of one Unicode scalar value. */
  function Utf8Char(c: char): (r: seq<Byte>)
    ensures 1 <= |r| <= 4
    ensures (c as int < 0x80) <==> |r| == 1
  {
    var n := c as int;
    if n < 0x80 then [n]
    else if n < 0x800 then [0xC0 + n / 64, 0x80 + n % 64]
    else if n < 0x10000 then [0xE0 + n / 4096, 0x80 + (n / 64) % 64, 0x80 + n % 64]
    else [0xF0 + n / 262144, 0x80 + (n / 4096) % 64, 0x80 + (n / 64) % 64, 0x80 + n % 64]
  }

  function Utf8(s: string): (r: seq<Byte>)
    ensures |r| >= |s|
  {
    if |s| == 0 then [] else Utf8Char(s[0]) + Utf8(s[1..])
  }

  // ------------------------------------------------------- UTF-16 code units

  /** The UTF-16 code units of one scalar value: one unit in the basic plane,
      a surrogate pair above it. */
  function Utf16Char(c: char): (r: seq<int>)
    ensures |r| == 1 || |r| == 2
    ensures forall k :: 0 <= k < |r| ==> 0 <= r[k] < 0x10000
  {
    var n := c as int;
    if n < 0x10000 then [n]
    else [0xD800 + (n - 0x10000) / 1024, 0xDC00 + (n - 0x10000) % 1024]
  }

  function Utf16(s: string): (r: seq<int>)
    ensures |r| >= |s|
    ensures forall k :: 0 <= k < |r| ==> 0 <= r[k] < 0x10000
  {
    if |s| == 0 then [] else Utf16Char(s[0]) + Utf16(s[1..])
  }

  /** A basic-plane character is its own code unit; any other character is a
      high surrogate (D800-DBFF) followed by a low one (DC00-DFFF), and the
      pair gives the character back. */
  lemma Utf16CharUnits(c: char)
    ensures c as int < 0x10000 ==> Utf16Char(c) == [c as int]
    ensures c as int >= 0x10000 ==>
      var r := Utf16Char(c);
      && |r| == 2
      && 0xD800 <= r[0] < 0xDC00 && 0xDC00 <= r[1] < 0xE000
      && c as int == 0x10000 + (r[0] - 0xD800) * 1024 + (r[1] - 0xDC00)
  {
    var n := c as int;
    if n >= 0x10000 {
      assert n - 0x10000 == ((n - 0x10000) / 1024) * 1024 + (n - 0x10000) % 1024;
    }
  }

  /** Text in the basic plane has one code unit per character, the character itself. */
  lemma {:induction false} Utf16OfBasicPlane(s: string)
    requires forall k :: 0 <= k < |s| ==> s[k] as int < 0x10000
    ensures |Utf16(s)| == |s|
    ensures forall k :: 0 <= k < |s| ==> Utf16(s)[k] == s[k] as int
  {
    if |s| > 0 {
      Utf16OfBasicPlane(s[1..]);
      Utf16CharUnits(s[0]);
    }
  }

  /** A key on characters whose order is the order of their UTF-16 code-unit
      sequences: JavaScript compares strings unit by unit, so a character above
      U+FFFF (first unit a high surrogate, D800-DBFF) sorts below U+E000-U+FFFF. */
  function UnitOrderKey(c: char): (k: int)
    ensures 0 <= k
  {
    var u := Utf16Char(c);
    if |u| == 1 then u[0] * 0x10000 else u[0] * 0x10000 + u[1]
  }

  /** Different characters have different keys, so the order is total and antisymmetric. */
  lemma UnitOrderKeyInjective(a: char, b: char)
    requires UnitOrderKey(a) == UnitOrderKey(b)
    ensures a == b
  {
    // a basic-plane char never equals a high surrogate, so both keys have the same shape
    var na, nb := a as int, b as int;
    if na >= 0x10000 && nb >= 0x10000 {
      assert na - 0x10000 == ((na - 0x10000) / 1024) * 1024 + (na - 0x10000) % 1024;
      assert nb - 0x10000 == ((nb - 0x10000) / 1024) * 1024 + (nb - 0x10000) % 1024;
    }
  }

  // ---------------------------------------------------------------- base64

  /** The base64 digit of a 6-bit value: 'A'-'Z', 'a'-'z', '0'-'9', '+', '/'. */
  function Base64Digit(v: nat): (c: char)
    requires v < 64
    ensures IsBase64Char(c) && c != '='
  {
    if v < 26 then ('A' as int + v) as char
    else if v < 52 then ('a' as int + v - 26) as char
    else if v < 62 then ('0' as int + v - 52) as char
    else if v == 62 then '+'
    else '/'
  }

  predicate IsBase64Char(c: char) {
    'A' <= c <= 'Z' || 'a' <= c <= 'z' || '0' <= c <= '9' || c == '+' || c == '/' || c == '='
  }

  predicate AllBase64(s: string) {
    forall k :: 0 <= k < |s| ==> IsBase64Char(s[k])
  }

  /** One group of one to three bytes, as four base64 characters ('=' padded). */
  function Base64Group(b: seq<Byte>): (r: string)
    requires 1 <= |b| <= 3
    ensures |r| == 4
    ensures AllBase64(r)
  {
    var b0 := b[0] as nat;
    var b1 := if |b| > 1 then b[1] as nat else 0;
    var b2 := if |b| > 2 then b[2] as nat else 0;
    var c0 := Base64Digit(b0 / 4);
    var c1 := Base64Digit((b0 % 4) * 16 + b1 / 16);
    var c2 := if |b| > 1 then Base64Digit((b1 % 16) * 4 + b2 / 64) else '=';
    var c3 := if |b| > 2 then Base64Digit(b2 % 64) else '=';
    [c0, c1, c2, c3]
  }

  /** The 6-bit value a base64 digit stands for. */
  function Base64Value(c: char): nat {
    if 'A' <= c <= 'Z' then c as int - 'A' as int
    else if 'a' <= c <= 'z' then c as int - 'a' as int + 26
    else if '0' <= c <= '9' then c as int - '0' as int + 52
    else if c == '+' then 62
    else if c == '/' then 63
    else 0
  }

  lemma Base64ValueOfDigit(v: nat)
    requires v < 64
    ensures Base64Value(Base64Digit(v)) == v
  {
  }

  /** Section 4 of RFC 4648: the four characters of a group carry the bits
      of its bytes, six at a time, so each byte is read back from the
      two characters that hold its bits. */
  lemma Base64GroupDecodes(b: seq<Byte>)
    requires 1 <= |b| <= 3
    ensures var r := Base64Group(b);
      b[0] as nat == Base64Value(r[0]) * 4 + Base64Value(r[1]) / 16
    ensures var r := Base64Group(b);
      |b| > 1 ==> b[1] as nat == (Base64Value(r[1]) % 16) * 16 + Base64Value(r[2]) / 4
    ensures var r := Base64Group(b);
      |b| > 2 ==> b[2] as nat == (Base64Value(r[2]) % 4) * 64 + Base64Value(r[3])
  {
    var b0 := b[0] as nat;
    var b1 := if |b| > 1 then b[1] as nat else 0;
    var b2 := if |b| > 2 then b[2] as nat else 0;
    Base64ValueOfDigit(b0 / 4);
    Base64ValueOfDigit((b0 % 4) * 16 + b1 / 16);
    if |b| > 1 {
      Base64ValueOfDigit((b1 % 16) * 4 + b2 / 64);
    }
    if |b| > 2 {
      Base64ValueOfDigit(b2 % 64);
    }
  }

  /** Standard base64 with padding. */
  function Base64(b: seq<Byte>): string {
    if |b| == 0 then ""
    else if |b| <= 3 then Base64Group(b)
    else Base64Group(b[..3]) + Base64(b[3..])
  }

  /** Four characters per group of three bytes, the last group padded, all of
      them from the base64 alphabet or '='. */
  lemma {:induction false} Base64Shape(b: seq<Byte>)
    ensures |Base64(b)| == 4 * ((|b| + 2) / 3)
    ensures AllBase64(Base64(b))
  {
    if |b| > 3 {
      Base64Shape(b[3..]);
      AllBase64Append(Base64Group(b[..3]), Base64(b[3..]));
      GroupCount(|b|);
    }
  }

  /** Three more bytes make one more group. */
  lemma GroupCount(n: nat)
    requires n > 3
    ensures 4 * ((n + 2) / 3) == 4 + 4 * ((n - 3 + 2) / 3)
  {
    assert (n + 2) / 3 == (n - 1) / 3 + 1;
  }

  lemma AllBase64Append(a: string, b: string)
    requires AllBase64(a) && AllBase64(b)
    ensures AllBase64(a + b)
  {
    forall k | 0 <= k < |a + b| ensures IsBase64Char((a + b)[k]) {
      if k >= |a| {
        assert (a + b)[k] == b[k - |a|];
      }
    }
  }

  // ----------------------------------------------------- radix rendering

  /** The digit for value `d`: '0'-'9', then 'a'-'z'. */
  function DigitChar(d: nat): (c: char)
    requires d < 36
    ensures DigitValue(c) == d
    ensures IsRadixDigit(c, d + 1)
  {
    if d < 10 then ('0' as int + d) as char else ('a' as int + d - 10) as char
  }

  /** `c` is a lowercase digit of the given radix. */
  predicate IsRadixDigit(c: char, radix: nat) {
    (('0' <= c <= '9') || ('a' <= c <= 'z')) && DigitValue(c) < radix
  }

  /** The value of a digit character ('0'-'9', then 'a'-'z' or 'A'-'Z' from
      10 on); other characters count as 0. */
  function DigitValue(c: char): nat {
    if '0' <= c <= '9' then c as int - '0' as int
    else if 'a' <= c <= 'z' then c as int - 'a' as int + 10
    else if 'A' <= c <= 'Z' then c as int - 'A' as int + 10
    else 0
  }

  /** `n.toString(radix)` for a non-negative integer: lowercase digits, no padding. */
  function ToRadix(n: nat, radix: nat): (r: string)
    requires 2 <= radix <= 36
    ensures |r| >= 1
    ensures forall k :: 0 <= k < |r| ==> IsRadixDigit(r[k], radix)
    ensures n > 0 ==> r[0] != '0'
    decreases n
  {
    if n < radix then [DigitChar(n)]
    else
      var q := n / radix;
      assert 0 < q < n by { DivFacts(n, radix); }
      var hi, lo := ToRadix(q, radix), DigitChar(n % radix);
      assert (hi + [lo])[0] == hi[0];
      hi + [lo]
  }

  lemma DivFacts(n: nat, radix: nat)
    requires 2 <= radix <= n
    ensures 0 < n / radix < n
    ensures n == (n / radix) * radix + n % radix
  {
  }

  function FromRadix(s: string, radix: nat): nat {
    if |s| == 0 then 0 else FromRadix(s[..|s| - 1], radix) * radix + DigitValue(s[|s| - 1])
  }

  /** Rendering a number and reading it back gives the number. */
  lemma {:induction false} FromRadixToRadix(n: nat, radix: nat)
    requires 2 <= radix <= 36
    ensures FromRadix(ToRadix(n, radix), radix) == n
    decreases n
  {
    if n >= radix {
      DivFacts(n, radix);
      var q := n / radix;
      FromRadixToRadix(q, radix);
      var r := ToRadix(n, radix);
      assert r == ToRadix(q, radix) + [DigitChar(n % radix)];
      assert r[..|r| - 1] == ToRadix(q, radix);
      assert FromRadix(r, radix) == q * radix + n % radix;
    }
  }

  /** A number below radix^k needs at most k digits. */
  lemma {:induction false} ToRadixLength(n: nat, radix: nat, k: nat)
    requires 2 <= radix <= 36
    requires k >= 1 && n < Pow(radix, k)
    ensures |ToRadix(n, radix)| <= k
    decreases n
  {
    if n >= radix {
      DivFacts(n, radix);
      DivBelowPow(n, radix, k);
      ToRadixOneMore(n, radix);
      ToRadixLength(n / radix, radix, k - 1);
    }
  }

  /** A number of at least two digits has one digit more than its quotient by the radix. */
  lemma ToRadixOneMore(n: nat, radix: nat)
    requires 2 <= radix <= 36 && n >= radix
    ensures |ToRadix(n, radix)| == |ToRadix(n / radix, radix)| + 1
  {
  }

  lemma DivBelowPow(n: nat, radix: nat, k: nat)
    requires 2 <= radix && k >= 1 && n < Pow(radix, k)
    ensures n / radix < Pow(radix, k - 1)
  {
    var p := Pow(radix, k - 1);
    assert Pow(radix, k) == radix * p;
    var q := n / radix;
    assert q * radix <= n;
    if q >= p {
      MulLe(p, q, radix);
    }
  }

  lemma MulLe(a: nat, b: nat, c: nat)
    requires a <= b
    ensures a * c <= b * c
  {
  }

  function Pow(b: nat, e: nat): nat {
    if e == 0 then 1 else b * Pow(b, e - 1)
  }

  /** `i.toString()` for an integer. */
  function IntToString(i: int): (r: string)
    ensures |r| >= 1
  {
    if i < 0 then "-" + ToRadix(-i, 10) else ToRadix(i, 10)
  }

  // ---------------------------------------------------------------- hex

  /** `b.toString(16).padStart(2, '0')`. */
  function ByteToHex(b: Byte): (r: string)
    ensures |r| == 2
  {
    [DigitChar(b / 16), DigitChar(b % 16)]
  }

  predicate IsLowerHexDigit(c: char) {
    ('0' <= c <= '9') || ('a' <= c <= 'f')
  }

  /** The digest bytes rendered as lowercase hex, two digits per byte. */
  function HexOfBytes(bs: seq<Byte>): (r: string)
    ensures |r| == 2 * |bs|
    ensures forall k :: 0 <= k < |r| ==> IsLowerHexDigit(r[k])
  {
    if |bs| == 0 then "" else ByteToHex(bs[0]) + HexOfBytes(bs[1..])
  }

  /** Reads two-digit lowercase hex back into bytes. */
  function BytesOfHex(s: string): seq<Byte>
    decreases |s|
  {
    if |s| < 2 then [] else [(DigitValue(s[0]) * 16 + DigitValue(s[1])) % 256] + BytesOfHex(s[2..])
  }

  /** Hex rendering loses nothing: every byte can be read back. */
  lemma {:induction false} HexRoundTrip(bs: seq<Byte>)
    ensures BytesOfHex(HexOfBytes(bs)) == bs
  {
    if |bs| > 0 {
      var h := HexOfBytes(bs);
      assert h[2..] == HexOfBytes(bs[1..]);
      assert h[0] == DigitChar(bs[0] / 16) && h[1] == DigitChar(bs[0] % 16);
      HexRoundTrip(bs[1..]);
    }
  }
}
