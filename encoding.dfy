/** The two string encoders the integrations use when building request
    bodies: JSON string escaping (section 7 of RFC 8259) and Base64
    (section 4 of RFC 4648, padded as in section 3.2). Both work on the
    bytes of a `std::string`. */
module Encoding {
  import opened Optional

  newtype byte = b: int | 0 <= b < 256

  const Quote: byte := 34
  const Backslash: byte := 92

  /** The text `\u00` that starts a six-character escape. */
  const UnicodePrefix: seq<byte> := [Backslash, 117, 48, 48]

  /** The text `ffffff`: the upper hex digits of a negative 32-bit value
      whose low byte is at least 0x80. */
  const SignExtension: seq<byte> := [102, 102, 102, 102, 102, 102]

  // ---------------------------------------------------------------------
  // JSON string escaping
  // ---------------------------------------------------------------------

  /** Whether the platform's plain `char` is signed (x86-64) or unsigned
      (AArch64). The escaper tests `c < 32` on a plain `char`. */
  datatype CharSign = SignedChar | UnsignedChar

  /** The value of `c` when a byte is read as a plain `char`. */
  function CharValue(b: byte, sign: CharSign): int
  {
    if sign == SignedChar && b >= 128 then b as int - 256 else b as int
  }

  function HexDigit(d: nat): (c: byte)
    requires d < 16
  {
    if d < 10 then (48 + d) as byte else (87 + d) as byte
  }

  /** `std::hex << std::setw(2) << std::setfill('0') << n` for a value
      below 256: two lower-case hex digits. */
  function Hex2(n: nat): seq<byte>
    requires n < 256
  {
    [HexDigit(n / 16), HexDigit(n % 16)]
  }

  /** What `std::hex` prints for `static_cast<int>(c)`: a non-negative
      value as its two padded digits, a negative one as its 32-bit two's
      complement, which for -128 .. -1 is "ffffff" and two more digits. */
  function HexOfCharValue(v: int): seq<byte>
    requires -128 <= v < 256
  {
    if v >= 0 then Hex2(v) else SignExtension + Hex2(v + 256)
  }

  /** The escape of a single byte, as the `switch` in `json_escape` writes it. */
  function EscapeByte(b: byte, sign: CharSign): (r: seq<byte>)
  {
    if b == Quote then [Backslash, Quote]
    else if b == Backslash then [Backslash, Backslash]
    else if b == 8 then [Backslash, 98]
    else if b == 12 then [Backslash, 102]
    else if b == 10 then [Backslash, 110]
    else if b == 13 then [Backslash, 114]
    else if b == 9 then [Backslash, 116]
    else if CharValue(b, sign) < 32 then UnicodePrefix + HexOfCharValue(CharValue(b, sign))
    else [b]
  }

  /** The escapes of all bytes, in order. */
  function Escaped(s: seq<byte>, sign: CharSign): seq<byte>
  {
    if s == [] then [] else EscapeByte(s[0], sign) + Escaped(s[1..], sign)
  }

  lemma {:induction false} EscapedAppend(s: seq<byte>, b: byte, sign: CharSign)
    ensures Escaped(s + [b], sign) == Escaped(s, sign) + EscapeByte(b, sign)
  {
    if s != [] {
      assert (s + [b])[1..] == s[1..] + [b];
      EscapedAppend(s[1..], b, sign);
    }
  }

  /** `json_escape`: escape every byte of `input` in turn. */
  method JsonEscape(input: seq<byte>, sign: CharSign) returns (escaped: seq<byte>)
    ensures escaped == Escaped(input, sign)
  {
    escaped := [];
    var i := 0;
    while i < |input|
      invariant 0 <= i <= |input|
      invariant escaped == Escaped(input[..i], sign)
    {
      var c := input[i];
      EscapedAppend(input[..i], c, sign);
      assert input[..i + 1] == input[..i] + [c];
      escaped := escaped + EscapeByte(c, sign);
      i := i + 1;
    }
    assert input[..i] == input;
  }

  // ---------------------------------------------------------------------
  // A JSON string-body decoder (section 7 of RFC 8259), the partner used
  // to state what escaping must achieve
  // ---------------------------------------------------------------------

  predicate IsHexDigit(c: byte)
  {
    (48 <= c <= 57) || (65 <= c <= 70) || (97 <= c <= 102)
  }

  function HexValue(c: byte): (v: nat)
    requires IsHexDigit(c)
    ensures v < 16
  {
    if c <= 57 then c as int - 48 else if c <= 70 then c as int - 55 else c as int - 87
  }

  /** The byte a two-character escape `\x` stands for. */
  function SimpleEscape(c: byte): Option<byte>
  {
    if c == Quote then Some(Quote)
    else if c == Backslash then Some(Backslash)
    else if c == 47 then Some(47)      // '/'
    else if c == 98 then Some(8)       // 'b'
    else if c == 102 then Some(12)     // 'f'
    else if c == 110 then Some(10)     // 'n'
    else if c == 114 then Some(13)     // 'r'
    else if c == 116 then Some(9)      // 't'
    else None
  }

  /** UTF-8 bytes of a code point from a `\uXXXX` escape. */
  function Utf8(cp: nat): seq<byte>
    requires cp < 0x10000
  {
    if cp < 0x80 then [cp as byte]
    else if cp < 0x800 then [(0xC0 + cp / 64) as byte, (0x80 + cp % 64) as byte]
    else [(0xE0 + cp / 4096) as byte, (0x80 + (cp / 64) % 64) as byte, (0x80 + cp % 64) as byte]
  }

  function Prepend(p: seq<byte>, r: Option<seq<byte>>): Option<seq<byte>>
  {
    if r.None? then None else Some(p + r.value)
  }

  /** Decode the body of a JSON string into UTF-8 bytes; None when the
      text holds a raw quote, a raw control character or a bad escape. */
  function Unescape(t: seq<byte>): Option<seq<byte>>
    decreases |t|
  {
    if t == [] then Some([])
    else if t[0] == Backslash then
      if |t| < 2 then None
      else if SimpleEscape(t[1]).Some? then Prepend([SimpleEscape(t[1]).value], Unescape(t[2..]))
      else if t[1] == 117 && |t| >= 6 && IsHexDigit(t[2]) && IsHexDigit(t[3]) && IsHexDigit(t[4]) && IsHexDigit(t[5]) then
        var cp := ((HexValue(t[2]) * 16 + HexValue(t[3])) * 16 + HexValue(t[4])) * 16 + HexValue(t[5]);
        Prepend(Utf8(cp), Unescape(t[6..]))
      else None
    else if t[0] == Quote || t[0] < 32 then None
    else Prepend([t[0]], Unescape(t[1..]))
  }

  lemma Hex2Value(n: nat)
    requires n < 256
    ensures IsHexDigit(Hex2(n)[0]) && IsHexDigit(Hex2(n)[1])
    ensures HexValue(Hex2(n)[0]) * 16 + HexValue(Hex2(n)[1]) == n
  {
  }

  /** The two-character escapes decode to the byte they stand for. */
  lemma ShortEscapeDecodes(b: byte, sign: CharSign, rest: seq<byte>)
    requires b == Quote || b == Backslash || b == 8 || b == 12 || b == 10 || b == 13 || b == 9
    ensures Unescape(EscapeByte(b, sign) + rest) == Prepend([b], Unescape(rest))
  {
    var t := EscapeByte(b, sign) + rest;
    assert t[2..] == rest;
  }

  /** A `\u00XY` escape of a control character decodes to that byte. */
  lemma ControlEscapeDecodes(b: byte, sign: CharSign, rest: seq<byte>)
    requires b < 32 && !(b == 8 || b == 12 || b == 10 || b == 13 || b == 9)
    ensures Unescape(EscapeByte(b, sign) + rest) == Prepend([b], Unescape(rest))
  {
    var t := EscapeByte(b, sign) + rest;
    assert EscapeByte(b, sign) == UnicodePrefix + Hex2(b as nat);
    Hex2Value(b as nat);
    assert t[6..] == rest;
  }

  /** Decoding one escaped byte followed by anything decodes to that byte
      followed by the decoding of the rest, whenever the byte is below 128
      or the platform's `char` is unsigned. */
  lemma EscapeByteDecodes(b: byte, sign: CharSign, rest: seq<byte>)
    requires sign == UnsignedChar || b < 128
    ensures Unescape(EscapeByte(b, sign) + rest) == Prepend([b], Unescape(rest))
  {
    if b == Quote || b == Backslash || b == 8 || b == 12 || b == 10 || b == 13 || b == 9 {
      ShortEscapeDecodes(b, sign, rest);
    } else if b < 32 {
      ControlEscapeDecodes(b, sign, rest);
    } else {
      var t := EscapeByte(b, sign) + rest;
      assert t[1..] == rest;
    }
  }

  /** With an unsigned `char`, decoding the escaped text gives back exactly
      the input bytes. */
  lemma {:induction false} EscapeRoundTrip(s: seq<byte>)
    ensures Unescape(Escaped(s, UnsignedChar)) == Some(s)
  {
    if s != [] {
      EscapeRoundTrip(s[1..]);
      EscapeByteDecodes(s[0], UnsignedChar, Escaped(s[1..], UnsignedChar));
      assert s == [s[0]] + s[1..];
    }
  }

  /** On ASCII text the two readings of `char` agree, so the as-written
      escaper round-trips there. */
  lemma {:induction false} AsciiRoundTrip(s: seq<byte>)
    requires forall i :: 0 <= i < |s| ==> s[i] < 128
    ensures Escaped(s, SignedChar) == Escaped(s, UnsignedChar)
    ensures Unescape(Escaped(s, SignedChar)) == Some(s)
  {
    if s != [] {
      AsciiRoundTrip(s[1..]);
      EscapeByteDecodes(s[0], SignedChar, Escaped(s[1..], SignedChar));
      assert s == [s[0]] + s[1..];
    }
  }

  /** With a signed `char` (x86-64), a byte at or above 0x80 is written as
      `\u00ffffff` and two hex digits. */
  lemma SignedHighByteEscape(b: byte)
    requires b >= 128
    ensures EscapeByte(b, SignedChar) == UnicodePrefix + SignExtension + Hex2(b as nat)
  {
  }

  /** So the UTF-8 text "é" (bytes C3 A9) is escaped to
      `\u00ffffffc3\u00ffffffa9`, which a JSON reader decodes to U+00FF
      (bytes C3 BF) followed by the literal text "ffffc3", and so on: not
      the input. */
  lemma SignedCharBreaksUtf8()
    ensures Unescape(Escaped([0xC3, 0xA9], SignedChar)) != Some([0xC3, 0xA9])
  {
    var input: seq<byte> := [0xC3, 0xA9];
    var first := EscapeByte(0xC3, SignedChar);
    var t := Escaped(input, SignedChar);
    assert t == first + Escaped(input[1..], SignedChar);
    SignedHighByteEscape(0xC3);
    assert first[..6] == [Backslash, 117, 48, 48, 102, 102];
    assert t[0] == Backslash && t[1] == 117 && SimpleEscape(t[1]).None?;
    assert t[2] == 48 && t[3] == 48 && t[4] == 102 && t[5] == 102;
    assert Utf8(255) == [0xC3, 0xBF];
    assert Unescape(t) == Prepend([0xC3, 0xBF], Unescape(t[6..]));
  }

  // ---------------------------------------------------------------------
  // Base64
  // ---------------------------------------------------------------------

  /** `base64_chars`, the table of section 4 of RFC 4648, written as the
      source writes it. */
  const Upper: string := "ABCDEFGHIJKLMNOPQRSTUVWXYZ"
  const Lower: string := "abcdefghijklmnopqrstuvwxyz"
  const DigitsAndSigns: string := "0123456789+/"
  const Alphabet: string := Upper + Lower + DigitsAndSigns

  /** Entry `k` of the table, by ranges. */
  function Sextet(k: nat): (c: char)
    requires k < 64
    ensures c != '='
  {
    if k < 26 then ('A' as int + k) as char
    else if k < 52 then ('a' as int + (k - 26)) as char
    else if k < 62 then ('0' as int + (k - 52)) as char
    else if k == 62 then '+' else '/'
  }

  /** The ranges describe the table exactly. */
  lemma SextetIsTable()
    ensures |Alphabet| == 64
    ensures forall k :: 0 <= k < 64 ==> Alphabet[k] == Sextet(k)
  {
    assert forall k :: 0 <= k < 26 ==> Upper[k] == ('A' as int + k) as char;
    assert forall k :: 0 <= k < 26 ==> Lower[k] == ('a' as int + k) as char;
    assert forall k :: 0 <= k < 12 ==> DigitsAndSigns[k] == Sextet(k + 52);
  }

  /** The Base64 text of `s`, one 3-byte group at a time; a final group of
      one or two bytes is padded with `=` (section 3.2 of RFC 4648). */
  function Base64(s: seq<byte>): (r: string)
    decreases |s|
  {
    if |s| == 0 then []
    else if |s| == 1 then LastOne(s[0])
    else if |s| == 2 then LastTwo(s[0], s[1])
    else Group(s[0], s[1], s[2]) + Base64(s[3..])
  }

  /** The character of a group that its first byte completes. */
  function Lead(a: byte): string
  {
    [Sextet(a as int / 4)]
  }

  /** The two characters of a group that its first two bytes complete. */
  function LeadPair(a: byte, b: byte): string
  {
    [Sextet(a as int / 4), Sextet((a as int % 4) * 16 + b as int / 16)]
  }

  /** Three bytes, 24 bits, as four characters of 6 bits each. */
  function Group(a: byte, b: byte, c: byte): string
  {
    LeadPair(a, b) + [Sextet((b as int % 16) * 4 + c as int / 64), Sextet(c as int % 64)]
  }

  /** A final single byte: 8 bits and 4 zero bits, then two `=`. */
  function LastOne(a: byte): string
  {
    Lead(a) + [Sextet((a as int % 4) * 16)] + "=="
  }

  /** A final pair of bytes: 16 bits and 2 zero bits, then one `=`. */
  function LastTwo(a: byte, b: byte): string
  {
    LeadPair(a, b) + [Sextet((b as int % 16) * 4)] + "="
  }

  function Pow2(n: nat): (p: nat)
    ensures p >= 1
  {
    if n == 0 then 1 else 2 * Pow2(n - 1)
  }

  /** The characters the inner loop emits from `val` while `valb >= 0`. */
  ghost function Emit(val: int, valb: int): string
    decreases if valb < 0 then 0 else valb + 1
  {
    if valb < 0 then [] else [Sextet((val / Pow2(valb as nat)) % 64)] + Emit(val, valb - 6)
  }

  /** `n` is a multiple of three, counted down in steps of three. */
  predicate Aligned(n: nat)
  {
    if n < 3 then n == 0 else Aligned(n - 3)
  }

  /** Encoding splits at any multiple of three bytes. */
  lemma {:induction false} Base64Append(p: seq<byte>, q: seq<byte>)
    requires Aligned(|p|)
    ensures Base64(p + q) == Base64(p) + Base64(q)
    decreases |p|
  {
    if |p| > 0 {
      assert (p + q)[3..] == p[3..] + q;
      Base64Append(p[3..], q);
    } else {
      assert p + q == q;
    }
  }

  /** First byte of a group: the new `val` keeps the low 2 bits. */
  lemma AfterFirstByte(v: int, c: int)
    requires v >= 0 && 0 <= c < 256
    ensures ((v * 256 + c) / 4) % 64 == c / 4
    ensures (v * 256 + c) % 4 == c % 4
  {
    var hi, lo := c / 4, c % 4;
    QuotRem(v * 256 + c, v * 64 + hi, lo, 4);
    QuotRem(v * 64 + hi, v, hi, 64);
  }

  /** Second byte: 2 bits of the first and 4 bits of the second. */
  lemma AfterSecondByte(v: int, p: int, c: int)
    requires v >= 0 && 0 <= c < 256 && v % 4 == p % 4
    ensures ((v * 256 + c) / 16) % 64 == (p % 4) * 16 + c / 16
    ensures (v * 256 + c) % 16 == c % 16
    ensures ((v * 256) / 16) % 64 == (p % 4) * 16
  {
    var a, r, hi, lo := v / 4, p % 4, c / 16, c % 16;
    QuotRem(v, a, r, 4);
    QuotRem(v * 256 + c, a * 64 + r * 16 + hi, lo, 16);
    QuotRem(a * 64 + r * 16 + hi, a, r * 16 + hi, 64);
    QuotRem(v * 256, a * 64 + r * 16, 0, 16);
    QuotRem(a * 64 + r * 16, a, r * 16, 64);
  }

  /** Third byte: 4 bits of the second and 2 of the third, then 6 bits. */
  lemma AfterThirdByte(v: int, p: int, c: int)
    requires v >= 0 && 0 <= c < 256 && v % 16 == p % 16
    ensures ((v * 256 + c) / 64) % 64 == (p % 16) * 4 + c / 64
    ensures (v * 256 + c) % 64 == c % 64
    ensures ((v * 256) / 64) % 64 == (p % 16) * 4
  {
    var a, r, hi, lo := v / 16, p % 16, c / 64, c % 64;
    QuotRem(v, a, r, 16);
    QuotRem(v * 256 + c, a * 64 + r * 4 + hi, lo, 64);
    QuotRem(a * 64 + r * 4 + hi, a, r * 4 + hi, 64);
    QuotRem(v * 256, a * 64 + r * 4, 0, 64);
    QuotRem(a * 64 + r * 4, a, r * 4, 64);
  }

  /** Quotient and remainder by 4, 16 or 64 are unique. */
  lemma QuotRem(x: int, q: int, r: int, d: int)
    requires d == 4 || d == 16 || d == 64
    requires 0 <= r < d && x == q * d + r
    ensures x / d == q && x % d == r
  {
    if d == 4 {
      assert x == q * 4 + r;
    } else if d == 16 {
      assert x == q * 16 + r;
    } else {
      assert x == q * 64 + r;
    }
  }

  /** What the encoder holds after reading the first `i` bytes: the
      characters of every complete group, plus one or two characters of
      the current group, whose unused low bits are still in `val`. */
  ghost predicate Progress(input: seq<byte>, i: nat, val: int, valb: int, output: string)
    requires i <= |input|
  {
    && val >= 0
    && (valb == -6 || valb == -4 || valb == -2)
    && (valb == -6 ==> Aligned(i) && output == Base64(input[..i]))
    && (valb == -4 ==>
        && i >= 1 && Aligned(i - 1) && val % 4 == input[i - 1] as int % 4
        && output == Base64(input[..i - 1]) + Lead(input[i - 1]))
    && (valb == -2 ==>
        && i >= 2 && Aligned(i - 2) && val % 16 == input[i - 1] as int % 16
        && output == Base64(input[..i - 2]) + LeadPair(input[i - 2], input[i - 1]))
  }

  /** The bit count left in `val` after reading one more byte. */
  function NextValb(valb: int): int
  {
    if valb + 8 >= 6 then valb + 8 - 12 else valb + 8 - 6
  }

  /** Reading one byte: the emitted characters and the bits kept in `val`
      are those of the encoder's state after `i + 1` bytes. */
  lemma ProgressStep(input: seq<byte>, i: nat, val: int, valb: int, output: string)
    requires i < |input| && Progress(input, i, val, valb, output)
    ensures valb + 8 >= 0
    ensures var v := val * 256 + input[i] as int;
      Progress(input, i + 1, v, NextValb(valb), output + Emit(v, valb + 8))
  {
    if valb == -6 {
      ProgressFirst(input, i, val, output);
    } else if valb == -4 {
      ProgressSecond(input, i, val, output);
    } else {
      ProgressThird(input, i, val, output);
    }
  }

  /** Reading the first byte of a group emits its top six bits. */
  lemma ProgressFirst(input: seq<byte>, i: nat, val: int, output: string)
    requires i < |input| && Progress(input, i, val, -6, output)
    ensures var v := val * 256 + input[i] as int;
      Progress(input, i + 1, v, -4, output + Emit(v, 2))
  {
    StepFirst(input, i, val, output);
    assert input[..i + 1 - 1] == input[..i];
  }

  /** Reading the second byte emits the next six bits. */
  lemma ProgressSecond(input: seq<byte>, i: nat, val: int, output: string)
    requires i < |input| && Progress(input, i, val, -4, output)
    ensures var v := val * 256 + input[i] as int;
      Progress(input, i + 1, v, -2, output + Emit(v, 4))
  {
    StepSecond(input, i, val, output);
    assert input[..i + 1 - 2] == input[..i - 1];
  }

  /** Reading the third byte completes the group. */
  lemma ProgressThird(input: seq<byte>, i: nat, val: int, output: string)
    requires i < |input| && Progress(input, i, val, -2, output)
    ensures var v := val * 256 + input[i] as int;
      Progress(input, i + 1, v, -6, output + Emit(v, 6))
  {
    StepThird(input, i, val, output);
    assert Aligned(i + 1);
  }

  lemma EmitValues(v: int)
    ensures Emit(v, 2) == [Sextet((v / 4) % 64)]
    ensures Emit(v, 4) == [Sextet((v / 16) % 64)]
    ensures Emit(v, 6) == [Sextet((v / 64) % 64), Sextet(v % 64)]
  {
    assert Pow2(2) == 4 && Pow2(4) == 16 && Pow2(6) == 64 by {
      assert Pow2(1) == 2 && Pow2(3) == 8 && Pow2(5) == 32;
    }
    assert Emit(v, -2) == [] && Emit(v, -4) == [] && Emit(v, -6) == [];
    assert Emit(v, 0) == [Sextet(v % 64)];
  }

  lemma Base64Group(g: seq<byte>)
    requires |g| == 3
    ensures Base64(g) == Group(g[0], g[1], g[2])
  {
    assert Base64(g[3..]) == [];
  }

  lemma StepFirst(input: seq<byte>, i: nat, val: int, output: string)
    requires i < |input| && val >= 0 && output == Base64(input[..i])
    ensures var v := val * 256 + input[i] as int;
      && v % 4 == input[i] as int % 4
      && output + Emit(v, 2) == Base64(input[..i]) + Lead(input[i])
  {
    var v := val * 256 + input[i] as int;
    AfterFirstByte(val, input[i] as int);
    EmitValues(v);
  }

  lemma StepSecond(input: seq<byte>, i: nat, val: int, output: string)
    requires 0 < i < |input| && val >= 0 && val % 4 == input[i - 1] as int % 4
    ensures var v := val * 256 + input[i] as int;
      && v % 16 == input[i] as int % 16
      && output + Emit(v, 4) == output + [Sextet((input[i - 1] as int % 4) * 16 + input[i] as int / 16)]
  {
    var v := val * 256 + input[i] as int;
    AfterSecondByte(val, input[i - 1] as int, input[i] as int);
    EmitValues(v);
  }

  lemma StepThird(input: seq<byte>, i: nat, val: int, output: string)
    requires 2 <= i < |input| && Aligned(i - 2) && val >= 0 && val % 16 == input[i - 1] as int % 16
    requires output == Base64(input[..i - 2]) + LeadPair(input[i - 2], input[i - 1])
    ensures output + Emit(val * 256 + input[i] as int, 6) == Base64(input[..i + 1])
  {
    EmitThird(input[i - 1], input[i], val);
    SplitLastGroup(input, i);
    Base64Group(input[i - 2..i + 1]);
  }

  lemma EmitThird(b: byte, c: byte, val: int)
    requires val >= 0 && val % 16 == b as int % 16
    ensures Emit(val * 256 + c as int, 6) == [Sextet((b as int % 16) * 4 + c as int / 64), Sextet(c as int % 64)]
  {
    AfterThirdByte(val, b as int, c as int);
    EmitValues(val * 256 + c as int);
  }

  lemma SplitLastGroup(input: seq<byte>, i: nat)
    requires 2 <= i < |input| && Aligned(i - 2)
    ensures Base64(input[..i + 1]) == Base64(input[..i - 2]) + Base64(input[i - 2..i + 1])
  {
    var g := input[i - 2..i + 1];
    Base64Append(input[..i - 2], g);
    assert input[..i - 2] + g == input[..i + 1];
  }

  /** The character the final flush writes, if any bits are pending. */
  function Flush(val: int, valb: int): string
  {
    if valb > -6 && valb + 8 >= 0 then [Sextet(((val * 256) / Pow2((valb + 8) as nat)) % 64)] else []
  }

  /** `u` is `target` without its trailing `=` padding: a prefix that
      stops at most three characters short, and only before `=`s. */
  ghost predicate UpToPadding(target: string, u: string)
  {
    && |target| - 3 <= |u| <= |target|
    && u == target[..|u|]
    && (|u| % 4 == 0 ==> |u| == |target|)
    && forall j :: |u| <= j < |target| ==> target[j] == '='
  }

  /** Every text is itself up to its padding. */
  lemma Unpadded(t: string)
    ensures UpToPadding(t, t)
  {
    assert t[..|t|] == t;
  }

  /** Input ending on a group boundary: nothing pending, nothing to pad. */
  lemma DoneWhole(input: seq<byte>, val: int, output: string)
    requires Progress(input, |input|, val, -6, output)
    ensures UpToPadding(Base64(input), output + Flush(val, -6))
  {
    assert input[..|input|] == input;
    assert output + Flush(val, -6) == Base64(input);
    Unpadded(Base64(input));
  }

  /** The encoding is a whole number of 4-character groups. */
  lemma Base64Quads(s: seq<byte>)
    ensures |Base64(s)| % 4 == 0
  {
    Base64Length(s);
    QuotRem(|Base64(s)|, (|s| + 2) / 3, 0, 4);
  }

  /** Dropping the one or two `=` that end the last group of four. */
  lemma PadTail(p: string, kept: string, pad: string)
    requires |p| % 4 == 0 && |kept| + |pad| == 4 && 1 <= |pad| <= 2
    requires forall j :: 0 <= j < |pad| ==> pad[j] == '='
    ensures UpToPadding(p + (kept + pad), p + kept)
  {
    var t, u := p + (kept + pad), p + kept;
    assert u == t[..|u|];
    assert forall j :: |u| <= j < |t| ==> t[j] == pad[j - |u|];
  }

  lemma Assoc(a: string, b: string, c: string)
    ensures (a + b) + c == a + (b + c)
  {
  }

  /** The flush after one leftover byte writes its low two bits. */
  lemma FlushOne(val: int, c: byte)
    requires val >= 0 && val % 4 == c as int % 4
    ensures Flush(val, -4) == [Sextet((c as int % 4) * 16)]
  {
    AfterSecondByte(val, c as int, 0);
    assert Pow2(4) == 16 by { assert Pow2(2) == 4; }
  }

  /** The flush after two leftover bytes writes the low four bits of the second. */
  lemma FlushTwo(val: int, c: byte)
    requires val >= 0 && val % 16 == c as int % 16
    ensures Flush(val, -2) == [Sextet((c as int % 16) * 4)]
  {
    AfterThirdByte(val, c as int, 0);
    assert Pow2(6) == 64 by { assert Pow2(3) == 8; }
  }

  /** One byte left over: its low two bits are flushed, two `=` follow. */
  lemma DoneOne(p: seq<byte>, c: byte, val: int, output: string)
    requires Aligned(|p|) && val >= 0 && val % 4 == c as int % 4
    requires output == Base64(p) + Lead(c)
    ensures UpToPadding(Base64(p + [c]), output + Flush(val, -4))
  {
    assert Base64([c]) == LastOne(c);
    FlushOne(val, c);
    Base64Append(p, [c]);
    Base64Quads(p);
    PadTail(Base64(p), Lead(c) + Flush(val, -4), "==");
    Assoc(Base64(p), Lead(c), Flush(val, -4));
  }

  /** Two bytes left over: the low four bits are flushed, one `=` follows. */
  lemma DoneTwo(p: seq<byte>, b: byte, c: byte, val: int, output: string)
    requires Aligned(|p|) && val >= 0 && val % 16 == c as int % 16
    requires output == Base64(p) + LeadPair(b, c)
    ensures UpToPadding(Base64(p + [b, c]), output + Flush(val, -2))
  {
    assert Base64([b, c]) == LastTwo(b, c);
    FlushTwo(val, c);
    Base64Append(p, [b, c]);
    Base64Quads(p);
    PadTail(Base64(p), LeadPair(b, c) + Flush(val, -2), "=");
    Assoc(Base64(p), LeadPair(b, c), Flush(val, -2));
  }

  /** After the flush, the output is the encoding up to its padding. */
  lemma Done(input: seq<byte>, val: int, valb: int, output: string)
    requires Progress(input, |input|, val, valb, output)
    ensures UpToPadding(Base64(input), output + Flush(val, valb))
  {
    if valb == -6 {
      DoneWhole(input, val, output);
    } else if valb == -4 {
      DoneOneLeft(input, val, output);
    } else {
      DoneTwoLeft(input, val, output);
    }
  }

  /** A sequence is its prefix followed by its last element. */
  lemma DropLastOne(s: seq<byte>)
    requires 1 <= |s|
    ensures s == s[..|s| - 1] + [s[|s| - 1]]
  {
  }

  /** A sequence is its prefix followed by its last two elements. */
  lemma DropLastTwo(s: seq<byte>)
    requires 2 <= |s|
    ensures s == s[..|s| - 2] + [s[|s| - 2], s[|s| - 1]]
  {
  }

  lemma DoneOneLeft(input: seq<byte>, val: int, output: string)
    requires Progress(input, |input|, val, -4, output)
    ensures UpToPadding(Base64(input), output + Flush(val, -4))
  {
    var n := |input|;
    assert Base64(input) == Base64(input[..n - 1] + [input[n - 1]]) by { DropLastOne(input); }
    DoneOne(input[..n - 1], input[n - 1], val, output);
  }

  lemma DoneTwoLeft(input: seq<byte>, val: int, output: string)
    requires Progress(input, |input|, val, -2, output)
    ensures UpToPadding(Base64(input), output + Flush(val, -2))
  {
    var n := |input|;
    assert Base64(input) == Base64(input[..n - 2] + [input[n - 2], input[n - 1]]) by { DropLastTwo(input); }
    DoneTwo(input[..n - 2], input[n - 2], input[n - 1], val, output);
  }

  /** The inner loop of `base64_encode`: while at least six bits are
      pending, emit the top six and drop them. `valb` is the bit count
      minus six, so on entry after a byte it is 2, 4 or 6. */
  method EmitReady(output: string, val: int, valb: int) returns (output': string, valb': int)
    requires valb == 2 || valb == 4 || valb == 6
    ensures output' == output + Emit(val, valb)
    ensures valb' == NextValb(valb - 8)
  {
    output', valb' := output, valb;
    while valb' >= 0
      invariant valb' >= -6 && (valb' == valb || valb' == valb - 6 || valb' == valb - 12)
      invariant output' + Emit(val, valb') == output + Emit(val, valb)
      decreases valb' + 6
    {
      output' := output' + [Sextet((val / Pow2(valb' as nat)) % 64)];
      valb' := valb' - 6;
    }
  }

  /** The byte loop of `base64_encode`: shift each byte into `val` and
      emit every complete 6 bits. */
  method EncodeBytes(input: seq<byte>) returns (output: string, val: int, valb: int)
    ensures Progress(input, |input|, val, valb, output)
  {
    output := [];
    val := 0;
    valb := -6;
    var i := 0;
    while i < |input|
      invariant 0 <= i <= |input|
      invariant Progress(input, i, val, valb, output)
    {
      ProgressStep(input, i, val, valb, output);
      val := val * 256 + input[i] as int;
      valb := valb + 8;
      output, valb := EmitReady(output, val, valb);
      i := i + 1;
    }
  }

  /** `base64_encode`: shift each byte into `val`, emit a character for
      every complete 6 bits, flush the remaining bits, then pad with `=`
      to a multiple of four. `val` is unbounded here; the C++ `int`
      overflows on long inputs but only its low bits are ever read. */
  method Base64Encode(input: seq<byte>) returns (output: string)
    ensures output == Base64(input)
  {
    var val, valb;
    output, val, valb := EncodeBytes(input);
    Done(input, val, valb, output);
    ghost var flushed := output + Flush(val, valb);
    if valb > -6 {
      output := output + [Sextet(((val * 256) / Pow2((valb + 8) as nat)) % 64)];
    }
    assert output == flushed;
    ghost var target := Base64(input);
    Base64Quads(input);
    while |output| % 4 != 0
      invariant |target| % 4 == 0 && UpToPadding(target, output)
      decreases |target| - |output|
    {
      PadStep(target, output);
      output := output + ['='];
    }
    PadDone(target, output);
  }

  /** One more `=` keeps the output a prefix of the encoding. */
  lemma PadStep(target: string, u: string)
    requires |target| % 4 == 0 && UpToPadding(target, u) && |u| % 4 != 0
    ensures |u| < |target| && UpToPadding(target, u + ['='])
  {
    assert target[..|u| + 1] == target[..|u|] + [target[|u|]];
  }

  /** Padding stops exactly at the end of the encoding. */
  lemma PadDone(target: string, u: string)
    requires UpToPadding(target, u) && |u| % 4 == 0
    ensures u == target
  {
  }

  /** Four characters for every started group of three bytes. */
  lemma {:induction false} Base64Length(s: seq<byte>)
    ensures |Base64(s)| == 4 * ((|s| + 2) / 3)
    decreases |s|
  {
    if |s| >= 3 {
      Base64Length(s[3..]);
      assert (|s| + 2) / 3 == (|s[3..]| + 2) / 3 + 1;
    }
  }

  /** A character of the alphabet of section 4 of RFC 4648: a letter, a
      digit, `+` or `/`. */
  predicate IsBase64Char(c: char)
  {
    ('A' <= c <= 'Z') || ('a' <= c <= 'z') || ('0' <= c <= '9') || c == '+' || c == '/'
  }

  /** The table holds alphabet characters only. */
  lemma AlphabetChars()
    ensures forall k :: 0 <= k < |Alphabet| ==> IsBase64Char(Alphabet[k])
  {
    SextetIsTable();
  }

  /** Every table entry is a character of the alphabet. */
  lemma SextetInAlphabet(k: nat)
    requires k < 64
    ensures IsBase64Char(Sextet(k))
  {
  }

  /** The characters of a whole group are all alphabet characters. */
  lemma GroupInAlphabet(a: byte, b: byte, c: byte)
    ensures forall j :: 0 <= j < 4 ==> IsBase64Char(Group(a, b, c)[j])
  {
    SextetInAlphabet(a as int / 4);
    SextetInAlphabet((a as int % 4) * 16 + b as int / 16);
    SextetInAlphabet((b as int % 16) * 4 + c as int / 64);
    SextetInAlphabet(c as int % 64);
  }

  /** `r` is alphabet characters followed by exactly `pad` signs `=`. */
  ghost predicate PaddedText(r: string, pad: nat)
  {
    && pad <= |r|
    && (forall j :: 0 <= j < |r| - pad ==> IsBase64Char(r[j]))
    && (forall j :: |r| - pad <= j < |r| ==> r[j] == '=')
  }

  /** A whole group in front keeps the shape. */
  lemma GroupThenPadded(g: string, rest: string, pad: nat)
    requires |g| == 4 && forall j :: 0 <= j < 4 ==> IsBase64Char(g[j])
    requires PaddedText(rest, pad)
    ensures PaddedText(g + rest, pad)
  {
    var r := g + rest;
    forall j | 0 <= j < |r| - pad ensures IsBase64Char(r[j]) {
      if j >= 4 { assert r[j] == rest[j - 4]; }
    }
    forall j | |r| - pad <= j < |r| ensures r[j] == '=' {
      assert r[j] == rest[j - 4];
    }
  }

  /** A final single byte gives two characters and `==`. */
  lemma LastOneShape(a: byte)
    ensures PaddedText(LastOne(a), 2)
  {
    SextetInAlphabet(a as int / 4);
    SextetInAlphabet((a as int % 4) * 16);
    var r := LastOne(a);
    assert |r| == 4 && r[0] == Sextet(a as int / 4) && r[1] == Sextet((a as int % 4) * 16);
    assert r[2] == '=' && r[3] == '=';
  }

  /** A final pair of bytes gives three characters and `=`. */
  lemma LastTwoShape(a: byte, b: byte)
    ensures PaddedText(LastTwo(a, b), 1)
  {
    SextetInAlphabet(a as int / 4);
    SextetInAlphabet((a as int % 4) * 16 + b as int / 16);
    SextetInAlphabet((b as int % 16) * 4);
    var r := LastTwo(a, b);
    assert |r| == 4 && r[0] == Sextet(a as int / 4) && r[1] == Sextet((a as int % 4) * 16 + b as int / 16);
    assert r[2] == Sextet((b as int % 16) * 4) && r[3] == '=';
  }

  /** The number of `=` that end the encoding of `n` bytes. */
  function PadLength(n: nat): (p: nat)
    ensures p <= 2
    ensures (n + p) % 3 == 0
  {
    if n % 3 == 0 then 0 else 3 - n % 3
  }

  /** A whole group in front of the rest of the encoding keeps its shape. */
  lemma Base64ShapeStep(s: seq<byte>, pad: nat)
    requires |s| >= 3 && PaddedText(Base64(s[3..]), pad)
    ensures PaddedText(Base64(s), pad)
  {
    var g, rest := Group(s[0], s[1], s[2]), Base64(s[3..]);
    assert Base64(s) == g + rest;
    GroupInAlphabet(s[0], s[1], s[2]);
    GroupThenPadded(g, rest, pad);
  }

  /** The output is alphabet characters followed by as many `=` as the last
      group lacks bytes: none, one or two (section 3.2 of RFC 4648). */
  lemma {:induction false} Base64Shape(s: seq<byte>)
    ensures PaddedText(Base64(s), PadLength(|s|))
    decreases |s|
  {
    if |s| == 0 {
      assert Base64(s) == [];
    } else if |s| == 1 {
      assert Base64(s) == LastOne(s[0]);
      LastOneShape(s[0]);
    } else if |s| == 2 {
      assert Base64(s) == LastTwo(s[0], s[1]);
      LastTwoShape(s[0], s[1]);
    } else {
      assert PadLength(|s[3..]|) == PadLength(|s|) by {
        assert |s[3..]| + 3 == |s|;
      }
      Base64Shape(s[3..]);
      Base64ShapeStep(s, PadLength(|s|));
    }
  }
}
