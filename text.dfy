/** Decimal rendering and parsing of counters, as produced by Python's
    f-strings (`f"{n}"`) and by C++ `operator<<` with `std::setw` /
    `std::setfill('0')`. Shared by the simulators' key generators and by
    the incident id generator. */
module Text {

  predicate IsDigit(c: char) { '0' <= c <= '9' }

  predicate AllDigits(s: string) { forall i :: 0 <= i < |s| ==> IsDigit(s[i]) }

  function DigitChar(d: nat): (c: char)
    requires d < 10
    ensures IsDigit(c) && c as int - '0' as int == d
  {
    ('0' as int + d) as char
  }

  /** The decimal digits of `n`, most significant first, without leading zeros. */
  function NatToDecimal(n: nat): (s: string)
    ensures |s| >= 1 && AllDigits(s)
    ensures |s| > 1 ==> s[0] != '0'
  {
    if n < 10 then [DigitChar(n)] else NatToDecimal(n / 10) + [DigitChar(n % 10)]
  }

  /** Python's `str(i)` for an int: a minus sign, then the digits. */
  function IntToDecimal(i: int): (s: string)
    ensures |s| >= 1
    ensures i >= 0 ==> AllDigits(s)
  {
    if i >= 0 then NatToDecimal(i) else "-" + NatToDecimal(-i)
  }

  /** The number a digit string denotes. */
  function DigitsValue(s: string): nat
    requires AllDigits(s)
  {
    if s == [] then 0
    else DigitsValue(s[..|s| - 1]) * 10 + (s[|s| - 1] as int - '0' as int)
  }

  /** Reading back a rendered number gives the number. */
  lemma {:induction false} DecimalRoundTrip(n: nat)
    ensures DigitsValue(NatToDecimal(n)) == n
  {
    if n >= 10 {
      var s := NatToDecimal(n);
      assert s[..|s| - 1] == NatToDecimal(n / 10);
      DecimalRoundTrip(n / 10);
    }
  }

  /** Rendering is injective: different counters never render alike. */
  lemma DecimalInjective(m: nat, n: nat)
    requires NatToDecimal(m) == NatToDecimal(n)
    ensures m == n
  {
    DecimalRoundTrip(m);
    DecimalRoundTrip(n);
  }

  function Zeros(k: nat): (s: string)
    ensures |s| == k && AllDigits(s)
    ensures forall i :: 0 <= i < k ==> s[i] == '0'
  {
    if k == 0 then [] else Zeros(k - 1) + ['0']
  }

  /** `std::setw(width) << std::setfill('0')`: left-pad with zeros up to
      `width` characters; longer text is never truncated. */
  function ZeroPad(s: string, width: nat): (r: string)
    ensures |r| == if |s| >= width then |s| else width
    ensures AllDigits(s) ==> AllDigits(r)
  {
    if |s| >= width then s else Zeros(width - |s|) + s
  }

  /** Leading zeros do not change the value of a digit string. */
  lemma {:induction false} LeadingZerosValue(k: nat, s: string)
    requires AllDigits(s)
    ensures AllDigits(Zeros(k) + s)
    ensures DigitsValue(Zeros(k) + s) == DigitsValue(s)
  {
    var z := Zeros(k) + s;
    if s == [] {
      assert z == Zeros(k);
      ZerosValue(k);
    } else {
      var init := s[..|s| - 1];
      assert z[..|z| - 1] == Zeros(k) + init;
      LeadingZerosValue(k, init);
    }
  }

  lemma {:induction false} ZerosValue(k: nat)
    ensures DigitsValue(Zeros(k)) == 0
  {
    if k > 0 {
      assert Zeros(k)[..k - 1] == Zeros(k - 1);
      ZerosValue(k - 1);
    }
  }

  /** Padding a rendered number and reading it back gives the number. */
  lemma PaddedRoundTrip(n: nat, width: nat)
    ensures AllDigits(ZeroPad(NatToDecimal(n), width))
    ensures DigitsValue(ZeroPad(NatToDecimal(n), width)) == n
  {
    var s := NatToDecimal(n);
    DecimalRoundTrip(n);
    if |s| < width {
      LeadingZerosValue(width - |s|, s);
    }
  }

  /** The text after the last '-' of `s` (all of `s` when there is none). */
  function SuffixAfterLastDash(s: string): (r: string)
    ensures |r| <= |s| && r == s[|s| - |r|..]
    ensures '-' !in r
  {
    if s == [] then []
    else if s[|s| - 1] == '-' then []
    else SuffixAfterLastDash(s[..|s| - 1]) + [s[|s| - 1]]
  }

  /** Whatever precedes it, `prefix + "-" + t` ends in `t` after its last
      dash when `t` has no dash of its own. */
  lemma {:induction false} SuffixAfterJoin(prefix: string, t: string)
    requires '-' !in t
    ensures SuffixAfterLastDash(prefix + "-" + t) == t
  {
    var s := prefix + "-" + t;
    if t != [] {
      var init := t[..|t| - 1];
      assert s[..|s| - 1] == prefix + "-" + init;
      SuffixAfterJoin(prefix, init);
    } else {
      assert s[|s| - 1] == '-';
    }
  }

  lemma DigitsHaveNoDash(s: string)
    requires AllDigits(s)
    ensures '-' !in s
  {
  }
}
