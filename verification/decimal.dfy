/**
 Decimal numerals: what `printf` writes for `%u`, `%lu`, `%d` and `%ld`, and
 what `strtoull` and `strtol` read back.
 */
module Decimal {
  import opened Machine

  predicate IsDigit(c: char) { '0' <= c <= '9' }

  predicate AllDigits(s: string) { forall i | 0 <= i < |s| :: IsDigit(s[i]) }

  function DigitChar(d: int): (c: char)
    requires 0 <= d < 10
    ensures IsDigit(c)
  {
    '0' + d as char
  }

  function DigitValue(c: char): (d: int)
    requires IsDigit(c)
    ensures 0 <= d < 10
  {
    c as int - '0' as int
  }

  /** `%lu` */
  function Numeral(n: nat): (s: string)
    ensures |s| > 0 && AllDigits(s)
  {
    if n < 10 then [DigitChar(n)] else Numeral(n / 10) + [DigitChar(n % 10)]
  }

  /** `%ld` */
  function SignedNumeral(n: int): (s: string)
    ensures |s| > 0
  {
    if n < 0 then "-" + Numeral(-n) else Numeral(n)
  }

  function Value(s: string): nat
    requires AllDigits(s)
  {
    if s == "" then 0 else 10 * Value(s[..|s| - 1]) + DigitValue(s[|s| - 1])
  }

  lemma {:induction false} ValueOfNumeral(n: nat)
    ensures Value(Numeral(n)) == n
  {
    if n < 10 {
      assert Numeral(n)[..0] == "";
    } else {
      var s := Numeral(n);
      assert s[..|s| - 1] == Numeral(n / 10);
      ValueOfNumeral(n / 10);
    }
  }

  lemma NumeralInjective(m: nat, n: nat)
    requires Numeral(m) == Numeral(n)
    ensures m == n
  {
    ValueOfNumeral(m);
    ValueOfNumeral(n);
  }

  lemma SignOfNumeral(n: int)
    ensures SignedNumeral(n)[0] == '-' <==> n < 0
    ensures IsDigit(SignedNumeral(n)[0]) <==> n >= 0
  {
    assert IsDigit(Numeral(if n < 0 then -n else n)[0]);
  }

  lemma SignedNumeralInjective(m: int, n: int)
    requires SignedNumeral(m) == SignedNumeral(n)
    ensures m == n
  {
    SignOfNumeral(m);
    SignOfNumeral(n);
    if m < 0 {
      assert Numeral(-m) == SignedNumeral(m)[1..] == SignedNumeral(n)[1..] == Numeral(-n);
      NumeralInjective(-m, -n);
    } else {
      NumeralInjective(m, n);
    }
  }

  function Power10(k: nat): nat { if k == 0 then 1 else 10 * Power10(k - 1) }

  /** A number below 10^k takes at most k digits, and one from 10^k on takes more. */
  lemma {:induction false} NumeralWidth(n: nat, k: nat)
    requires k > 0
    ensures n < Power10(k) <==> |Numeral(n)| <= k
  {
    if n < 10 {
      PowerGrows(1, k);
    } else if k > 1 {
      NumeralWidth(n / 10, k - 1);
    }
  }

  lemma {:induction false} PowerGrows(j: nat, k: nat)
    requires j <= k
    ensures Power10(j) <= Power10(k)
  {
    if j < k { PowerGrows(j, k - 1); }
  }

  lemma WidthU64(n: U64)
    ensures |Numeral(n)| <= 20
  {
    assert Power10(20) == 100_000_000_000_000_000_000 by {
      assert Power10(4) == 10_000;
      assert Power10(8) == 100_000_000;
      assert Power10(12) == 1_000_000_000_000;
      assert Power10(16) == 10_000_000_000_000_000;
    }
    NumeralWidth(n, 20);
  }

  lemma WidthI64(n: I64)
    ensures |SignedNumeral(n)| <= 21
  {
    var m: int := n;
    WidthU64(if m < 0 then -m else m);
  }

  /** The leading digits of `s`. */
  function DigitRun(s: string): (r: string)
    ensures r <= s && AllDigits(r)
    ensures |r| < |s| ==> !IsDigit(s[|r|])
  {
    if s == "" || !IsDigit(s[0]) then "" else [s[0]] + DigitRun(s[1..])
  }

  lemma {:induction false} DigitRunStops(s: string, rest: string)
    requires AllDigits(s) && (rest == "" || !IsDigit(rest[0]))
    ensures DigitRun(s + rest) == s
  {
    if s == "" {
      assert s + rest == rest;
    } else {
      assert (s + rest)[1..] == s[1..] + rest;
      DigitRunStops(s[1..], rest);
    }
  }

  predicate IsSpace(c: char) { c == ' ' || '\t' <= c <= '\r' }

  function SkipSpace(s: string): (r: string)
    ensures |r| <= |s|
  {
    if s != "" && IsSpace(s[0]) then SkipSpace(s[1..]) else s
  }

  /** The optional sign and the digits that `strtoull` and `strtol` accept: is
      there a minus, and what number do the digits make (no digits make 0)? */
  function ReadNumber(s: string): (bool, nat) {
    var t := SkipSpace(s);
    var signed := t != "" && (t[0] == '-' || t[0] == '+');
    (signed && t[0] == '-', Value(DigitRun(if signed then t[1..] else t)))
  }

  /** `strtoull(s, NULL, 10)`: too many digits give ULLONG_MAX. */
  function Strtoull(s: string): U64 {
    var (negative, v) := ReadNumber(s);
    if v >= TWO_64 then TWO_64 - 1 else if negative then ToU64(0 - v) else v
  }

  /** `strtol(s, NULL, 10)`: out of range gives LONG_MIN or LONG_MAX. */
  function Strtol(s: string): I64 {
    var (negative, v) := ReadNumber(s);
    if negative then (if v > TWO_63 then 0 - TWO_63 else 0 - v)
    else (if v >= TWO_63 then TWO_63 - 1 else v)
  }

  lemma ReadNumberOfSigned(n: int, rest: string)
    requires rest == "" || !IsDigit(rest[0])
    ensures ReadNumber(SignedNumeral(n) + rest) == (n < 0, if n < 0 then -n else n)
  {
    var m := if n < 0 then -n else n;
    var s := SignedNumeral(n) + rest;
    SignOfNumeral(n);
    assert s[0] == SignedNumeral(n)[0];
    assert (if n < 0 then s[1..] else s) == Numeral(m) + rest;
    DigitRunStops(Numeral(m), rest);
    ValueOfNumeral(m);
  }

  /** Reading back a printed number, with anything but a digit behind it. */
  lemma StrtoullOfNumeral(n: U64, rest: string)
    requires rest == "" || !IsDigit(rest[0])
    ensures Strtoull(Numeral(n) + rest) == n
  {
    ReadNumberOfSigned(n, rest);
  }

  lemma StrtolOfNumeral(n: I64, rest: string)
    requires n >= 0 && (rest == "" || !IsDigit(rest[0]))
    ensures Strtol(Numeral(n) + rest) == n
  {
    ReadNumberOfSigned(n, rest);
  }

  /** A negative time stamp survives being read with the unsigned reader. */
  lemma StrtoullOfSigned(n: I64, rest: string)
    requires rest == "" || !IsDigit(rest[0])
    ensures ToI64(Strtoull(SignedNumeral(n) + rest)) == n
  {
    ReadNumberOfSigned(n, rest);
  }
}
