/**
 Printing 32-bit integers digit by digit with a running divisor, as the conversions
 %d, %u and %x do, and reading them back with atoi.
 */
module Numerals {
  import opened Words

  type Int32 = x: int | -0x8000_0000 <= x < 0x8000_0000

  predicate IsBase(base: nat) { base == 10 || base == 16 }

  predicate IsDigit(c: char, base: nat) {
    '0' <= c <= '9' || (base == 16 && 'a' <= c <= 'f')
  }

  function DigitChar(d: nat): (c: char)
    requires d < 16
    ensures IsDigit(c, 16) && DigitValue(c) == d
    ensures d < 10 ==> IsDigit(c, 10)
    ensures c == "0123456789abcdef"[d]
  {
    if d < 10 then (d + '0' as int) as char else (d + 'a' as int - 10) as char
  }

  function DigitValue(c: char): nat
    requires IsDigit(c, 16)
  {
    if c <= '9' then c as int - '0' as int else c as int - 'a' as int + 10
  }

  predicate IsNumeral(s: string, base: nat) {
    forall i :: 0 <= i < |s| ==> IsDigit(s[i], base)
  }

  /** The number a digit string denotes, most significant digit first. */
  function ValueOf(s: string, base: nat): nat
    requires IsBase(base) && IsNumeral(s, base)
  {
    if s == "" then 0
    else ValueOf(s[..|s| - 1], base) * base + DigitValue(s[|s| - 1])
  }

  /** A digit string without superfluous leading zeros. */
  predicate IsCanonical(s: string, base: nat) {
    && IsNumeral(s, base)
    && s != ""
    && (|s| > 1 ==> s[0] != '0')
  }

  function Pow(base: nat, k: nat): (p: nat)
    requires base > 0
    ensures p > 0
  {
    if k == 0 then 1 else base * Pow(base, k - 1)
  }

  lemma {:induction false} ValueBelow(s: string, base: nat)
    requires IsBase(base) && IsNumeral(s, base)
    ensures ValueOf(s, base) < Pow(base, |s|)
  {
    if s != "" {
      var t := s[..|s| - 1];
      ValueBelow(t, base);
      assert ValueOf(t, base) * base + base <= Pow(base, |t|) * base;
    }
  }

  lemma {:induction false} ValueAtLeast(s: string, base: nat)
    requires IsBase(base) && IsCanonical(s, base) && s[0] != '0'
    ensures ValueOf(s, base) >= Pow(base, |s| - 1)
  {
    var t := s[..|s| - 1];
    if t == "" {
      assert s == [s[0]] && ValueOf("", base) == 0 && DigitValue(s[0]) >= 1;
    } else {
      ValueAtLeast(t, base);
      assert ValueOf(t, base) * base >= Pow(base, |t| - 1) * base;
    }
  }

  lemma {:induction false} PowMonotone(base: nat, j: nat, k: nat)
    requires base > 1 && j <= k
    ensures Pow(base, j) <= Pow(base, k)
    decreases k
  {
    if j < k {
      PowMonotone(base, j, k - 1);
      assert base * Pow(base, k - 1) >= Pow(base, k - 1);
    }
  }

  /** No digit string for the same number is shorter than the canonical one. */
  lemma CanonicalIsShortest(s: string, t: string, base: nat)
    requires IsBase(base) && IsCanonical(s, base) && IsNumeral(t, base) && t != ""
    requires ValueOf(s, base) == ValueOf(t, base)
    ensures |s| <= |t|
  {
    if |s| > 1 && |t| < |s| {
      ValueAtLeast(s, base);
      ValueBelow(t, base);
      PowMonotone(base, |t|, |s| - 1);
    }
  }

  /** A number has one canonical digit string. */
  lemma {:induction false} CanonicalIsUnique(s: string, t: string, base: nat)
    requires IsBase(base) && IsCanonical(s, base) && IsCanonical(t, base)
    requires ValueOf(s, base) == ValueOf(t, base)
    ensures s == t
    decreases |s|
  {
    CanonicalIsShortest(s, t, base);
    CanonicalIsShortest(t, s, base);
    var n := |s| - 1;
    var a, b := ValueOf(s[..n], base), ValueOf(t[..n], base);
    var c, d := DigitValue(s[n]), DigitValue(t[n]);
    assert a * base + c == b * base + d;
    RemainderAt(c, a, base);
    RemainderAt(d, b, base);
    assert s[n] == t[n];
    if n > 0 {
      CanonicalIsUnique(s[..n], t[..n], base);
    }
    assert s == s[..n] + [s[n]] && t == t[..n] + [t[n]];
  }

  /** The canonical digit string of a number. */
  function Numeral(n: nat, base: nat): (s: string)
    requires IsBase(base)
    ensures IsCanonical(s, base) && ValueOf(s, base) == n
    ensures n > 0 ==> s[0] != '0'
  {
    if n < base then
      var s := [DigitChar(n)];
      assert s[..0] == "";
      s
    else
      var t := Numeral(n / base, base);
      var s := t + [DigitChar(n % base)];
      assert s[..|s| - 1] == t;
      s
  }

  /** The state of the emitting loop: `out` holds the digits above divisor `d`, `num` the rest. */
  ghost predicate Printing(out: string, num: nat, d: nat, k: nat, number: nat, base: nat) {
    && IsBase(base)
    && IsNumeral(out, base)
    && if d == 0 then IsCanonical(out, base) && ValueOf(out, base) == number
       else
         && d == Pow(base, k)
         && num < d * base
         && ValueOf(out, base) * (d * base) + num == number
         && if out == "" then k > 0 ==> d <= num else out[0] != '0'
  }

  lemma ValueAppend(out: string, c: char, base: nat)
    requires IsBase(base) && IsNumeral(out, base) && IsDigit(c, base)
    ensures IsNumeral(out + [c], base)
    ensures ValueOf(out + [c], base) == ValueOf(out, base) * base + DigitValue(c)
  {
    assert (out + [c])[..|out|] == out;
  }

  /** Emitting (or, as a leading zero, dropping) one digit moves on to the next divisor. */
  lemma PrintingStep(out: string, digit: nat, left: nat, d: nat, next: nat, k: nat, number: nat, base: nat)
    requires IsBase(base) && IsNumeral(out, base) && d == Pow(base, k) && digit < base && left < d
    requires (ValueOf(out, base) * base + digit) * d + left == number
    requires if out == "" then k > 0 ==> digit > 0 else out[0] != '0'
    requires if k > 0 then next == Pow(base, k - 1) else next == 0
    ensures |out| > 0 || digit > 0 || next == 0
    ensures Printing(out + [DigitChar(digit)], left, next, if k > 0 then k - 1 else 0, number, base)
  {
    ValueAppend(out, DigitChar(digit), base);
    var value := ValueOf(out, base) * base + digit;
    if k == 0 {
      assert value * d + left == value;
    } else {
      assert d == next * base;
      assert DigitChar(digit) == '0' ==> digit == 0;
    }
  }

  lemma PrintingNext(out: string, num: nat, d: nat, k: nat, number: nat, base: nat)
    requires d != 0 && Printing(out, num, d, k, number, base)
    ensures 0 <= num / d < base && 0 <= num % d && 0 <= d / base < d
    ensures |out| > 0 || num / d > 0 || d / base == 0
    ensures Printing(out + [DigitChar(num / d)], num % d, d / base, if k > 0 then k - 1 else 0, number, base)
  {
    QuotientDigit(num, d, base, ValueOf(out, base), number);
    PowQuotient(base, k);
    assert d == Pow(base, k);
    PrintingStep(out, num / d, num % d, d, d / base, k, number, base);
  }

  /** The divisor loops of %u (base 10) and %x (base 16): no step leaves 32 bits. */
  method PrintUnsigned(number: Word, base: nat) returns (out: string)
    requires IsBase(base)
    ensures out == Numeral(number, base)
  {
    var d: Word, k: nat := TopDivisor(number, base);
    var num: Word := number;
    out := "";
    while d != 0
      invariant Printing(out, num, d, k, number, base)
      decreases d
    {
      PrintingNext(out, num, d, k, number, base);
      var digit := num / d;
      num := num % d;
      d := d / base;
      k := if k > 0 then k - 1 else 0;
      if |out| > 0 || digit > 0 || d == 0 {
        out := out + [DigitChar(digit)];
      }
    }
    CanonicalIsUnique(out, Numeral(number, base), base);
  }

  /** The first loop: the largest power of the base not above the number, or one. */
  method TopDivisor(number: Word, base: nat) returns (d: Word, ghost k: nat)
    requires IsBase(base)
    ensures Printing("", number, d, k, number, base) && d != 0
  {
    d, k := 1, 0;
    while number / d >= base
      invariant d == Pow(base, k) && (k > 0 ==> d <= number)
      decreases number - d
    {
      DivBound(number, d, base);
      d, k := d * base, k + 1;
    }
    TopDigitBound(number, d, base);
  }

  lemma DivBound(num: nat, d: nat, base: nat)
    requires d > 0 && num / d >= base > 1
    ensures d < d * base <= num
  {
    assert num == d * (num / d) + num % d;
    assert d * (num / d) >= d * base;
    assert d * base >= d * 2;
  }

  lemma TopDigitBound(num: nat, d: nat, base: nat)
    requires d > 0 && num / d < base
    ensures num < d * base
  {
    assert num == d * (num / d) + num % d;
    assert d * (num / d) <= d * (base - 1);
    assert d * (base - 1) == d * base - d;
  }

  lemma PowQuotient(base: nat, k: nat)
    requires IsBase(base)
    ensures k > 0 ==> Pow(base, k) / base == Pow(base, k - 1)
    ensures k == 0 ==> Pow(base, k) / base == 0
  {
    if k > 0 {
      RemainderAt(0, Pow(base, k - 1), base);
    }
  }

  lemma QuotientDigit(num: nat, d: nat, base: nat, value: nat, number: nat)
    requires d > 0 && num < d * base && value * (d * base) + num == number
    ensures 0 <= num / d < base && 0 <= num % d < d
    ensures (value * base + num / d) * d + num % d == number
    ensures d <= num ==> num / d > 0
  {
    var q, r := num / d, num % d;
    assert num == d * q + r;
    assert q >= base ==> d * q >= d * base;
    assert (value * base + q) * d == value * (d * base) + d * q;
    assert d <= num && q <= 0 ==> d * q <= 0;
  }

  /** Two's complement negation of a 32-bit int, which maps the least int to itself. */
  function Negate(num: Int32): Int32 {
    if num == -0x8000_0000 then num else -num
  }

  function AsUnsigned(num: Int32): Word {
    if num < 0 then num + 0x1_0000_0000 else num
  }

  function SignedNumeral(num: int): string {
    if num < 0 then "-" + Numeral(-num, 10) else Numeral(num, 10)
  }

  /** %d: a minus sign, then the divisor loop on the negated argument read as unsigned. */
  method PrintSigned(number: Int32) returns (out: string)
    ensures out == SignedNumeral(number)
  {
    var num, sign := number, "";
    if num < 0 {
      num := Negate(num);
      sign := "-";
    }
    var digits := PrintUnsigned(AsUnsigned(num), 10);
    out := sign + digits;
  }

  predicate IsSpace(c: char) { c == ' ' || 9 <= c as int <= 13 }

  /** The digits a text starts with. */
  function LeadingDigits(s: string): (t: string)
    ensures IsNumeral(t, 10) && t <= s
    ensures |t| < |s| ==> !IsDigit(s[|t|], 10)
  {
    if s != "" && IsDigit(s[0], 10) then [s[0]] + LeadingDigits(s[1..]) else ""
  }

  /** C's atoi, on unbounded integers (C leaves a result outside int undefined). */
  function Atoi(s: string): int {
    if s == "" then 0
    else if IsSpace(s[0]) then Atoi(s[1..])
    else if s[0] == '-' then 0 - ValueOf(LeadingDigits(s[1..]), 10)
    else if s[0] == '+' then ValueOf(LeadingDigits(s[1..]), 10)
    else ValueOf(LeadingDigits(s), 10)
  }

  lemma {:induction false} LeadingDigitsOfNumeral(t: string, rest: string)
    requires IsNumeral(t, 10)
    requires rest == "" || !IsDigit(rest[0], 10)
    ensures LeadingDigits(t + rest) == t
  {
    if t == "" {
      assert t + rest == rest;
    } else {
      assert (t + rest)[1..] == t[1..] + rest;
      LeadingDigitsOfNumeral(t[1..], rest);
    }
  }

  lemma AtoiUnsigned(s: string)
    requires s != "" && IsDigit(s[0], 10)
    ensures Atoi(s) == ValueOf(LeadingDigits(s), 10)
  {
    assert !IsSpace(s[0]) && s[0] != '-' && s[0] != '+';
  }

  lemma AtoiNegative(m: string, s: string)
    requires m == "-" + s
    ensures Atoi(m) == 0 - ValueOf(LeadingDigits(s), 10)
  {
    assert m[0] == '-' && m[1..] == s;
  }

  /** White space in front is skipped, and a plus sign changes nothing. */
  lemma AtoiSkips(c: char, s: string)
    requires c in [' ', '\t', '\n', '\r', '\U{000B}', '\U{000C}']
    ensures Atoi([c] + s) == Atoi(s)
    ensures s != "" && IsDigit(s[0], 10) ==> Atoi("+" + s) == Atoi(s)
  {
    assert ([c] + s)[1..] == s && ("+" + s)[1..] == s;
    if s != "" && IsDigit(s[0], 10) {
      AtoiUnsigned(s);
    }
  }

  lemma AtoiOfDigits(t: string, rest: string)
    requires IsNumeral(t, 10) && t != ""
    requires rest == "" || !IsDigit(rest[0], 10)
    ensures Atoi(t + rest) == ValueOf(t, 10)
    ensures Atoi("-" + t + rest) == 0 - ValueOf(t, 10)
  {
    var s := t + rest;
    LeadingDigitsOfNumeral(t, rest);
    assert s[0] == t[0] && IsDigit(t[0], 10);
    AtoiUnsigned(s);
    assert "-" + t + rest == "-" + s;
    AtoiNegative("-" + s, s);
  }

  /** What %d or %u prints, atoi reads back, whatever non-digit follows. */
  lemma AtoiReadsBack(num: int, rest: string)
    requires rest == "" || !IsDigit(rest[0], 10)
    ensures Atoi(SignedNumeral(num) + rest) == num
  {
    AtoiOfDigits(Numeral(if num < 0 then -num else num, 10), rest);
  }
}
