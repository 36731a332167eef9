/** Printing and reading numbers: printnum in lib/printfmt.c and strtol in lib/string.c. */
module Numbers {

  const DIGITS: string := "0123456789abcdef"
  const LONG_MAX: nat := 0x7FFF_FFFF

  function Digits(n: nat, base: nat): string
    requires 2 <= base <= 16
  {
    if n < base then [DIGITS[n]] else Digits(n / base, base) + [DIGITS[n % base]]
  }

  function Max(a: int, b: int): int { if a < b then b else a }

  function Repeat(c: char, n: int): string {
    seq(Max(n, 0), _ => c)
  }

  /** A number with its digits, padded on the left to a width. */
  function Printed(n: nat, base: nat, width: int, padc: char): string
    requires 2 <= base <= 16
  {
    Repeat(padc, width - |Digits(n, base)|) + Digits(n, base)
  }

  /** Whatever putch writes to. */
  class Console {
    var out: string

    method Putch(c: char)
      modifies this
      ensures out == old(out) + [c]
    {
      out := out + [c];
    }

    /** The padding loop of printnum. */
    method Pad(width: int, padc: char)
      modifies this
      ensures out == old(out) + Repeat(padc, width - 1)
    {
      var w := width - 1;
      while w > 0
        invariant w <= Max(width - 1, 0) || w == width - 1
        invariant out == old(out) + Repeat(padc, width - 1 - Max(w, 0))
      {
        Putch(padc);
        w := w - 1;
      }
    }

    /** printnum: the more significant digits first, and before the first of them the padding. */
    method PrintNum(num: nat, base: nat, width: int, padc: char)
      requires 2 <= base <= 16
      modifies this
      ensures out == old(out) + Printed(num, base, width, padc)
      decreases num
    {
      hide Repeat;
      Quotient(num, base);
      if num >= base {
        PrintNum(num / base, base, width - 1, padc);
      } else {
        Pad(width, padc);
      }
      Putch(DIGITS[num % base]);
      assert Digits(num, base) == if num < base then [DIGITS[num % base]] else Digits(num / base, base) + [DIGITS[num % base]];
    }
  }

  lemma Quotient(n: nat, base: nat)
    requires base >= 2
    ensures n == n / base * base + n % base && n % base < base && (n >= base ==> n / base < n) && (n < base ==> n % base == n)
  {
  }

  // Reading

  /** The digit value of a character, as strtol sees it; 36 for any other. */
  function DigitOf(c: char): nat {
    if '0' <= c <= '9' then c as nat - '0' as nat
    else if 'a' <= c <= 'z' then c as nat - 'a' as nat + 10
    else if 'A' <= c <= 'Z' then c as nat - 'A' as nat + 10
    else 36
  }

  /** A C string: the terminator follows the last character. */
  function CharAt(s: string, i: nat): char {
    if i < |s| then s[i] else '\0'
  }

  /** The first position from i on that is not a blank. */
  function SkipBlanks(s: string, i: nat): (j: nat)
    requires i <= |s|
    ensures i <= j <= |s|
    decreases |s| - i
  {
    if CharAt(s, i) == ' ' || CharAt(s, i) == '\t' then SkipBlanks(s, i + 1) else i
  }

  function SkipSign(s: string, i: nat): nat
    requires i <= |s|
  {
    if CharAt(s, i) == '+' || CharAt(s, i) == '-' then i + 1 else i
  }

  function RealBase(s: string, i: nat, base: nat): nat {
    if base != 0 then base
    else if CharAt(s, i) == '0' && CharAt(s, i + 1) == 'x' then 16
    else if CharAt(s, i) == '0' then 8 else 10
  }

  function SkipPrefix(s: string, i: nat, base: nat): nat {
    if (base == 0 || base == 16) && CharAt(s, i) == '0' && CharAt(s, i + 1) == 'x' then i + 2
    else if base == 0 && CharAt(s, i) == '0' then i + 1
    else i
  }

  /** Where the digits of s start. */
  function Start(s: string, base: nat): (i: nat)
    ensures i <= |s|
  {
    SkipPrefix(s, SkipSign(s, SkipBlanks(s, 0)), base)
  }

  /** The value of a string of digits. */
  function Value(s: string, base: nat): nat
    decreases |s|
  {
    if s == [] then 0 else Value(s[..|s| - 1], base) * base + DigitOf(s[|s| - 1])
  }

  ghost predicate AllDigits(s: string, base: nat) {
    forall i: nat :: i < |s| ==> DigitOf(s[i]) < base
  }

  /** The digit loop of strtol: the longest run of digits from start on, and its value. */
  method ReadDigits(s: string, start: nat, base: nat) returns (val: nat, end: nat)
    requires '\0' !in s && start <= |s| && base <= 36
    ensures start <= end <= |s| && AllDigits(s[start..end], base) && (end < |s| ==> DigitOf(s[end]) >= base)
    ensures val == Value(s[start..end], base)
  {
    hide DigitOf;
    end, val := start, 0;
    EndIsNoDigit();
    while true
      invariant start <= end <= |s| && AllDigits(s[start..end], base) && val == Value(s[start..end], base)
      decreases |s| - end
    {
      var dig := DigitOf(CharAt(s, end));
      if dig >= base {
        break;
      }
      OneMore(s, start, end, base);
      end, val := end + 1, val * base + dig;
    }
  }

  lemma EndIsNoDigit()
    ensures DigitOf('\0') == 36
  {
  }

  lemma OneMore(s: string, start: nat, end: nat, base: nat)
    requires start <= end < |s|
    ensures Value(s[start..end + 1], base) == Value(s[start..end], base) * base + DigitOf(s[end])
    ensures AllDigits(s[start..end], base) && DigitOf(s[end]) < base ==> AllDigits(s[start..end + 1], base)
  {
    hide DigitOf, Value, AllDigits;
    assert s[start..end + 1] == s[start..end] + [s[end]];
    LastDigit(s[start..end], s[end], base);
  }

  /** strtol: after blanks, a sign and a prefix, the longest run of digits and its value. */
  method StrToL(s: string, base: nat) returns (val: int, end: nat)
    requires '\0' !in s && base <= 36
    ensures var i := SkipBlanks(s, 0);
            var start := Start(s, base);
            var b := RealBase(s, SkipSign(s, i), base);
            && start <= end <= |s| && AllDigits(s[start..end], b) && (end < |s| ==> DigitOf(s[end]) >= b)
            && val == (if CharAt(s, i) == '-' then -1 else 1) * Value(s[start..end], b)
  {
    hide AllDigits, Value, DigitOf;
    var p := 0;
    while CharAt(s, p) == ' ' || CharAt(s, p) == '\t'
      invariant p <= |s| && SkipBlanks(s, p) == SkipBlanks(s, 0)
      decreases |s| - p
    {
      p := p + 1;
    }
    var neg := false;
    if CharAt(s, p) == '+' {
      p := p + 1;
    } else if CharAt(s, p) == '-' {
      p, neg := p + 1, true;
    }
    var b := base;
    if (b == 0 || b == 16) && CharAt(s, p) == '0' && CharAt(s, p + 1) == 'x' {
      p, b := p + 2, 16;
    } else if b == 0 && CharAt(s, p) == '0' {
      p, b := p + 1, 8;
    } else if b == 0 {
      b := 10;
    }
    val, end := ReadDigits(s, p, b);
    if neg {
      val := -val;
    }
  }

  // Printing, then reading

  lemma {:induction false} DigitsGood(n: nat, base: nat)
    requires 2 <= base <= 16
    ensures AllDigits(Digits(n, base), base) && |Digits(n, base)| > 0 && Value(Digits(n, base), base) == n
  {
    hide DigitOf;
    Quotient(n, base);
    DigitRange(n % base);
    var d := Digits(n, base);
    if n < base {
      assert d == [DIGITS[n]] && d[..0] == [];
    } else {
      DigitsGood(n / base, base);
      LastDigit(Digits(n / base, base), DIGITS[n % base], base);
    }
  }

  lemma LastDigit(s: string, c: char, base: nat)
    ensures Value(s + [c], base) == Value(s, base) * base + DigitOf(c)
    ensures AllDigits(s, base) && DigitOf(c) < base ==> AllDigits(s + [c], base)
  {
    hide DigitOf;
    assert (s + [c])[..|s|] == s;
  }

  lemma DigitRange(d: nat)
    requires d < 16
    ensures DigitOf(DIGITS[d]) == d && Plain(DIGITS[d])
  {
  }

  /** Neither blank, sign, prefix letter nor terminator. */
  predicate Plain(c: char) {
    c != ' ' && c != '\t' && c != '+' && c != '-' && c != 'x' && c != '\0'
  }

  lemma {:induction false} DigitsPlain(n: nat, base: nat, i: nat)
    requires 2 <= base <= 16 && i < |Digits(n, base)|
    ensures Plain(Digits(n, base)[i])
  {
    hide Plain;
    Quotient(n, base);
    DigitRange(n % base);
    if n >= base && i < |Digits(n / base, base)| {
      DigitsPlain(n / base, base, i);
    }
  }

  /** The output is as long as the larger of the width and the number of digits. */
  lemma PrintedLength(n: nat, base: nat, width: int, padc: char)
    requires 2 <= base <= 16
    ensures |Printed(n, base, width, padc)| == Max(width, |Digits(n, base)|)
  {
  }

  lemma {:induction false} SkipPadding(s: string, i: nat, k: nat)
    requires i <= k <= |s| && (forall j: nat :: i <= j < k ==> s[j] == ' ') && (k < |s| ==> s[k] != ' ' && s[k] != '\t')
    ensures SkipBlanks(s, i) == k
    decreases k - i
  {
    if i < k {
      SkipPadding(s, i + 1, k);
    }
  }

  lemma {:induction false} LeadingZeros(k: nat, s: string, base: nat)
    requires base >= 1
    ensures Value(seq(k, _ => '0') + s, base) == Value(s, base)
    ensures AllDigits(s, base) ==> AllDigits(seq(k, _ => '0') + s, base)
    decreases |s|, k
  {
    hide DigitOf;
    ZeroDigit();
    var z := seq(k, _ => '0');
    if s != [] {
      var front := s[..|s| - 1];
      LeadingZeros(k, front, base);
      assert (z + s)[..|z + s| - 1] == z + front;
    } else if k > 0 {
      LeadingZeros(k - 1, s, base);
      assert (z + s)[..k - 1] == seq(k - 1, _ => '0') + s;
    }
  }

  lemma ZeroDigit()
    ensures DigitOf('0') == 0
  {
  }

  /** What strtol meets in a printed number: blanks or zeros, then its digits to the end. */
  lemma PrintedReads(n: nat, base: nat, width: int, padc: char)
    requires (base == 8 || base == 10 || base == 16) && (padc == ' ' || padc == '0')
    ensures var s := Printed(n, base, width, padc);
            var i := SkipBlanks(s, 0);
            && '\0' !in s && CharAt(s, i) != '-' && Start(s, base) == i && RealBase(s, SkipSign(s, i), base) == base
            && AllDigits(s[i..], base) && Value(s[i..], base) == n
  {
    hide Value, AllDigits, DigitOf;
    var s, d := Printed(n, base, width, padc), Digits(n, base);
    var k := |s| - |d|;
    DigitsGood(n, base);
    forall i: nat | i < |s|
      ensures i < k ==> s[i] == padc
      ensures i >= k ==> Plain(s[i])
    {
      if i >= k {
        DigitsPlain(n, base, i - k);
        assert s[i] == d[i - k];
      }
    }
    if padc == ' ' {
      SkipPadding(s, 0, k);
      assert s[k..] == d;
    } else {
      SkipPadding(s, 0, 0);
      LeadingZeros(k, d, base);
      assert s[0..] == seq(k, _ => '0') + d;
    }
  }

  lemma AllOfIt(s: string, start: nat, end: nat, base: nat)
    requires start <= end <= |s| && AllDigits(s[start..], base) && (end < |s| ==> DigitOf(s[end]) >= base)
    ensures end == |s| && s[start..end] == s[start..]
  {
  }

  /** No value on the way exceeds the result, so a result that fits never overflows before. */
  lemma {:induction false} PartialValues(s: string, base: nat, k: nat)
    requires base >= 1 && k <= |s|
    ensures Value(s[..k], base) <= Value(s, base)
    decreases |s|
  {
    hide DigitOf;
    if k < |s| {
      var front := s[..|s| - 1];
      PartialValues(front, base, k);
      assert front[..k] == s[..k];
      assert Value(front, base) <= Value(front, base) * base;
    } else {
      assert s[..k] == s;
    }
  }

  /** strtol applied to what printnum printed. */
  method PrintThenRead(n: nat, base: nat, width: int, padc: char) returns (val: int, end: nat, text: string)
    requires n <= LONG_MAX && (base == 8 || base == 10 || base == 16) && (padc == ' ' || padc == '0')
    ensures val == n && end == |text| == Max(width, |Digits(n, base)|)
  {
    hide Repeat, Printed, Value, AllDigits, DigitOf, SkipBlanks;
    var console := new Console;
    console.out := [];
    console.PrintNum(n, base, width, padc);
    text := console.out;
    PrintedLength(n, base, width, padc);
    assert text == Printed(n, base, width, padc);
    PrintedReads(n, base, width, padc);
    val, end := StrToL(text, base);
    AllOfIt(text, Start(text, base), end, base);
  }

  // Signs, prefixes and capitals

  function Upper(c: char): char {
    if 'a' <= c <= 'f' then (c as nat - 'a' as nat + 'A' as nat) as char else c
  }

  function Capitals(s: string): string {
    seq(|s|, i requires 0 <= i < |s| => Upper(s[i]))
  }

  /** How a number is written for a base that strtol has to find out. */
  function Prefix(base: nat): string {
    if base == 16 then "0x" else if base == 8 then "0" else ""
  }

  lemma UpperDigit(d: nat)
    requires d < 16
    ensures DigitOf(Upper(DIGITS[d])) == d && Plain(Upper(DIGITS[d])) && (Upper(DIGITS[d]) == '0' <==> d == 0)
  {
  }

  /** Digits in capitals have the same value. */
  lemma {:induction false} CapitalsGood(n: nat, base: nat, i: nat)
    requires 2 <= base <= 16 && i < |Digits(n, base)|
    ensures var s := Capitals(Digits(n, base)); AllDigits(s, base) && Value(s, base) == n && Plain(s[i])
    ensures n > 0 ==> Capitals(Digits(n, base))[0] != '0'
    decreases n
  {
    hide DigitOf, Plain, Upper;
    Quotient(n, base);
    UpperDigit(n % base);
    var c := Upper(DIGITS[n % base]);
    if n < base {
      assert Capitals(Digits(n, base)) == [c] && [c][..0] == [];
    } else {
      var front := Digits(n / base, base);
      DigitsGood(n / base, base);
      CapitalsGood(n / base, base, if i < |front| then i else 0);
      assert Capitals(Digits(n, base)) == Capitals(front) + [c];
      LastDigit(Capitals(front), c, base);
    }
  }

  /** strtol with base 0 finds the sign and the base and returns the number, capitals or not. */
  method ReadWritten(n: nat, base: nat, negative: bool) returns (val: int, end: nat)
    requires base == 8 || base == 10 || base == 16
    requires base == 10 ==> n > 0
    ensures val == (if negative then -1 else 1) * n
    ensures end == |(if negative then "-" else "+") + Prefix(base) + Capitals(Digits(n, base))|
  {
    var sign := if negative then "-" else "+";
    var s := sign + Prefix(base) + Capitals(Digits(n, base));
    WrittenReads(sign, n, base);
    val, end := StrToL(s, 0);
    EndOfDigits(s, Start(s, 0), end, base);
  }

  lemma EndOfDigits(s: string, start: nat, end: nat, base: nat)
    requires start <= end <= |s| && AllDigits(s[start..], base) && (end < |s| ==> DigitOf(s[end]) >= base)
    ensures end == |s| && s[start..end] == s[start..]
  {
    hide DigitOf;
    forall i: nat | start <= i < |s|
      ensures DigitOf(s[i]) < base
    {
      assert s[start..][i - start] == s[i];
    }
  }

  lemma WrittenReads(sign: string, n: nat, base: nat)
    requires (sign == "-" || sign == "+") && (base == 8 || base == 10 || base == 16) && (base == 10 ==> n > 0)
    ensures var s := sign + Prefix(base) + Capitals(Digits(n, base));
            && '\0' !in s && SkipBlanks(s, 0) == 0 && CharAt(s, 0) == sign[0] && RealBase(s, SkipSign(s, 0), 0) == base
            && Start(s, 0) == 1 + |Prefix(base)| && AllDigits(s[Start(s, 0)..], base) && Value(s[Start(s, 0)..], base) == n
  {
    hide Value, AllDigits, DigitOf, Upper;
    var d := Capitals(Digits(n, base));
    var s := sign + Prefix(base) + d;
    DigitsGood(n, base);
    CapitalsGood(n, base, 0);
    forall i: nat | i < |d|
      ensures Plain(d[i])
    {
      CapitalsGood(n, base, i);
    }
    assert s[1 + |Prefix(base)|..] == d;
    forall i: nat | i < |s|
      ensures s[i] != '\0'
    {
      if i >= 1 + |Prefix(base)| {
        assert s[i] == d[i - 1 - |Prefix(base)|];
      }
    }
    if base == 8 {
      assert CharAt(s, 1) == '0' && (CharAt(s, 2) == d[0]);
    }
  }
}
