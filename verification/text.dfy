/** Decimal numerals, JavaScript's `split` / `join` on one separator character,
    `padStart(2, '0')` and the integer rounding the source gets from `Math.ceil`
    and `Math.floor`. Every numeral in the model goes through this module. */
module Text {

  predicate IsDigit(c: char) {
    '0' <= c <= '9'
  }

  /** Every character is a decimal digit (the empty string included). */
  predicate AllDigits(s: string) {
    forall i :: 0 <= i < |s| ==> IsDigit(s[i])
  }

  /** A non-empty run of decimal digits. */
  predicate IsDigits(s: string) {
    |s| > 0 && AllDigits(s)
  }

  /** The numeral `Number.prototype.toString` produces: no leading zero except "0" itself. */
  predicate IsCanonical(s: string) {
    IsDigits(s) && (s[0] == '0' ==> |s| == 1)
  }

  function DigitValue(c: char): (d: nat)
    requires IsDigit(c)
    ensures d < 10
  {
    c as int - '0' as int
  }

  function DigitChar(d: nat): (c: char)
    requires d < 10
    ensures IsDigit(c) && DigitValue(c) == d
  {
    ('0' as int + d) as char
  }

  /** The value of a decimal numeral (`Number(s)` on a string of digits). */
  function DigitsToNat(s: string): nat
    requires AllDigits(s)
  {
    if |s| == 0 then 0 else DigitsToNat(s[..|s| - 1]) * 10 + DigitValue(s[|s| - 1])
  }

  /** The decimal numeral of `n` (`n.toString()` for a non-negative integer). */
  function NatToString(n: nat): (r: string)
    ensures IsCanonical(r)
    ensures r[0] == '0' <==> n == 0
  {
    if n < 10 then [DigitChar(n)] else NatToString(n / 10) + [DigitChar(n % 10)]
  }

  /** `n.toString()` for any integer. */
  function IntToString(n: int): (r: string)
    ensures n >= 0 ==> r == NatToString(n) && DigitsToNat(r) == n
    ensures n < 0 ==> |r| >= 2 && r[0] == '-' && IsCanonical(r[1..]) && DigitsToNat(r[1..]) == -n
  {
    NatStringRoundTrip(if n < 0 then -n else n);
    if n < 0 then "-" + NatToString(-n) else NatToString(n)
  }

  lemma DigitsToNatSnoc(s: string, c: char)
    requires AllDigits(s) && IsDigit(c)
    ensures AllDigits(s + [c])
    ensures DigitsToNat(s + [c]) == DigitsToNat(s) * 10 + DigitValue(c)
  {
    assert (s + [c])[..|s|] == s;
  }

  /** Printing a number and reading it back gives the number. */
  lemma {:induction false} NatStringRoundTrip(n: nat)
    ensures DigitsToNat(NatToString(n)) == n
  {
    if n >= 10 {
      NatStringRoundTrip(n / 10);
      DigitsToNatSnoc(NatToString(n / 10), DigitChar(n % 10));
    }
  }

  lemma {:induction false} LeadingDigitPositive(s: string)
    requires IsDigits(s) && s[0] != '0'
    ensures DigitsToNat(s) >= 1
  {
    if |s| > 1 {
      LeadingDigitPositive(s[..|s| - 1]);
    }
  }

  /** Reading a canonical numeral and printing the value gives the numeral back. */
  lemma {:induction false} CanonicalRoundTrip(s: string)
    requires IsCanonical(s)
    ensures NatToString(DigitsToNat(s)) == s
  {
    if |s| > 1 {
      var init := s[..|s| - 1];
      assert init[0] == s[0];
      LeadingDigitPositive(init);
      CanonicalRoundTrip(init);
      var n := DigitsToNat(s);
      assert n / 10 == DigitsToNat(init) && n % 10 == DigitValue(s[|s| - 1]);
      assert s == init + [s[|s| - 1]];
    }
  }

  /** `s.padStart(2, '0')`. */
  function PadStart2(s: string): (p: string)
    ensures |p| == if |s| >= 2 then |s| else 2
    ensures p[|p| - |s|..] == s
    ensures forall i :: 0 <= i < |p| - |s| ==> p[i] == '0'
  {
    if |s| >= 2 then s else if |s| == 1 then ['0'] + s else "00"
  }

  /** Below 100 the padded numeral is exactly two digits and still reads as `n`. */
  lemma Pad2Reads(n: nat)
    requires n < 100
    ensures var p := PadStart2(NatToString(n)); |p| == 2 && AllDigits(p) && DigitsToNat(p) == n
  {
    NatStringRoundTrip(n);
    if n < 10 {
      assert PadStart2(NatToString(n)) == ['0', DigitChar(n)];
      DigitsToNatSnoc(['0'], DigitChar(n));
      assert DigitsToNat(['0']) == 0;
    } else {
      assert NatToString(n) == [DigitChar(n / 10), DigitChar(n % 10)];
    }
  }

  /** `Math.ceil(a / b)` for a positive integer divisor. */
  function CeilDiv(a: int, b: int): (q: int)
    requires b > 0
    ensures b * (q - 1) < a <= b * q
  {
    -((-a) / b)
  }

  /** The number of occurrences of `c` in `s`. */
  function Count(s: string, c: char): nat
  {
    if |s| == 0 then 0 else (if s[0] == c then 1 else 0) + Count(s[1..], c)
  }

  /** `parts.join(sep)`. */
  function Join(parts: seq<string>, sep: char): string
    requires |parts| > 0
  {
    if |parts| == 1 then parts[0] else parts[0] + [sep] + Join(parts[1..], sep)
  }

  /** `s.split(sep)` for a one-character separator: one part more than there are
      separators, none of them containing the separator, and joining the parts
      back gives `s`. */
  function Split(s: string, sep: char): (parts: seq<string>)
    ensures |parts| == Count(s, sep) + 1
    ensures forall i :: 0 <= i < |parts| ==> sep !in parts[i]
    ensures Join(parts, sep) == s
  {
    if |s| == 0 then [""]
    else
      var rest := Split(s[1..], sep);
      if s[0] == sep then [""] + rest
      else
        assert Join(rest, sep) == s[1..];
        JoinCons(s[0], rest, sep);
        [[s[0]] + rest[0]] + rest[1..]
  }

  lemma JoinCons(c: char, parts: seq<string>, sep: char)
    requires |parts| > 0
    ensures Join([[c] + parts[0]] + parts[1..], sep) == [c] + Join(parts, sep)
  {
    var x := [[c] + parts[0]] + parts[1..];
    if |parts| > 1 {
      assert x[1..] == parts[1..];
    }
  }

  lemma {:induction false} SplitSeparated(p: string, t: string, sep: char)
    requires sep !in p
    ensures Split(p + [sep] + t, sep) == [p] + Split(t, sep)
  {
    if |p| > 0 {
      assert (p + [sep] + t)[1..] == p[1..] + [sep] + t;
      SplitSeparated(p[1..], t, sep);
      assert [p[0]] + p[1..] == p;
    } else {
      assert (p + [sep] + t)[1..] == t;
    }
  }

  lemma {:induction false} SplitNoSeparator(p: string, sep: char)
    requires sep !in p
    ensures Split(p, sep) == [p]
  {
    if |p| > 0 {
      SplitNoSeparator(p[1..], sep);
      assert [p[0]] + p[1..] == p;
    }
  }

  /** Splitting a join of separator-free parts recovers the parts. */
  lemma {:induction false} SplitJoin(parts: seq<string>, sep: char)
    requires |parts| > 0
    requires forall i :: 0 <= i < |parts| ==> sep !in parts[i]
    ensures Split(Join(parts, sep), sep) == parts
  {
    if |parts| == 1 {
      SplitNoSeparator(parts[0], sep);
    } else {
      SplitJoin(parts[1..], sep);
      SplitSeparated(parts[0], Join(parts[1..], sep), sep);
      assert [parts[0]] + parts[1..] == parts;
    }
  }
}
