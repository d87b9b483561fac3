/** Numbers as they are written, against the numbers that the compiler reads. */
module Numerals {
  import opened Text

  /** A number in decimal, without leading zeros. */
  function Decimal(n: nat): (s: string)
    ensures s != []
  {
    if n < 10 then [Digit(n)] else Decimal(n / 10) + [Digit(n % 10)]
  }

  function Digit(d: nat): char
    requires d < 10
  {
    "0123456789"[d]
  }

  function Zeros(k: nat): string {
    seq(k, _ => '0')
  }

  ghost predicate AllDigits(s: string) {
    forall i :: 0 <= i < |s| ==> s[i] in "0123456789"
  }

  /** Blanks, and the characters from tab to carriage return. */
  ghost predicate AllSpaces(s: string) {
    forall i :: 0 <= i < |s| ==> s[i] == ' ' || 9 <= s[i] as int <= 13
  }

  lemma DigitIff(c: char)
    ensures IsDigit(c) <==> c in "0123456789"
  {
    if IsDigit(c) {
      assert "0123456789"[c as int - '0' as int] == c;
    }
  }

  lemma SpaceIff(c: char)
    ensures IsSpace(c) <==> c == ' ' || 9 <= c as int <= 13
  {
    assert '\t' as int == 9 && '\r' as int == 13;
  }

  lemma DigitIsDigit(d: nat)
    requires d < 10
    ensures IsDigit(Digit(d)) && DigitValue(Digit(d)) == d
  {
  }

  lemma DigitsAppend(s: string, c: char)
    requires IsDigit(c) && forall i :: 0 <= i < |s| ==> IsDigit(s[i])
    ensures forall i :: 0 <= i < |s + [c]| ==> IsDigit((s + [c])[i])
    ensures DigitsValue(s + [c]) == 10 * DigitsValue(s) + DigitValue(c)
  {
    assert (s + [c])[..|s|] == s;
  }

  lemma {:induction false} DecimalIsRead(n: nat)
    ensures forall i :: 0 <= i < |Decimal(n)| ==> IsDigit(Decimal(n)[i])
    ensures DigitsValue(Decimal(n)) == n
  {
    DigitIsDigit(n % 10);
    if n < 10 {
      assert [Digit(n)] == [] + [Digit(n)];
      DigitsAppend([], Digit(n));
    } else {
      DecimalIsRead(n / 10);
      DigitsAppend(Decimal(n / 10), Digit(n % 10));
    }
  }

  lemma {:induction false} ZerosAreDropped(k: nat, s: string)
    requires forall i :: 0 <= i < |s| ==> IsDigit(s[i])
    ensures forall i :: 0 <= i < |Zeros(k) + s| ==> IsDigit((Zeros(k) + s)[i])
    ensures DigitsValue(Zeros(k) + s) == DigitsValue(s)
    decreases |s|, k
  {
    var t := Zeros(k) + s;
    if s == [] {
      if k > 0 {
        assert t[..|t| - 1] == Zeros(k - 1) + [];
        ZerosAreDropped(k - 1, []);
      }
    } else {
      assert t[..|t| - 1] == Zeros(k) + s[..|s| - 1];
      ZerosAreDropped(k, s[..|s| - 1]);
    }
  }

  /** Every string of digits is a number in decimal behind some zeros. */
  lemma {:induction false} DigitsAreDecimal(s: string) returns (k: nat, n: nat)
    requires s != [] && forall i :: 0 <= i < |s| ==> IsDigit(s[i])
    ensures s == Zeros(k) + Decimal(n)
    decreases |s|
  {
    var last := |s| - 1;
    var d := DigitValue(s[last]);
    assert Digit(d) == s[last] && s == s[..last] + [s[last]];
    if last == 0 {
      k, n := 0, d;
    } else {
      var m: nat;
      k, m := DigitsAreDecimal(s[..last]);
      if m == 0 {
        assert Zeros(k) + [Digit(0)] + [Digit(d)] == Zeros(k + 1) + [Digit(d)];
        k, n := k + 1, d;
      } else {
        n := 10 * m + d;
        Regroup(Zeros(k), Decimal(m), [Digit(d)]);
        DecimalStep(m, d);
      }
    }
  }

  lemma DecimalStep(m: nat, d: nat)
    requires m > 0 && d < 10
    ensures Decimal(10 * m + d) == Decimal(m) + [Digit(d)]
  {
    assert (10 * m + d) / 10 == m && (10 * m + d) % 10 == d;
  }

  // ---------------------------------------------------------------------
  // What QString::toInt reads
  // ---------------------------------------------------------------------

  /** A number with a sign, leading zeros, and white space around it. */
  function Numeral(before: string, sign: string, zeros: nat, n: nat, after: string): string {
    before + (sign + (Zeros(zeros) + Decimal(n)) + after)
  }

  lemma {:induction false} TrimBefore(before: string, core: string)
    requires AllSpaces(before)
    ensures Trim(before + core) == Trim(core)
  {
    if before == [] {
      assert before + core == core;
    } else {
      SpaceIff(before[0]);
      assert (before + core)[1..] == before[1..] + core;
      TrimBefore(before[1..], core);
    }
  }

  lemma {:induction false} TrimAfter(core: string, after: string)
    requires AllSpaces(after) && core != [] && !IsSpace(core[0]) && !IsSpace(core[|core| - 1])
    ensures Trim(core + after) == core
  {
    if after == [] {
      assert core + after == core;
    } else {
      var s := core + after;
      SpaceIff(after[|after| - 1]);
      assert s[..|s| - 1] == core + after[..|after| - 1];
      TrimAfter(core, after[..|after| - 1]);
    }
  }

  lemma SpanAll(s: string)
    requires forall i :: 0 <= i < |s| ==> IsDigit(s[i])
    ensures Span(s, IsDigit) == |s|
  {
  }

  function InRange(value: int): int {
    if -0x8000_0000 <= value <= 0x7fff_ffff then value else 0
  }

  lemma FittingIsInRange(value: int)
    ensures Fitting(value) == InRange(value)
  {
  }

  lemma DigitsAreRead(digits: string, negative: bool)
    requires digits != [] && forall i :: 0 <= i < |digits| ==> IsDigit(digits[i])
    ensures SignedValue(digits, negative)
         == InRange(if negative then 0 - DigitsValue(digits) else DigitsValue(digits))
  {
    SpanAll(digits);
    FittingIsInRange(if negative then 0 - DigitsValue(digits) else DigitsValue(digits));
  }

  lemma SignedIsRead(sign: string, digits: string)
    requires sign == "" || sign == "+" || sign == "-"
    requires digits != [] && forall i :: 0 <= i < |digits| ==> IsDigit(digits[i])
    ensures TrimmedToInt(sign + digits)
         == InRange(if sign == "-" then 0 - DigitsValue(digits) else DigitsValue(digits))
  {
    DigitsAreRead(digits, sign == "-");
    if sign == "" {
      assert sign + digits == digits;
    } else {
      assert (sign + digits)[1..] == digits;
    }
  }

  /** toInt reads a numeral as its value, and as 0 if that does not fit 32 bits. */
  lemma NumeralIsRead(before: string, sign: string, zeros: nat, n: nat, after: string)
    requires AllSpaces(before) && AllSpaces(after)
    requires sign == "" || sign == "+" || sign == "-"
    ensures ToInt(Numeral(before, sign, zeros, n, after))
         == if sign == "-" then (if n <= 0x8000_0000 then 0 - n else 0)
            else if n <= 0x7fff_ffff then n else 0
  {
    DecimalIsRead(n);
    ZerosAreDropped(zeros, Decimal(n));
    var digits := Zeros(zeros) + Decimal(n);
    var core := sign + digits;
    CoreIsTrimmed(sign, digits);
    TrimBefore(before, core + after);
    TrimAfter(core, after);
    SignedIsRead(sign, digits);
  }

  lemma CoreIsTrimmed(sign: string, digits: string)
    requires sign == "" || sign == "+" || sign == "-"
    requires digits != [] && forall i :: 0 <= i < |digits| ==> IsDigit(digits[i])
    ensures !IsSpace((sign + digits)[0]) && !IsSpace((sign + digits)[|sign + digits| - 1])
  {
  }

  lemma {:induction false} TrimSplits(s: string) returns (before: string, after: string)
    ensures s == before + (Trim(s) + after) && AllSpaces(before) && AllSpaces(after)
    decreases |s|
  {
    before, after := [], [];
    if s == [] {
    } else if IsSpace(s[0]) {
      SpaceIff(s[0]);
      before, after := TrimSplits(s[1..]);
      assert s == [s[0]] + s[1..];
      before := [s[0]] + before;
    } else if IsSpace(s[|s| - 1]) {
      SpaceIff(s[|s| - 1]);
      before, after := TrimSplits(s[..|s| - 1]);
      assert s == s[..|s| - 1] + [s[|s| - 1]];
      after := after + [s[|s| - 1]];
    }
  }

  /** Whatever is read as a number other than 0 is a numeral. */
  lemma OnlyNumeralsAreRead(s: string)
    returns (before: string, sign: string, zeros: nat, n: nat, after: string)
    requires ToInt(s) != 0
    ensures AllSpaces(before) && AllSpaces(after) && (sign == "" || sign == "+" || sign == "-")
    ensures s == Numeral(before, sign, zeros, n, after)
  {
    before, after := TrimSplits(s);
    var t := Trim(s);
    sign := if t != [] && (t[0] == '-' || t[0] == '+') then [t[0]] else [];
    var digits := t[|sign|..];
    assert t == sign + digits;
    zeros, n := DigitsAreDecimal(digits);
  }
}
