/** Character classes and the string operations of QString that the Auto-Type
    compiler relies on. Strings are sequences of characters in the Basic
    Multilingual Plane, one character per QChar. */
module Text {

  // ---------------------------------------------------------------------
  // Character classes of the pattern
  // ---------------------------------------------------------------------

  /** The pattern's `\s`: blank, and the control characters from tab to carriage return. */
  predicate IsSpace(c: char) {
    c == ' ' || '\t' <= c <= '\r'
  }

  /** The pattern's `\d`. */
  predicate IsDigit(c: char) {
    '0' <= c <= '9'
  }

  /** The pattern's `[+%^#]`. */
  predicate IsModifier(c: char) {
    c == '+' || c == '%' || c == '^' || c == '#'
  }

  predicate IsBrace(c: char) {
    c == '{' || c == '}'
  }

  /** Length of the longest prefix of s whose characters all satisfy p. */
  function Span(s: string, p: char -> bool): (n: nat)
    ensures n <= |s|
    ensures forall i :: 0 <= i < n ==> p(s[i])
    ensures n < |s| ==> !p(s[n])
  {
    if s == [] || !p(s[0]) then 0 else 1 + Span(s[1..], p)
  }

  lemma Regroup<T>(a: seq<T>, b: seq<T>, c: seq<T>)
    ensures a + (b + c) == a + b + c
  {
  }

  // ---------------------------------------------------------------------
  // Searching
  // ---------------------------------------------------------------------

  predicate StartsWith(s: string, prefix: string) {
    prefix <= s
  }

  predicate EndsWith(s: string, suffix: string) {
    |suffix| <= |s| && s[|s| - |suffix|..] == suffix
  }

  /** The part of s after its first c, or the empty string if there is no c. */
  function AfterFirst(s: string, c: char): (r: string)
    ensures |r| <= |s|
  {
    if s == [] then [] else if s[0] == c then s[1..] else AfterFirst(s[1..], c)
  }

  function Count(s: string, c: char): (n: nat)
    ensures n <= |s|
  {
    if s == [] then 0 else (if s[0] == c then 1 else 0) + Count(s[1..], c)
  }

  lemma {:induction false} CountConcat(a: string, b: string, c: char)
    ensures Count(a + b, c) == Count(a, c) + Count(b, c)
  {
    if a == [] {
      assert a + b == b;
    } else {
      assert (a + b)[1..] == a[1..] + b;
      CountConcat(a[1..], b, c);
    }
  }

  ghost predicate OccursAt(s: string, pattern: string, i: int) {
    0 <= i && i + |pattern| <= |s| && s[i..i + |pattern|] == pattern
  }

  ghost predicate Occurs(s: string, pattern: string) {
    exists i :: OccursAt(s, pattern, i)
  }

  /** An occurrence is at the front or in the tail. */
  lemma OccursCons(s: string, pattern: string)
    requires |s| > 0 && |pattern| > 0
    ensures Occurs(s, pattern) <==> pattern <= s || Occurs(s[1..], pattern)
  {
    if pattern <= s {
      assert OccursAt(s, pattern, 0);
    }
    if Occurs(s[1..], pattern) {
      var i :| OccursAt(s[1..], pattern, i);
      assert s[1..][i..i + |pattern|] == s[i + 1..i + 1 + |pattern|];
      assert OccursAt(s, pattern, i + 1);
    }
    if Occurs(s, pattern) && !(pattern <= s) {
      var i :| OccursAt(s, pattern, i);
      assert i != 0;
      assert s[1..][i - 1..i - 1 + |pattern|] == s[i..i + |pattern|];
      assert OccursAt(s[1..], pattern, i - 1);
    }
  }

  // ---------------------------------------------------------------------
  // Replacement: one pass from the left, matches do not overlap
  // ---------------------------------------------------------------------

  function ReplaceAll(s: string, pattern: string, substitute: string): string
    requires |pattern| > 0
  {
    if |s| == 0 then []
    else if pattern <= s then substitute + ReplaceAll(s[|pattern|..], pattern, substitute)
    else [s[0]] + ReplaceAll(s[1..], pattern, substitute)
  }

  /** How many matches ReplaceAll rewrites. */
  function Matches(s: string, pattern: string): (n: nat)
    requires |pattern| > 0
    ensures n <= |s|
  {
    if |s| == 0 then 0
    else if pattern <= s then 1 + Matches(s[|pattern|..], pattern)
    else Matches(s[1..], pattern)
  }

  lemma {:induction false} ReplaceNothing(s: string, pattern: string, substitute: string)
    requires |pattern| > 0
    requires !Occurs(s, pattern)
    ensures ReplaceAll(s, pattern, substitute) == s
  {
    if |s| > 0 {
      OccursCons(s, pattern);
      ReplaceNothing(s[1..], pattern, substitute);
      assert s == [s[0]] + s[1..];
    }
  }

  // ---------------------------------------------------------------------
  // Case and numbers
  // ---------------------------------------------------------------------

  function LowerChar(c: char): char {
    if 'A' <= c <= 'Z' then c - 'A' + 'a' else c
  }

  function Lower(s: string): (r: string)
    ensures |r| == |s|
    ensures forall i :: 0 <= i < |s| ==> r[i] == LowerChar(s[i])
  {
    seq(|s|, i requires 0 <= i < |s| => LowerChar(s[i]))
  }

  const INT_MAX: int := 0x7fff_ffff
  const INT_MIN: int := -0x8000_0000

  function DigitValue(c: char): nat
    requires IsDigit(c)
  {
    c as int - '0' as int
  }

  /** The value of a digit string, read from the left. */
  function DigitsValue(s: string): nat
    requires forall i :: 0 <= i < |s| ==> IsDigit(s[i])
  {
    if s == [] then 0
    else 10 * DigitsValue(s[..|s| - 1]) + DigitValue(s[|s| - 1])
  }

  function Trim(s: string): (r: string)
    ensures |r| <= |s|
    decreases |s|
  {
    if s == [] then []
    else if IsSpace(s[0]) then Trim(s[1..])
    else if IsSpace(s[|s| - 1]) then Trim(s[..|s| - 1])
    else s
  }

  function Fitting(value: int): (r: int)
    ensures INT_MIN <= r <= INT_MAX
  {
    if INT_MIN <= value <= INT_MAX then value else 0
  }

  /** Digits with their sign; 0 if there are other characters or the value leaves 32 bits. */
  function SignedValue(digits: string, negative: bool): (r: int)
    ensures INT_MIN <= r <= INT_MAX
  {
    if digits == [] || Span(digits, IsDigit) < |digits| then 0
    else
      Fitting(if negative then 0 - DigitsValue(digits) else DigitsValue(digits))
  }

  function TrimmedToInt(t: string): (r: int)
    ensures INT_MIN <= r <= INT_MAX
  {
    if t != [] && (t[0] == '-' || t[0] == '+') then SignedValue(t[1..], t[0] == '-')
    else SignedValue(t, false)
  }

  /** QString::toInt() in base ten: surrounding white space and one sign are
      accepted; anything else, and any value outside 32 bits, yields 0. */
  function ToInt(s: string): (r: int)
    ensures INT_MIN <= r <= INT_MAX
  {
    TrimmedToInt(Trim(s))
  }

  /** QString::toInt() on a captured `\d+`: the decimal value, or 0 when it does not fit. */
  lemma ToIntOfDigits(s: string)
    requires s != [] && forall i :: 0 <= i < |s| ==> IsDigit(s[i])
    ensures ToInt(s) == if DigitsValue(s) <= INT_MAX then DigitsValue(s) else 0
  {
    assert !IsSpace(s[0]) && !IsSpace(s[|s| - 1]);
    assert Trim(s) == s;
  }

  /** A digit string of length at most two is worth at most 9 or 99. */
  lemma ShortDigits(s: string)
    requires s != [] && forall i :: 0 <= i < |s| ==> IsDigit(s[i])
    ensures |s| == 1 ==> DigitsValue(s) <= 9
    ensures |s| == 2 ==> DigitsValue(s) <= 99
  {
    if |s| == 1 {
      assert s[..0] == [];
    } else if |s| == 2 {
      var t := s[..1];
      assert t[..0] == [];
      assert t[0] == s[0];
    }
  }
}
