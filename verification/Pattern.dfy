/** The one regular expression of the Auto-Type compiler,

        ([+%^#]*)(?:({((?>[^{}]+?|(?2))+?)(?:\s+(\d+))?})|(.))

    written out as a recursive scanner. The scanner works on the text that is
    still to be matched; a result is the number of characters matched. */
module Pattern {
  import opened Text

  /** The captured groups of one match. */
  datatype Match =
    | Placeholder(modifiers: string, full: string, inner: string, repeat: string)
    | Character(modifiers: string, character: char)
  {
    function Text(): (t: string)
      ensures |modifiers| <= |t|
    {
      match this
      case Placeholder(m, full, _, _) => m + full
      case Character(m, c) => m + [c]
    }
  }

  // ---------------------------------------------------------------------
  // The brace group (group 2), which calls itself for nested groups
  // ---------------------------------------------------------------------

  /** How much of `(?:\s+(\d+))?}` has been read. */
  datatype TailState = Start | InSpaces | InDigits

  function TailFrom(s: string, state: TailState): (n: nat)
    ensures n <= |s|
    ensures n > 0 ==> s[n - 1] == '}'
  {
    if s == [] then 0
    else if s[0] == '}' then
      if state.InSpaces? then 0 else 1
    else if (IsSpace(s[0]) && !state.InDigits?) || (IsDigit(s[0]) && !state.Start?) then
      var n := TailFrom(s[1..], if IsSpace(s[0]) then InSpaces else InDigits);
      if n == 0 then 0 else n + 1
    else 0
  }

  /** `(?:\s+(\d+))?}`: how long its match at the front of s is; 0 if there is none. */
  function Tail(s: string): (n: nat)
    ensures n <= |s|
    ensures n > 0 ==> s[n - 1] == '}'
  {
    TailFrom(s, Start)
  }

  datatype Split = NoSplit | Split(inner: nat, tail: nat)

  /** The rest of a brace group after some of its items: as few further items as
      leave a tail behind them. At least one item is taken when none was yet. */
  function Body(s: string, empty: bool): (r: Split)
    ensures r.Split? ==> r.inner + r.tail <= |s| && r.tail > 0
    ensures r.Split? && empty ==> r.inner > 0
    decreases |s|, 2
  {
    if !empty && Tail(s) > 0 then Split(0, Tail(s))
    else
      var k := Item(s);
      if k == 0 then NoSplit
      else
        match Body(s[k..], false)
        case NoSplit => NoSplit
        case Split(inner, tail) => Split(k + inner, tail)
  }

  /** `(?>[^{}]+?|(?2))`: one character that is no brace, or one nested group. */
  function Item(s: string): (n: nat)
    ensures n <= |s|
    decreases |s|, 1
  {
    if s == [] || s[0] == '}' then 0
    else if s[0] == '{' then Group(s)
    else 1
  }

  /** Group 2 at the front of s; 0 if it does not match there. */
  function Group(s: string): (n: nat)
    ensures n <= |s|
    decreases |s|, 0
  {
    if s == [] || s[0] != '{' then 0
    else
      match Body(s[1..], true)
      case NoSplit => 0
      case Split(inner, tail) => 1 + inner + tail
  }

  /** Group 4 of a tail: the digits behind its white space. */
  function RepeatOf(tail: string): string {
    var digits := tail[Span(tail, IsSpace)..];
    digits[..Span(digits, IsDigit)]
  }

  // ---------------------------------------------------------------------
  // One match, and all matches
  // ---------------------------------------------------------------------

  datatype Found = NoMatch | Found(m: Match)

  /** The captures of a brace group at the front of rest. */
  function Capture(modifiers: string, rest: string): (m: Match)
    requires Group(rest) > 0
    ensures m.Placeholder? && m.modifiers == modifiers && m.full == rest[..Group(rest)]
  {
    var body := rest[1..];
    var split := Body(body, true);
    Placeholder(modifiers, rest[..1 + split.inner + split.tail],
                body[..split.inner], RepeatOf(body[split.inner..split.inner + split.tail]))
  }

  /** The match that starts at the front of s. Modifiers are taken greedily and
      the last one is given back when nothing can follow it. */
  function MatchAt(s: string): (r: Found)
    ensures r.Found? ==> 0 < |r.m.Text()| <= |s| && s[..|r.m.Text()|] == r.m.Text()
  {
    var m := Span(s, IsModifier);
    var rest := s[m..];
    if Group(rest) > 0 then
      assert s[..m] + rest[..Group(rest)] == s[..m + Group(rest)];
      Found(Capture(s[..m], rest))
    else if rest != [] && rest[0] != '\n' then
      assert s[..m] + [rest[0]] == s[..m + 1];
      Found(Character(s[..m], rest[0]))
    else if m > 0 then
      assert s[..m - 1] + [s[m - 1]] == s[..m];
      Found(Character(s[..m - 1], s[m - 1]))
    else NoMatch
  }

  /** QRegularExpression::globalMatch: the next match starts where the last one
      ended; a position without a match is passed over. */
  function Scan(s: string): seq<Match>
    decreases |s|
  {
    if s == [] then []
    else
      match MatchAt(s)
      case NoMatch => Scan(s[1..])
      case Found(m) => [m] + Scan(s[|m.Text()|..])
  }

  /** Nothing matches at a position exactly when a line break stands there (or the text ends). */
  lemma NoMatchIsNewline(s: string)
    ensures MatchAt(s).NoMatch? <==> s == [] || s[0] == '\n'
  {
    if s != [] && s[0] == '\n' {
      assert Span(s, IsModifier) == 0;
    }
  }

  function Texts(ms: seq<Match>): string {
    if ms == [] then [] else ms[0].Text() + Texts(ms[1..])
  }

  /** The text made of the matches with the skipped stretches between them. */
  function Interleave(gaps: seq<string>, ms: seq<Match>): string
    requires |gaps| == |ms| + 1
  {
    if ms == [] then gaps[0] else gaps[0] + ms[0].Text() + Interleave(gaps[1..], ms[1..])
  }

  ghost predicate AllNewlines(s: string) {
    forall i :: 0 <= i < |s| ==> s[i] == '\n'
  }

  /** The text is the matches in order, with nothing but line breaks around them. */
  ghost predicate Covers(gaps: seq<string>, ms: seq<Match>, s: string) {
    && |gaps| == |ms| + 1
    && (forall i :: 0 <= i < |gaps| ==> AllNewlines(gaps[i]))
    && Interleave(gaps, ms) == s
  }

  lemma CoverSkip(gaps: seq<string>, ms: seq<Match>, s: string)
    requires s != [] && s[0] == '\n'
    requires Covers(gaps, ms, s[1..])
    ensures Covers([[s[0]] + gaps[0]] + gaps[1..], ms, s)
  {
    var front := [[s[0]] + gaps[0]] + gaps[1..];
    assert s == [s[0]] + s[1..];
    if ms != [] {
      var rest := Interleave(gaps[1..], ms[1..]);
      assert front[1..] == gaps[1..];
      assert ([s[0]] + gaps[0]) + ms[0].Text() + rest == [s[0]] + (gaps[0] + ms[0].Text() + rest);
    }
  }

  lemma CoverMatch(m: Match, gaps: seq<string>, ms: seq<Match>, s: string)
    requires m.Text() <= s
    requires Covers(gaps, ms, s[|m.Text()|..])
    ensures Covers([[]] + gaps, [m] + ms, s)
  {
    assert ([[]] + gaps)[1..] == gaps && ([m] + ms)[1..] == ms;
    assert s == m.Text() + s[|m.Text()|..];
    assert [] + m.Text() + s[|m.Text()|..] == s;
  }

  /** The matches cover the whole text, in order and without overlap: all that lies
      between them is line breaks. */
  lemma {:induction false} ScanCovers(s: string) returns (gaps: seq<string>)
    ensures Covers(gaps, Scan(s), s)
    decreases |s|
  {
    if s == [] {
      gaps := [[]];
    } else if MatchAt(s).NoMatch? {
      NoMatchIsNewline(s);
      var later := ScanCovers(s[1..]);
      gaps := [[s[0]] + later[0]] + later[1..];
      CoverSkip(later, Scan(s[1..]), s);
    } else {
      var m := MatchAt(s).m;
      var later := ScanCovers(s[|m.Text()|..]);
      gaps := [[]] + later;
      CoverMatch(m, later, Scan(s[|m.Text()|..]), s);
    }
  }
}
