/** Placeholders printed from their parts: which of them the scanner reads back, and how every
    placeholder that it finds is spelled. */
module Printing {
  import opened Text
  import opened Pattern
  import opened Nesting
  import opened Tokens

  ghost predicate AllDigits(s: string) {
    forall i :: 0 <= i < |s| ==> IsDigit(s[i])
  }

  ghost predicate AllSpaces(s: string) {
    forall i :: 0 <= i < |s| ==> IsSpace(s[i])
  }

  function PrintTail(spaces: string, repeat: string): string {
    spaces + (repeat + "}")
  }

  /** A placeholder as it may be written: its name, white space, and its count. */
  function PrintSpaced(inner: string, spaces: string, repeat: string): string {
    "{" + (inner + PrintTail(spaces, repeat))
  }

  /** A placeholder as it is mostly written, with one blank before a count. */
  function PrintGroup(inner: string, repeat: string): string {
    "{" + (inner + (if repeat == [] then "}" else " " + (repeat + "}")))
  }

  /** White space before a count, and only there. */
  ghost predicate Separates(spaces: string, repeat: string) {
    AllSpaces(spaces) && AllDigits(repeat) && (spaces == [] <==> repeat == [])
  }

  /** With depth braces open, every brace is closed in s and none that was not opened. */
  predicate Balanced(s: string, depth: nat) {
    if s == [] then depth == 0
    else if s[0] == '{' then Balanced(s[1..], depth + 1)
    else if s[0] == '}' then depth > 0 && Balanced(s[1..], depth - 1)
    else Balanced(s[1..], depth)
  }

  /** White space and then digits, at least one of each. */
  ghost predicate SpacesThenDigits(s: string) {
    0 < Span(s, IsSpace) < |s| && AllDigits(s[Span(s, IsSpace)..])
  }

  /** A rest of a name that the pattern reads as white space and count, together with the
      count that is printed behind it. */
  ghost predicate PartOfCount(x: string, repeat: string) {
    if repeat == [] then SpacesThenDigits(x) else AllSpaces(x)
  }

  /** The name ends like that. */
  ghost predicate EndsLikeCount(inner: string, repeat: string) {
    exists k :: 0 < k < |inner| && PartOfCount(inner[k..], repeat)
  }

  /** The names that are read back with such a count behind them. */
  ghost predicate Readable(inner: string, repeat: string) {
    inner != [] && Balanced(inner, 0) && !HasEmptyPair(inner) && !EndsLikeCount(inner, repeat)
  }

  // The counter over a printed group.

  /** What closes a group: no brace but the last character. */
  ghost predicate ClosesGroup(tail: string) {
    tail != [] && tail[|tail| - 1] == '}' && forall i :: 0 <= i < |tail| - 1 ==> !IsBrace(tail[i])
  }

  lemma PrintedTailCloses(spaces: string, repeat: string)
    requires AllSpaces(spaces) && AllDigits(repeat)
    ensures ClosesGroup(PrintTail(spaces, repeat))
  {
    var tail := PrintTail(spaces, repeat);
    forall i | 0 <= i < |tail| - 1
      ensures !IsBrace(tail[i])
    {
      assert tail[i] == if i < |spaces| then spaces[i] else repeat[i - |spaces|];
    }
  }

  lemma {:induction false} TailCloses(tail: string, depth: nat)
    requires ClosesGroup(tail)
    ensures Close(tail, depth + 1) == if depth == 0 then ClosedAfter(|tail|) else Unclosed
  {
    if |tail| == 1 {
      assert tail[1..] == [];
    } else {
      TailCloses(tail[1..], depth);
    }
  }

  /** A group closes at the end of its tail exactly if its name is balanced. */
  lemma {:induction false} BalancedCloses(s: string, tail: string, depth: nat)
    requires ClosesGroup(tail)
    ensures Close(s + tail, depth + 1) == ClosedAfter(|s| + |tail|) <==> Balanced(s, depth)
  {
    if s == [] {
      assert s + tail == tail;
      TailCloses(tail, depth);
    } else {
      assert (s + tail)[0] == s[0] && (s + tail)[1..] == s[1..] + tail;
      if s[0] == '{' {
        BalancedCloses(s[1..], tail, depth + 1);
      } else if s[0] == '}' {
        if depth > 0 {
          BalancedCloses(s[1..], tail, depth - 1);
        }
      } else {
        BalancedCloses(s[1..], tail, depth);
      }
    }
  }

  lemma {:induction false} BalancedEnd(s: string, depth: nat)
    requires Balanced(s, depth) && s != []
    ensures s[|s| - 1] != '{'
  {
    if |s| == 1 {
      assert s[1..] == [];
    } else {
      BalancedEnd(s[1..], if s[0] == '{' then depth + 1 else if s[0] == '}' then depth - 1 else depth);
    }
  }

  lemma TailHasNoPair(tail: string)
    requires ClosesGroup(tail)
    ensures !HasEmptyPair(tail)
  {
  }

  lemma PrintedPairs(inner: string, tail: string)
    requires ClosesGroup(tail) && inner != [] && Balanced(inner, 0)
    ensures HasEmptyPair("{" + (inner + tail)) <==> HasEmptyPair(inner)
  {
    EmptyPairConcat("{", inner + tail);
    EmptyPairConcat(inner, tail);
    TailHasNoPair(tail);
    BalancedEnd(inner, 0);
  }

  lemma PrintedCounterGroup(full: string, inner: string, tail: string)
    requires ClosesGroup(tail) && inner != []
    requires full == "{" + (inner + tail)
    ensures CounterGroup(full, |full|) <==> Balanced(inner, 0) && !HasEmptyPair(inner)
  {
    GroupOfPrinted(full, inner + tail);
    BalancedCloses(inner, tail, 0);
    if Balanced(inner, 0) {
      PrintedPairs(inner, tail);
    }
  }

  lemma GroupOfPrinted(full: string, body: string)
    requires full == "{" + body
    ensures CounterGroup(full, |full|) <==> Close(body, 1) == ClosedAfter(|body|) && !HasEmptyPair(full)
  {
    assert full[1..] == body && full[..|full|] == full;
  }

  // The place where a printed group splits.

  lemma SpacesThenDigitsCons(s: string)
    requires s != [] && IsSpace(s[0])
    ensures SpacesThenDigits(s) <==> SpacesThenDigits(s[1..]) || (s[1..] != [] && AllDigits(s[1..]))
  {
    var n := Span(s[1..], IsSpace);
    assert s[1 + n..] == s[1..][n..];
    if s[1..] != [] && AllDigits(s[1..]) {
      assert IsDigit(s[1..][0]) && n == 0;
    }
  }

  /** When all of s and the brace behind it are a tail, or what is left of one. */
  ghost predicate TailShape(s: string, state: TailState) {
    match state
    case Start => s == [] || SpacesThenDigits(s)
    case InSpaces => SpacesThenDigits(s) || (s != [] && AllDigits(s))
    case InDigits => AllDigits(s)
  }

  lemma {:induction false} TailShapeIff(s: string, state: TailState)
    ensures TailFrom(s + "}", state) == |s| + 1 <==> TailShape(s, state)
  {
    var t := s + "}";
    if s == [] {
      assert t == "}";
    } else {
      assert t[0] == s[0] && t[1..] == s[1..] + "}";
      TailShapeIff(s[1..], if IsSpace(s[0]) then InSpaces else InDigits);
      if IsSpace(s[0]) {
        SpacesThenDigitsCons(s);
      } else {
        DigitsCons(s);
      }
    }
  }

  lemma DigitsCons(s: string)
    requires s != []
    ensures AllDigits(s) <==> IsDigit(s[0]) && AllDigits(s[1..])
  {
    if IsDigit(s[0]) && AllDigits(s[1..]) {
      assert forall i :: 0 < i < |s| ==> s[i] == s[1..][i - 1];
    }
  }

  lemma SpanOfSpaces(spaces: string, rest: string)
    requires AllSpaces(spaces) && (rest != [] ==> !IsSpace(rest[0]))
    ensures Span(spaces + rest, IsSpace) == |spaces|
  {
    var s := spaces + rest;
    var n := Span(s, IsSpace);
    assert forall i :: 0 <= i < |spaces| ==> IsSpace(s[i]) by {
      assert forall i :: 0 <= i < |spaces| ==> s[i] == spaces[i];
    }
    assert rest != [] ==> s[|spaces|] == rest[0];
  }

  lemma SpanOfDigits(digits: string, rest: string)
    requires AllDigits(digits) && (rest != [] ==> !IsDigit(rest[0]))
    ensures Span(digits + rest, IsDigit) == |digits|
  {
    var s := digits + rest;
    assert forall i :: 0 <= i < |digits| ==> s[i] == digits[i];
    assert rest != [] ==> s[|digits|] == rest[0];
  }

  /** Group 4 of a printed tail is the count. */
  lemma RepeatOfPrinted(spaces: string, repeat: string)
    requires AllSpaces(spaces) && AllDigits(repeat)
    ensures RepeatOf(PrintTail(spaces, repeat)) == repeat
  {
    var tail := PrintTail(spaces, repeat);
    assert (repeat + "}")[0] == if repeat == [] then '}' else repeat[0];
    SpanOfSpaces(spaces, repeat + "}");
    SpanOfDigits(repeat, "}");
    assert tail[|spaces|..] == repeat + "}";
    assert (repeat + "}")[..|repeat|] == repeat;
  }

  /** A tail is white space, the count that group 4 captures, and the brace; there is white space
      exactly if there is a count. */
  lemma TailSpelling(tail: string) returns (spaces: string)
    requires Tail(tail) == |tail| > 0
    ensures tail == PrintTail(spaces, RepeatOf(tail)) && Separates(spaces, RepeatOf(tail))
  {
    var s := tail[..|tail| - 1];
    assert tail == s + "}";
    TailShapeIff(s, Start);
    var n := Span(s, IsSpace);
    spaces := s[..n];
    var repeat := s[n..];
    assert s == spaces + repeat;
    Regroup(spaces, repeat, "}");
    RepeatOfPrinted(spaces, repeat);
  }

  lemma CountShape(x: string, spaces: string, repeat: string)
    requires Separates(spaces, repeat) && repeat != []
    ensures SpacesThenDigits(x + (spaces + repeat)) <==> AllSpaces(x)
  {
    var s := x + (spaces + repeat);
    var n := Span(s, IsSpace);
    assert forall i :: 0 <= i < |x| ==> s[i] == x[i];
    if AllSpaces(x) {
      SpanOfSpaces(x + spaces, repeat);
      Regroup(x, spaces, repeat);
      assert s[|x + spaces|..] == repeat;
    }
    assert s[|x|] == spaces[0];
    assert n <= |x| ==> s[n..][|x| - n] == spaces[0];
  }

  /** The rest x of a name and the printed count are one tail. */
  lemma PrintedTailIff(x: string, spaces: string, repeat: string)
    requires Separates(spaces, repeat) && x != []
    ensures Tail(x + PrintTail(spaces, repeat)) == |x| + |PrintTail(spaces, repeat)| <==> PartOfCount(x, repeat)
  {
    if repeat == [] {
      assert x + PrintTail(spaces, repeat) == x + "}";
      TailShapeIff(x, Start);
    } else {
      assert x + PrintTail(spaces, repeat) == (x + (spaces + repeat)) + "}";
      TailShapeIff(x + (spaces + repeat), Start);
      CountShape(x, spaces, repeat);
    }
  }

  lemma PrintedTailIsTail(spaces: string, repeat: string)
    requires Separates(spaces, repeat)
    ensures Tail(PrintTail(spaces, repeat)) == |PrintTail(spaces, repeat)|
  {
    Regroup(spaces, repeat, "}");
    TailShapeIff(spaces + repeat, Start);
    if repeat != [] {
      SpanOfSpaces(spaces, repeat);
      assert (spaces + repeat)[|spaces|..] == repeat;
    }
  }

  lemma PrintedSplitAt(inner: string, spaces: string, repeat: string, k: nat)
    requires Separates(spaces, repeat) && 0 < k < |inner|
    ensures var body := inner + PrintTail(spaces, repeat);
            Tail(body[k..]) == |body| - k <==> PartOfCount(inner[k..], repeat)
  {
    assert (inner + PrintTail(spaces, repeat))[k..] == inner[k..] + PrintTail(spaces, repeat);
    PrintedTailIff(inner[k..], spaces, repeat);
  }

  lemma PrintedSplitsIff(inner: string, spaces: string, repeat: string)
    requires Separates(spaces, repeat) && inner != []
    ensures SplitsAt(inner + PrintTail(spaces, repeat), |inner|) <==> !EndsLikeCount(inner, repeat)
  {
    var body := inner + PrintTail(spaces, repeat);
    PrintedTailIsTail(spaces, repeat);
    assert body[|inner|..] == PrintTail(spaces, repeat);
    forall k | 0 < k < |inner|
      ensures Tail(body[k..]) == |body| - k <==> PartOfCount(inner[k..], repeat)
    {
      PrintedSplitAt(inner, spaces, repeat, k);
    }
  }

  lemma PrintedParts(full: string, inner: string, tail: string)
    requires full == "{" + (inner + tail)
    ensures full[1..] == inner + tail && full[1..][..|inner|] == inner && full[1..][|inner|..] == tail
  {
  }

  lemma SameSpaces(spaces: string, spaces': string, repeat: string)
    requires PrintTail(spaces, repeat) == PrintTail(spaces', repeat)
    ensures spaces == spaces'
  {
    assert |spaces| == |spaces'|;
    assert PrintTail(spaces, repeat)[..|spaces|] == spaces && PrintTail(spaces', repeat)[..|spaces'|] == spaces';
  }

  /** A group that is canonical with the parts it was printed from has its tail well printed. */
  lemma CanonicalSeparates(inner: string, spaces: string, repeat: string)
    requires CanonicalGroup(PrintSpaced(inner, spaces, repeat), inner, repeat)
    ensures Separates(spaces, repeat)
  {
    PrintedParts(PrintSpaced(inner, spaces, repeat), inner, PrintTail(spaces, repeat));
    var spaces' := TailSpelling(PrintTail(spaces, repeat));
    SameSpaces(spaces, spaces', repeat);
  }

  /** Which printed placeholders are read back as they were printed: those of a balanced name
      without an empty pair that does not end in white space (before a count) or in white space
      and digits (without one), and of a count that is all digits behind some white space, or
      neither of the two. */
  lemma SpacedIsCanonicalIff(inner: string, spaces: string, repeat: string)
    ensures CanonicalGroup(PrintSpaced(inner, spaces, repeat), inner, repeat) <==>
              Readable(inner, repeat) && Separates(spaces, repeat)
  {
    var full := PrintSpaced(inner, spaces, repeat);
    if CanonicalGroup(full, inner, repeat) {
      CanonicalSeparates(inner, spaces, repeat);
    }
    if Separates(spaces, repeat) && inner != [] {
      PrintedTailCloses(spaces, repeat);
      PrintedCounterGroup(full, inner, PrintTail(spaces, repeat));
      PrintedSplitsIff(inner, spaces, repeat);
      RepeatOfPrinted(spaces, repeat);
      PrintedParts(full, inner, PrintTail(spaces, repeat));
    }
  }

  function Blank(repeat: string): string {
    if repeat == [] then [] else " "
  }

  lemma GroupIsSpaced(inner: string, repeat: string)
    ensures PrintGroup(inner, repeat) == PrintSpaced(inner, Blank(repeat), repeat)
  {
    assert [] + (repeat + "}") == repeat + "}";
  }

  /** The same for the usual spelling. */
  lemma PrintedIsCanonicalIff(inner: string, repeat: string)
    ensures CanonicalGroup(PrintGroup(inner, repeat), inner, repeat) <==>
              Readable(inner, repeat) && AllDigits(repeat)
  {
    GroupIsSpaced(inner, repeat);
    SpacedIsCanonicalIff(inner, Blank(repeat), repeat);
  }

  // ---------------------------------------------------------------------
  // How every scanned placeholder is spelled
  // ---------------------------------------------------------------------

  /** The full text of a placeholder is its name, white space and its count, all in braces. The
      name is balanced and takes as little as it can. */
  ghost predicate SpelledWith(m: Match, spaces: string)
    requires m.Placeholder?
  {
    && m.full == "{" + (m.inner + (spaces + (m.repeat + "}")))
    && AllSpaces(spaces) && AllDigits(m.repeat) && (spaces == [] <==> m.repeat == [])
    && Readable(m.inner, m.repeat)
  }

  ghost predicate Spelled(m: Match) {
    m.Placeholder? ==> exists spaces :: SpelledWith(m, spaces)
  }

  lemma CanonicalParts(full: string, inner: string, repeat: string) returns (body: string, rest: string)
    requires CanonicalGroup(full, inner, repeat)
    ensures full == "{" + body && body == inner + rest
    ensures Tail(rest) == |rest| > 0 && repeat == RepeatOf(rest)
  {
    body := full[1..];
    rest := body[|inner|..];
  }

  lemma GroupSpelling(full: string, inner: string, repeat: string) returns (spaces: string)
    requires CanonicalGroup(full, inner, repeat)
    ensures full == PrintSpaced(inner, spaces, repeat) && Separates(spaces, repeat)
  {
    var body, rest := CanonicalParts(full, inner, repeat);
    spaces := SpellingOf(full, inner, rest);
  }

  lemma SpellingOf(full: string, inner: string, rest: string) returns (spaces: string)
    requires full == "{" + (inner + rest) && Tail(rest) == |rest| > 0
    ensures full == PrintSpaced(inner, spaces, RepeatOf(rest)) && Separates(spaces, RepeatOf(rest))
  {
    spaces := TailSpelling(rest);
  }

  lemma GroupIsSpelled(m: Match, spaces: string)
    requires m.Placeholder? && CanonicalGroup(m.full, m.inner, m.repeat)
    requires m.full == PrintSpaced(m.inner, spaces, m.repeat) && Separates(spaces, m.repeat)
    ensures SpelledWith(m, spaces)
  {
    SpacedIsCanonicalIff(m.inner, spaces, m.repeat);
  }

  lemma CanonicalIsSpelled(m: Match)
    requires Canonical(m)
    ensures Spelled(m)
  {
    if m.Placeholder? {
      var spaces := GroupSpelling(m.full, m.inner, m.repeat);
      GroupIsSpelled(m, spaces);
    }
  }

  /** Every placeholder that the scanner finds is spelled like that. */
  lemma {:induction false} ScanIsSpelled(s: string)
    ensures forall m :: m in Scan(s) ==> Spelled(m)
    decreases |s|
  {
    if s == [] {
    } else if MatchAt(s).NoMatch? {
      ScanIsSpelled(s[1..]);
    } else {
      var m := MatchAt(s).m;
      ScanIsSpelled(s[|m.Text()|..]);
      if m.Placeholder? {
        ScannedGroupIsCanonical(s);
        CanonicalIsSpelled(m);
      }
    }
  }

  ghost predicate PlainName(inner: string) {
    inner != [] && forall i :: 0 <= i < |inner| ==> !IsBrace(inner[i]) && !IsSpace(inner[i])
  }

  lemma {:induction false} PlainBalanced(s: string)
    requires forall i :: 0 <= i < |s| ==> !IsBrace(s[i])
    ensures Balanced(s, 0) && !HasEmptyPair(s)
  {
    if s != [] {
      PlainBalanced(s[1..]);
    }
  }

  /** A name without braces and white space is read back with any count behind any white space. */
  lemma PlainSpacedIsCanonical(inner: string, spaces: string, repeat: string)
    requires PlainName(inner) && Separates(spaces, repeat)
    ensures CanonicalGroup(PrintSpaced(inner, spaces, repeat), inner, repeat)
  {
    PlainBalanced(inner);
    SpacedIsCanonicalIff(inner, spaces, repeat);
    forall k | 0 < k < |inner|
      ensures !PartOfCount(inner[k..], repeat)
    {
      assert !IsSpace(inner[k..][0]);
    }
  }

  lemma PlainGroupIsCanonical(inner: string, repeat: string)
    requires PlainName(inner) && AllDigits(repeat)
    ensures CanonicalGroup(PrintGroup(inner, repeat), inner, repeat)
  {
    GroupIsSpaced(inner, repeat);
    PlainSpacedIsCanonical(inner, Blank(repeat), repeat);
  }

  lemma SpanOfModifiers(signs: string, rest: string)
    requires AllModifiers(signs) && (rest != [] ==> !IsModifier(rest[0]))
    ensures Span(signs + rest, IsModifier) == |signs|
  {
    var s := signs + rest;
    assert forall i :: 0 <= i < |signs| ==> s[i] == signs[i];
    assert rest != [] ==> s[|signs|] == rest[0];
  }

  /** What is matched at any place of any text: after the run of modifiers the whole brace group
      if the counter finds one, else the next character; and if there is none on the line, the
      last of the modifiers, behind the others. */
  lemma MatchAtIff(signs: string, rest: string)
    requires AllModifiers(signs) && (rest != [] ==> !IsModifier(rest[0]))
    ensures var r := MatchAt(signs + rest);
            if exists n: nat :: CounterGroup(rest, n) then
              && r.Found? && r.m.Placeholder? && r.m.modifiers == signs
              && r.m.full <= rest && CounterGroup(rest, |r.m.full|) && Spelled(r.m)
            else if rest != [] && rest[0] != '\n' then r == Found(Character(signs, rest[0]))
            else if signs != [] then r == Found(Character(signs[..|signs| - 1], signs[|signs| - 1]))
            else r == NoMatch
  {
    var s := signs + rest;
    SpanOfModifiers(signs, rest);
    assert s[|signs|..] == rest && s[..|signs|] == signs;
    GroupIff(rest);
    if Group(rest) > 0 {
      ScannedGroupIsCanonical(s);
      CanonicalIsSpelled(MatchAt(s).m);
    } else if signs != [] {
      assert s[..|signs| - 1] == signs[..|signs| - 1] && s[|signs| - 1] == signs[|signs| - 1];
    }
  }

  lemma GroupIff(rest: string)
    ensures Group(rest) > 0 <==> exists n: nat :: CounterGroup(rest, n)
    ensures Group(rest) > 0 ==> CounterGroup(rest, Group(rest))
  {
    if rest != [] && rest[0] == '{' {
      GroupRefinesCounter(rest);
    }
  }
}
