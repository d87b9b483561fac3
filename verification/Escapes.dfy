/** The rewriting of escaped braces that precedes the pattern, and the brace count. */
module Escapes {
  import opened Text

  const LEFT_ESCAPE: string := "{{}"
  const RIGHT_ESCAPE: string := "{}}"
  const LEFT_NAME: string := "{LEFTBRACE}"
  const RIGHT_NAME: string := "{RIGHTBRACE}"

  function RewriteLeft(s: string): string {
    ReplaceAll(s, LEFT_ESCAPE, LEFT_NAME)
  }

  function RewriteRight(s: string): string {
    ReplaceAll(s, RIGHT_ESCAPE, RIGHT_NAME)
  }

  function Rewrite(s: string): string {
    RewriteRight(RewriteLeft(s))
  }

  predicate BracesCount(s: string) {
    Count(s, '{') == Count(s, '}')
  }

  // ---------------------------------------------------------------------
  // No escape is left
  // ---------------------------------------------------------------------

  /** Rewriting never makes a text begin with an empty pair. */
  lemma LeftKeepsPair(s: string)
    requires "{}" <= RewriteLeft(s)
    ensures "{}" <= s
  {
    assert LEFT_NAME[1] == 'L';
    if !(LEFT_ESCAPE <= s) {
      var t := s[1..];
      assert RewriteLeft(s)[0] == s[0] && RewriteLeft(s)[1] == RewriteLeft(t)[0];
      assert t[0] == '}';
    }
  }

  lemma RightKeepsClosing(s: string)
    requires RewriteRight(s) != [] && RewriteRight(s)[0] == '}'
    ensures s != [] && s[0] == '}' && RewriteRight(s) == ['}'] + RewriteRight(s[1..])
  {
  }

  lemma RightKeepsPairs(s: string)
    ensures "}}" <= RewriteRight(s) ==> "}}" <= s
    ensures "{}" <= RewriteRight(s) ==> "{}" <= s
  {
    if "}}" <= RewriteRight(s) {
      RightKeepsClosing(s);
      assert RewriteRight(s)[1] == RewriteRight(s[1..])[0];
      RightKeepsClosing(s[1..]);
    }
    if "{}" <= RewriteRight(s) {
      assert RIGHT_NAME[1] == 'R';
      if !(RIGHT_ESCAPE <= s) {
        assert RewriteRight(s)[1] == RewriteRight(s[1..])[0];
        RightKeepsClosing(s[1..]);
      }
    }
  }

  /** The escapes, character by character. */
  lemma EscapesCons(s: string)
    requires s != []
    ensures LEFT_ESCAPE <= s <==> s[0] == '{' && "{}" <= s[1..]
    ensures RIGHT_ESCAPE <= s <==> s[0] == '{' && "}}" <= s[1..]
  {
    assert LEFT_ESCAPE[1..] == "{}" && RIGHT_ESCAPE[1..] == "}}";
    PrefixCons(s, LEFT_ESCAPE);
    PrefixCons(s, RIGHT_ESCAPE);
  }

  lemma PrefixCons(s: string, pattern: string)
    requires s != [] && pattern != []
    ensures pattern <= s <==> pattern[0] == s[0] && pattern[1..] <= s[1..]
  {
    if pattern[0] == s[0] && pattern[1..] <= s[1..] {
      assert forall i :: 0 < i < |pattern| ==> pattern[i] == pattern[1..][i - 1] == s[1..][i - 1] == s[i];
    }
    if pattern <= s {
      assert forall i :: 0 <= i < |pattern| - 1 ==> pattern[1..][i] == pattern[i + 1] == s[i + 1] == s[1..][i];
    }
  }

  /** Inside a brace name no brace follows an opening brace. */
  lemma NameHasNoPair(name: string, rest: string, i: nat)
    requires name == LEFT_NAME || name == RIGHT_NAME
    requires i + 1 < |name + rest| && (name + rest)[i] == '{' && IsBrace((name + rest)[i + 1])
    ensures i >= |name|
  {
    assert forall k :: 0 <= k < |name| ==> (name + rest)[k] == name[k];
  }

  /** An escape opens with two braces. */
  lemma EscapeOpens(s: string, escape: string, i: nat)
    requires escape == LEFT_ESCAPE || escape == RIGHT_ESCAPE
    requires OccursAt(s, escape, i)
    ensures i + 1 < |s| && s[i] == '{' && IsBrace(s[i + 1])
  {
    assert s[i..i + |escape|][0] == '{' && IsBrace(s[i..i + |escape|][1]);
  }

  lemma OccursBehind(name: string, rest: string, escape: string, i: nat)
    requires OccursAt(name + rest, escape, i) && i >= |name|
    ensures OccursAt(rest, escape, i - |name|)
  {
    assert rest[i - |name|..i - |name| + |escape|] == (name + rest)[i..i + |escape|];
  }

  /** A brace name in front of a text adds no escape to it. */
  lemma NameAddsNone(name: string, rest: string, escape: string)
    requires name == LEFT_NAME || name == RIGHT_NAME
    requires escape == LEFT_ESCAPE || escape == RIGHT_ESCAPE
    ensures Occurs(name + rest, escape) <==> Occurs(rest, escape)
  {
    var s := name + rest;
    assert s[|name|..] == rest;
    OccursSuffix(s, |name|, escape);
    if Occurs(s, escape) {
      var i :| OccursAt(s, escape, i);
      EscapeOpens(s, escape, i);
      NameHasNoPair(name, rest, i);
      OccursBehind(name, rest, escape, i);
    }
  }

  lemma {:induction false} LeftLeavesNone(s: string)
    ensures !Occurs(RewriteLeft(s), LEFT_ESCAPE)
  {
    if s == [] {
    } else if LEFT_ESCAPE <= s {
      LeftLeavesNone(s[3..]);
      NameAddsNone(LEFT_NAME, RewriteLeft(s[3..]), LEFT_ESCAPE);
    } else {
      var t := RewriteLeft(s);
      LeftLeavesNone(s[1..]);
      OccursCons(t, LEFT_ESCAPE);
      assert t[1..] == RewriteLeft(s[1..]);
      if LEFT_ESCAPE <= t {
        assert t[0] == '{' && t[1] == '{' && t[2] == '}';
        assert t[1..][0] == '{' && t[1..][1] == '}';
        LeftKeepsPair(s[1..]);
      }
    }
  }

  lemma {:induction false} RightLeavesNone(s: string)
    ensures !Occurs(RewriteRight(s), RIGHT_ESCAPE)
    ensures !Occurs(s, LEFT_ESCAPE) ==> !Occurs(RewriteRight(s), LEFT_ESCAPE)
  {
    if s == [] {
    } else if RIGHT_ESCAPE <= s {
      RightLeavesNone(s[3..]);
      NameAddsNone(RIGHT_NAME, RewriteRight(s[3..]), RIGHT_ESCAPE);
      NameAddsNone(RIGHT_NAME, RewriteRight(s[3..]), LEFT_ESCAPE);
      OccursSuffix(s, 3, LEFT_ESCAPE);
    } else {
      RightLeavesNone(s[1..]);
      RightLeavesNoneStep(s);
    }
  }

  lemma OccursSuffix(s: string, n: nat, pattern: string)
    requires n <= |s| && |pattern| > 0
    ensures Occurs(s[n..], pattern) ==> Occurs(s, pattern)
  {
    if Occurs(s[n..], pattern) {
      var i :| OccursAt(s[n..], pattern, i);
      assert s[n..][i..i + |pattern|] == s[n + i..n + i + |pattern|];
      assert OccursAt(s, pattern, n + i);
    }
  }

  lemma RightLeavesNoneStep(s: string)
    requires s != [] && !(RIGHT_ESCAPE <= s)
    requires !Occurs(RewriteRight(s[1..]), RIGHT_ESCAPE)
    requires !Occurs(s[1..], LEFT_ESCAPE) ==> !Occurs(RewriteRight(s[1..]), LEFT_ESCAPE)
    ensures !Occurs(RewriteRight(s), RIGHT_ESCAPE)
    ensures !Occurs(s, LEFT_ESCAPE) ==> !Occurs(RewriteRight(s), LEFT_ESCAPE)
  {
    var t := RewriteRight(s);
    assert t[1..] == RewriteRight(s[1..]);
    OccursCons(t, RIGHT_ESCAPE);
    OccursCons(t, LEFT_ESCAPE);
    OccursCons(s, LEFT_ESCAPE);
    RightKeepsPairs(s[1..]);
    EscapesCons(t);
    EscapesCons(s);
  }

  /** After both replacements no escape is left of either kind. */
  lemma RewriteLeavesNone(s: string)
    ensures !Occurs(Rewrite(s), LEFT_ESCAPE) && !Occurs(Rewrite(s), RIGHT_ESCAPE)
  {
    LeftLeavesNone(s);
    RightLeavesNone(RewriteLeft(s));
  }

  /** Rewriting twice is rewriting once. */
  lemma RewriteIdempotent(s: string)
    ensures Rewrite(Rewrite(s)) == Rewrite(s)
  {
    RewriteLeavesNone(s);
    ReplaceNothing(Rewrite(s), LEFT_ESCAPE, LEFT_NAME);
    ReplaceNothing(Rewrite(s), RIGHT_ESCAPE, RIGHT_NAME);
  }

  // ---------------------------------------------------------------------
  // What the second replacement finds
  // ---------------------------------------------------------------------

  /** How many right escapes of s do not share their braces with a left escape:
      those that are not preceded by an opening brace. */
  function FreeRightEscapes(s: string, afterOpening: bool): (n: nat)
    ensures n <= |s|
  {
    if s == [] then 0
    else (if RIGHT_ESCAPE <= s && !afterOpening then 1 else 0) + FreeRightEscapes(s[1..], s[0] == '{')
  }

  /** The first replacement neither makes a match for the second one nor takes one
      away other than by using its opening brace. */
  lemma {:induction false} LeftKeepsFreeRightEscapes(s: string)
    ensures Matches(RewriteLeft(s), RIGHT_ESCAPE) == FreeRightEscapes(s, false)
  {
    var t := RewriteLeft(s);
    if s == [] {
    } else if LEFT_ESCAPE <= s {
      LeftKeepsFreeRightEscapes(s[3..]);
      LeftNameHasNoRight(RewriteLeft(s[3..]));
      EscapeHidesRight(s);
    } else {
      LeftKeepsFreeRightEscapes(s[1..]);
      LeftKeepsFreeStep(s);
    }
  }

  lemma LeftNameHasNoRight(rest: string)
    ensures Matches(LEFT_NAME + rest, RIGHT_ESCAPE) == Matches(rest, RIGHT_ESCAPE)
  {
    assert LEFT_NAME[1] == 'L';
    MatchesSkip(LEFT_NAME, rest, |LEFT_NAME|);
  }

  lemma RightEscapeOpens(s: string)
    requires RIGHT_ESCAPE <= s
    ensures |s| >= 3 && s[0] == '{' && s[1] == '}'
  {
  }

  lemma NoRightHere(s: string)
    requires s != [] && (s[0] == '{' ==> |s| > 1 && !IsBrace(s[1]))
    ensures Matches(s, RIGHT_ESCAPE) == Matches(s[1..], RIGHT_ESCAPE)
  {
    if RIGHT_ESCAPE <= s {
      RightEscapeOpens(s);
    }
  }

  /** Nothing matches in the last k characters of a brace name. */
  lemma {:induction false} MatchesSkip(name: string, rest: string, k: nat)
    requires k <= |name| && |name| > 1 && !IsBrace(name[1])
    requires forall i :: 0 < i < |name| ==> name[i] != '{'
    ensures Matches(name[|name| - k..] + rest, RIGHT_ESCAPE) == Matches(rest, RIGHT_ESCAPE)
  {
    var s := name[|name| - k..] + rest;
    if k == 0 {
      assert s == rest;
    } else {
      MatchesSkip(name, rest, k - 1);
      assert s[1..] == name[|name| - (k - 1)..] + rest;
      assert s[0] == name[|name| - k];
      NoRightHere(s);
    }
  }

  /** Behind a left escape the count goes on as if nothing had been there. */
  lemma EscapeHidesRight(s: string)
    requires LEFT_ESCAPE <= s
    ensures FreeRightEscapes(s, false) == FreeRightEscapes(s[3..], false)
  {
    assert s[0] == '{' && s[1] == '{' && s[2] == '}';
    assert s[1..][1..] == s[2..] && s[2..][1..] == s[3..];
    assert FreeRightEscapes(s, false) == FreeRightEscapes(s[1..], true);
    assert FreeRightEscapes(s[1..], true) == FreeRightEscapes(s[2..], true);
    assert FreeRightEscapes(s[2..], true) == FreeRightEscapes(s[3..], false);
  }

  /** Behind an opening brace that starts no left escape, the brace makes no difference
      unless the text itself starts with a right escape. */
  lemma FreeAfterOpening(s: string)
    ensures !(RIGHT_ESCAPE <= s) ==> FreeRightEscapes(s, true) == FreeRightEscapes(s, false)
  {
  }

  lemma LeftKeepsFreeStep(s: string)
    requires s != [] && !(LEFT_ESCAPE <= s)
    requires Matches(RewriteLeft(s[1..]), RIGHT_ESCAPE) == FreeRightEscapes(s[1..], false)
    ensures Matches(RewriteLeft(s), RIGHT_ESCAPE) == FreeRightEscapes(s, false)
  {
    if RIGHT_ESCAPE <= s {
      LeftKeepsRight(s);
    } else {
      var t := RewriteLeft(s);
      assert t[1..] == RewriteLeft(s[1..]);
      EscapesCons(t);
      EscapesCons(s);
      ClosingStays(s[1..]);
      RightStartsPair(s[1..]);
      FreeAfterOpening(s[1..]);
    }
  }

  lemma LeftKeepsRight(s: string)
    requires RIGHT_ESCAPE <= s
    requires Matches(RewriteLeft(s[1..]), RIGHT_ESCAPE) == FreeRightEscapes(s[1..], false)
    ensures Matches(RewriteLeft(s), RIGHT_ESCAPE) == FreeRightEscapes(s, false)
  {
    assert s[0] == '{' && s[1] == '}' && s[2] == '}';
    RewriteClosings(s[1..]);
    var rest := RewriteLeft(s[1..][2..]);
    assert RewriteLeft(s) == ['{'] + RewriteLeft(s[1..]);
    MatchesClosings(rest);
    assert ['{'] + ("}}" + rest) == RIGHT_ESCAPE + rest;
    assert (RIGHT_ESCAPE + rest)[3..] == rest;
  }

  lemma RewriteClosings(s: string)
    requires "}}" <= s
    ensures RewriteLeft(s) == "}}" + RewriteLeft(s[2..])
  {
    assert s[0] == '}' && s[1] == '}';
    assert s[1..][1..] == s[2..];
    assert RewriteLeft(s[1..]) == ['}'] + RewriteLeft(s[2..]);
    assert ['}'] + (['}'] + RewriteLeft(s[2..])) == "}}" + RewriteLeft(s[2..]);
  }

  lemma MatchesClosings(s: string)
    ensures Matches("}}" + s, RIGHT_ESCAPE) == Matches(s, RIGHT_ESCAPE)
  {
    assert ("}}" + s)[1..] == "}" + s && ("}" + s)[1..] == s;
    assert RIGHT_ESCAPE[0] == '{' && ("}}" + s)[0] == '}' && ("}" + s)[0] == '}';
    assert Matches("}" + s, RIGHT_ESCAPE) == Matches(s, RIGHT_ESCAPE);
  }

  lemma ClosingStays(s: string)
    ensures "}}" <= RewriteLeft(s) ==> "}}" <= s
  {
    if "}}" <= RewriteLeft(s) {
      assert RewriteLeft(s)[0] == '}' && RewriteLeft(s)[1] == '}';
      assert s[0] == '}';
      assert RewriteLeft(s)[1] == RewriteLeft(s[1..])[0];
    }
  }

  lemma RightStartsPair(s: string)
    ensures RIGHT_ESCAPE <= s ==> "{}" <= s
  {
    assert "{}" + "}" == RIGHT_ESCAPE;
  }

  // ---------------------------------------------------------------------
  // What the brace count accepts
  // ---------------------------------------------------------------------

  function Excess(s: string): int {
    Count(s, '{') - Count(s, '}')
  }

  lemma ExcessConcat(a: string, b: string)
    ensures Excess(a + b) == Excess(a) + Excess(b)
  {
    CountConcat(a, b, '{');
    CountConcat(a, b, '}');
  }

  /** A replacement changes the excess by the same amount for each match. */
  lemma {:induction false} ReplaceExcess(s: string, pattern: string, substitute: string)
    requires |pattern| > 0
    ensures Excess(ReplaceAll(s, pattern, substitute))
         == Excess(s) + Matches(s, pattern) * (Excess(substitute) - Excess(pattern))
  {
    if s == [] {
    } else if pattern <= s {
      var rest := s[|pattern|..];
      ReplaceExcess(rest, pattern, substitute);
      ExcessConcat(substitute, ReplaceAll(rest, pattern, substitute));
      ExcessConcat(pattern, rest);
      assert s == pattern + rest;
      Distribute(Matches(rest, pattern), Excess(substitute) - Excess(pattern));
    } else {
      ReplaceExcess(s[1..], pattern, substitute);
      ExcessConcat([s[0]], ReplaceAll(s[1..], pattern, substitute));
      ExcessConcat([s[0]], s[1..]);
      assert s == [s[0]] + s[1..];
    }
  }

  lemma Distribute(n: nat, d: int)
    ensures (1 + n) * d == d + n * d
  {
  }

  lemma LeftLosesOne()
    ensures Excess(LEFT_NAME) - Excess(LEFT_ESCAPE) == -1
  {
  }

  lemma RightGainsOne()
    ensures Excess(RIGHT_NAME) - Excess(RIGHT_ESCAPE) == 1
  {
  }

  /** The same for a replacement that changes the excess by d. */
  lemma ReplaceExcessBy(s: string, pattern: string, substitute: string, d: int)
    requires |pattern| > 0 && Excess(substitute) - Excess(pattern) == d
    ensures Excess(ReplaceAll(s, pattern, substitute)) == Excess(s) + Matches(s, pattern) * d
  {
    ReplaceExcess(s, pattern, substitute);
  }

  lemma LeftExcess(s: string)
    ensures Excess(RewriteLeft(s)) == Excess(s) - Matches(s, LEFT_ESCAPE)
  {
    LeftLosesOne();
    ReplaceExcessBy(s, LEFT_ESCAPE, LEFT_NAME, -1);
  }

  lemma RightExcess(s: string)
    ensures Excess(RewriteRight(s)) == Excess(s) + Matches(s, RIGHT_ESCAPE)
  {
    RightGainsOne();
    ReplaceExcessBy(s, RIGHT_ESCAPE, RIGHT_NAME, 1);
  }

  /** The count test accepts exactly the texts whose excess of opening braces equals
      the left escapes minus the right escapes that are free of a left one. */
  lemma CountAccepts(s: string)
    ensures BracesCount(Rewrite(s)) <==>
              Excess(s) == Matches(s, LEFT_ESCAPE) - FreeRightEscapes(s, false)
  {
    LeftExcess(s);
    RightExcess(RewriteLeft(s));
    LeftKeepsFreeRightEscapes(s);
  }

  lemma {:induction false} NoBraces(s: string)
    requires forall i :: 0 <= i < |s| ==> !IsBrace(s[i])
    ensures Excess(s) == 0
  {
    if s != [] {
      NoBraces(s[1..]);
    }
  }
}
