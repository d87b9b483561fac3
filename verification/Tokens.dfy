/** Printing and scanning undo each other. */
module Tokens {
  import opened Text
  import opened Pattern
  import opened Nesting

  /** A brace group as the pattern captures it: closed by its own last brace, split
      into body and tail, and no shorter body would do. */
  ghost predicate CanonicalGroup(full: string, inner: string, repeat: string) {
    && CounterGroup(full, |full|)
    && SplitsAt(full[1..], |inner|)
    && inner == full[1..][..|inner|]
    && repeat == RepeatOf(full[1..][|inner|..])
  }

  ghost predicate AllModifiers(s: string) {
    forall i :: 0 <= i < |s| ==> IsModifier(s[i])
  }

  /** A match that reads the same wherever its text stands. */
  ghost predicate Canonical(m: Match) {
    && AllModifiers(m.modifiers)
    && match m
       case Placeholder(_, full, inner, repeat) => CanonicalGroup(full, inner, repeat)
       case Character(_, c) => c != '\n' && c != '{' && !IsModifier(c)
  }

  // ---------------------------------------------------------------------
  // Locality: what follows a match does not matter to it
  // ---------------------------------------------------------------------

  /** A tail within x is the same tail with more text behind x. */
  lemma {:induction false} TailPrefix(x: string, rest: string, state: TailState)
    ensures TailFrom(x, state) > 0 ==> TailFrom(x + rest, state) == TailFrom(x, state)
    ensures TailFrom(x + rest, state) <= |x| ==> TailFrom(x, state) == TailFrom(x + rest, state)
  {
    if x != [] {
      assert (x + rest)[1..] == x[1..] + rest;
      TailPrefix(x[1..], rest, if IsSpace(x[0]) then InSpaces else InDigits);
    }
  }

  lemma {:induction false} CloseExtends(s: string, rest: string, depth: nat)
    requires depth > 0 && Close(s, depth).ClosedAfter?
    ensures Close(s + rest, depth) == Close(s, depth)
  {
    if s[0] == '}' && depth == 1 {
    } else {
      CloseExtends(s[1..], rest, if s[0] == '{' then depth + 1 else if s[0] == '}' then depth - 1 else depth);
      assert (s + rest)[1..] == s[1..] + rest;
    }
  }

  lemma CounterGroupExtends(full: string, rest: string)
    requires CounterGroup(full, |full|)
    ensures Group(full + rest) == |full|
  {
    var s := full + rest;
    assert s[1..] == full[1..] + rest;
    CloseExtends(full[1..], rest, 1);
    assert s[..|full|] == full == full[..|full|];
    assert CounterGroup(s, |full|);
    GroupRefinesCounter(s);
  }

  // ---------------------------------------------------------------------
  // Where the lazy body stops
  // ---------------------------------------------------------------------

  /** What follows the body is the tail that made the body stop. */
  lemma {:induction false} BodyLeavesTail(s: string, empty: bool)
    requires Body(s, empty).Split?
    ensures var r := Body(s, empty); r.inner <= |s| && r.tail == Tail(s[r.inner..])
    decreases |s|
  {
    if !empty && Tail(s) > 0 {
      assert s[0..] == s;
    } else {
      var k := Item(s);
      BodyLeavesTail(s[k..], false);
      assert s[k..][Body(s[k..], false).inner..] == s[Body(s, empty).inner..];
    }
  }

  /** A body that goes on behind its next item. */
  lemma BodySteps(s: string, empty: bool)
    requires Item(s) > 0 && (empty || Tail(s) == 0)
    ensures var later := Body(s[Item(s)..], false);
            Body(s, empty) == if later.NoSplit? then NoSplit else Split(Item(s) + later.inner, later.tail)
  {
  }

  lemma TailHasNoBrace(s: string, k: nat)
    requires k <= |s| && Tail(s[k..]) > 0
    ensures forall j :: k <= j < k + Tail(s[k..]) - 1 ==> s[j] != '}'
  {
    forall j | k <= j < k + Tail(s[k..]) - 1
      ensures s[j] != '}'
    {
      TailCharacter(s[k..], Start, j - k);
    }
  }

  lemma {:induction false} TailCharacter(s: string, state: TailState, i: nat)
    requires i < TailFrom(s, state) - 1
    ensures !IsBrace(s[i])
  {
    if i > 0 {
      TailCharacter(s[1..], if IsSpace(s[0]) then InSpaces else InDigits, i - 1);
    }
  }

  /** An item ends before the last stretch without a closing brace begins, and the
      counter goes on behind it. */
  lemma ItemEndsBy(s: string, empty: bool, k: nat, n: nat)
    requires 0 < k < n && CounterBody(s, empty, n)
    requires forall j :: k <= j < n - 1 ==> s[j] != '}'
    ensures 0 < Item(s) <= k
    ensures CounterBody(s[Item(s)..], false, n - Item(s))
  {
    if s[0] != '{' {
      CounterOverCharacter(s, empty, n);
    } else {
      CounterNeedsGroup(s, empty, n);
      GroupRefinesCounter(s);
      var g := Group(s);
      CounterOverGroup(s, empty, g, n);
      CloseEndsInBrace(s[1..], 1);
      assert s[g - 1] == '}';
    }
  }

  /** The first item of a body ends no later than such a tail begins. */
  lemma {:induction false} ItemWithin(s: string, empty: bool, k: nat) returns (g: nat)
    requires 0 < k <= |s| && Tail(s[k..]) > 0
    requires CounterBody(s, empty, k + Tail(s[k..]))
    ensures 0 < g <= k && g == Item(s) && s[g..][k - g..] == s[k..]
    ensures CounterBody(s[g..], false, k - g + Tail(s[k..]))
  {
    TailHasNoBrace(s, k);
    ItemEndsBy(s, empty, k, k + Tail(s[k..]));
    g := Item(s);
  }

  /** The body stops no later than at a tail that reaches to the end of the group. */
  lemma {:induction false} BodyStopsBy(s: string, empty: bool, k: nat)
    requires k <= |s| && Tail(s[k..]) > 0
    requires CounterBody(s, empty, k + Tail(s[k..]))
    requires empty ==> k > 0
    ensures Body(s, empty).Split? && Body(s, empty).inner <= k
    decreases |s|
  {
    if k == 0 {
      assert s[0..] == s;
    } else if empty || Tail(s) == 0 {
      var g := ItemWithin(s, empty, k);
      BodyStopsBy(s[g..], false, k - g);
      BodySteps(s, empty);
    }
  }

  // ---------------------------------------------------------------------
  // Both directions
  // ---------------------------------------------------------------------

  /** The body of a group splits at i exactly if a tail reaches from there to the
      end of the group, and from no earlier place. */
  ghost predicate SplitsAt(body: string, i: nat) {
    && 0 < i < |body|
    && Tail(body[i..]) == |body| - i
    && forall k :: 0 < k < i ==> Tail(body[k..]) != |body| - k
  }

  lemma BodyReaches(body: string, rest: string)
    requires CounterBody(body, true, |body|)
    ensures var r := Body(body + rest, true);
            r.Split? && 0 < r.inner && r.inner + r.tail == |body| && Tail(body[r.inner..]) == r.tail
  {
    var s := body + rest;
    CloseExtends(body, rest, 1);
    assert s[..|body|] == body == body[..|body|];
    assert CounterBody(s, true, |body|);
    BodyRefinesCounter(s, true);
    var r := Body(s, true);
    BodyLeavesTail(s, true);
    assert s[r.inner..] == body[r.inner..] + rest;
    TailPrefix(body[r.inner..], rest, Start);
  }

  lemma BodyNoLaterThan(body: string, rest: string, i: nat)
    requires CounterBody(body, true, |body|)
    requires 0 < i < |body| && Tail(body[i..]) == |body| - i
    ensures Body(body + rest, true).Split? && Body(body + rest, true).inner <= i
  {
    var s := body + rest;
    CloseExtends(body, rest, 1);
    assert s[..|body|] == body == body[..|body|];
    assert CounterBody(s, true, |body|);
    assert s[i..] == body[i..] + rest;
    TailPrefix(body[i..], rest, Start);
    BodyStopsBy(s, true, i);
  }

  /** The scanner's split of a group is the one the declaration describes. */
  lemma BodySplits(body: string, rest: string, i: nat)
    requires CounterBody(body, true, |body|)
    requires i <= |body|
    ensures SplitsAt(body, i) <==> Body(body + rest, true) == Split(i, |body| - i)
  {
    BodyReaches(body, rest);
    var r := Body(body + rest, true);
    if SplitsAt(body, i) {
      BodyNoLaterThan(body, rest, i);
    } else if r.inner == i {
      var k :| 0 < k < i && Tail(body[k..]) == |body| - k;
      BodyNoLaterThan(body, rest, k);
    }
  }

  lemma CounterBodyOfGroup(full: string)
    requires CounterGroup(full, |full|)
    ensures CounterBody(full[1..], true, |full| - 1)
  {
    assert full[..|full|] == ['{'] + full[1..];
    EmptyPairConcat(['{'], full[1..]);
    assert full[1..][..|full| - 1] == full[1..];
  }

  lemma ModifiersPrefix(modifiers: string, rest: string)
    requires AllModifiers(modifiers)
    requires rest != [] && !IsModifier(rest[0])
    ensures Span(modifiers + rest, IsModifier) == |modifiers|
  {
    assert forall i :: 0 <= i < |modifiers| ==> (modifiers + rest)[i] == modifiers[i];
    assert (modifiers + rest)[|modifiers|] == rest[0];
  }

  /** The slices of a text that begins with full. */
  lemma Slices(full: string, rest: string, i: nat)
    requires 0 < |full| && i < |full|
    ensures (full + rest)[1..] == full[1..] + rest
    ensures (full + rest)[..|full|] == full
    ensures (full[1..] + rest)[..i] == full[1..][..i]
    ensures (full[1..] + rest)[i..|full| - 1] == full[1..][i..]
  {
  }

  lemma CaptureGroup(modifiers: string, full: string, inner: string, repeat: string, rest: string)
    requires CanonicalGroup(full, inner, repeat)
    requires Body(full[1..] + rest, true) == Split(|inner|, |full| - 1 - |inner|)
    requires Group(full + rest) > 0
    ensures Capture(modifiers, full + rest) == Placeholder(modifiers, full, inner, repeat)
  {
    Slices(full, rest, |inner|);
  }

  lemma GroupCaptured(modifiers: string, full: string, inner: string, repeat: string, rest: string)
    requires CanonicalGroup(full, inner, repeat)
    ensures Group(full + rest) == |full|
    ensures Capture(modifiers, full + rest) == Placeholder(modifiers, full, inner, repeat)
  {
    CounterGroupExtends(full, rest);
    BodyCaptured(full, |inner|, rest);
    CaptureGroup(modifiers, full, inner, repeat, rest);
  }

  lemma BodyCaptured(full: string, i: nat, rest: string)
    requires CounterGroup(full, |full|) && SplitsAt(full[1..], i)
    ensures Body(full[1..] + rest, true) == Split(i, |full| - 1 - i)
  {
    CounterBodyOfGroup(full);
    BodySplits(full[1..], rest, i);
  }

  /** A canonical match is found again in front of any text. */
  lemma MatchAtCanonical(m: Match, rest: string)
    requires Canonical(m)
    ensures MatchAt(m.Text() + rest) == Found(m)
  {
    if m.Character? {
      Regroup(m.modifiers, [m.character], rest);
      MatchAtCharacter(m.modifiers, m.character, rest);
    } else {
      Regroup(m.modifiers, m.full, rest);
      MatchAtGroup(m.modifiers, m.full, m.inner, m.repeat, rest);
    }
  }

  lemma MatchAtCharacter(modifiers: string, c: char, rest: string)
    requires AllModifiers(modifiers)
    requires c != '\n' && c != '{' && !IsModifier(c)
    ensures MatchAt(modifiers + ([c] + rest)) == Found(Character(modifiers, c))
  {
    ModifiersPrefix(modifiers, [c] + rest);
    MatchBehind(modifiers, [c] + rest);
  }

  lemma MatchAtGroup(modifiers: string, full: string, inner: string, repeat: string, rest: string)
    requires AllModifiers(modifiers) && CanonicalGroup(full, inner, repeat)
    ensures MatchAt(modifiers + (full + rest)) == Found(Placeholder(modifiers, full, inner, repeat))
  {
    GroupCaptured(modifiers, full, inner, repeat, rest);
    ModifiersPrefix(modifiers, full + rest);
    MatchBehind(modifiers, full + rest);
  }

  /** The match once the modifiers are out of the way. */
  lemma MatchBehind(modifiers: string, behind: string)
    requires behind != []
    requires Span(modifiers + behind, IsModifier) == |modifiers|
    ensures Group(behind) > 0 ==> MatchAt(modifiers + behind) == Found(Capture(modifiers, behind))
    ensures Group(behind) == 0 && behind[0] != '\n' ==>
              MatchAt(modifiers + behind) == Found(Character(modifiers, behind[0]))
  {
    assert (modifiers + behind)[|modifiers|..] == behind;
    assert (modifiers + behind)[..|modifiers|] == modifiers;
  }

  /** Scanning the printed form of any list of canonical matches returns the list. */
  lemma {:induction false} ScanTexts(ms: seq<Match>)
    requires forall m :: m in ms ==> Canonical(m)
    ensures Scan(Texts(ms)) == ms
  {
    if ms != [] {
      var s := Texts(ms);
      MatchAtCanonical(ms[0], Texts(ms[1..]));
      assert s[|ms[0].Text()|..] == Texts(ms[1..]);
      ScanTexts(ms[1..]);
    }
  }

  /** Every brace group the scanner captures is canonical. */
  lemma CaptureIsCanonical(modifiers: string, rest: string)
    requires Group(rest) > 0
    ensures var m := Capture(modifiers, rest); CanonicalGroup(m.full, m.inner, m.repeat)
  {
    var full := rest[..Group(rest)];
    var behind := rest[|full|..];
    assert rest == full + behind;
    GroupRefinesCounter(rest);
    CounterGroupRestricts(full, behind);
    CounterBodyOfGroup(full);
    var body := full[1..];
    var i := Body(rest[1..], true).inner;
    assert rest[1..] == body + behind;
    BodySplits(body, behind, i);
    assert (body + behind)[..i] == body[..i];
    assert (body + behind)[i..|body|] == body[i..];
  }

  lemma ScannedGroupIsCanonical(s: string)
    requires MatchAt(s).Found? && MatchAt(s).m.Placeholder?
    ensures Canonical(MatchAt(s).m)
  {
    var n := Span(s, IsModifier);
    CaptureIsCanonical(s[..n], s[n..]);
  }

  lemma {:induction false} CloseRestricts(s: string, rest: string, depth: nat)
    requires depth > 0 && Close(s + rest, depth).ClosedAfter? && Close(s + rest, depth).length <= |s|
    ensures Close(s, depth) == Close(s + rest, depth)
  {
    assert (s + rest)[0] == s[0];
    if s[0] == '}' && depth == 1 {
    } else {
      assert (s + rest)[1..] == s[1..] + rest;
      CloseRestricts(s[1..], rest, if s[0] == '{' then depth + 1 else if s[0] == '}' then depth - 1 else depth);
    }
  }

  lemma CounterGroupRestricts(full: string, rest: string)
    requires CounterGroup(full + rest, |full|)
    ensures CounterGroup(full, |full|)
  {
    var s := full + rest;
    assert s[1..] == full[1..] + rest;
    CloseRestricts(full[1..], rest, 1);
    assert s[..|full|] == full == full[..|full|];
  }
}
