/** The recursive brace group of the pattern, refined against a depth counter. */
module Nesting {
  import opened Text
  import opened Pattern

  datatype Closing = Unclosed | ClosedAfter(length: nat)

  /** Reads s with depth braces open; ClosedAfter(n) when the n-th character
      closes the last of them. */
  function Close(s: string, depth: nat): (r: Closing)
    requires depth > 0
    ensures r.ClosedAfter? ==> 0 < r.length <= |s|
  {
    if s == [] then Unclosed
    else if s[0] == '}' && depth == 1 then ClosedAfter(1)
    else
      match Close(s[1..], if s[0] == '{' then depth + 1 else if s[0] == '}' then depth - 1 else depth)
      case Unclosed => Unclosed
      case ClosedAfter(n) => ClosedAfter(n + 1)
  }

  predicate EmptyPairAt(s: string, i: int) {
    0 <= i < |s| - 1 && s[i] == '{' && s[i + 1] == '}'
  }

  /** Some brace is closed right after it was opened. */
  ghost predicate HasEmptyPair(s: string) {
    exists i :: EmptyPairAt(s, i)
  }

  /** What the counter says about a group that starts with a brace. */
  ghost predicate CounterGroup(s: string, n: nat) {
    && s != [] && s[0] == '{'
    && 0 < n <= |s|
    && Close(s[1..], 1) == ClosedAfter(n - 1)
    && !HasEmptyPair(s[..n])
  }

  /** Closing a + b braces is closing a of them and then b more. */
  lemma {:induction false} CloseAdds(s: string, a: nat, b: nat)
    requires a > 0 && b > 0
    ensures Close(s, a).Unclosed? ==> Close(s, a + b).Unclosed?
    ensures Close(s, a).ClosedAfter? ==>
              var n := Close(s, a).length;
              Close(s, a + b) == match Close(s[n..], b)
                                 case Unclosed => Unclosed
                                 case ClosedAfter(m) => ClosedAfter(n + m)
  {
    if s != [] {
      if s[0] == '}' && a == 1 {
      } else {
        var a' := if s[0] == '{' then a + 1 else if s[0] == '}' then a - 1 else a;
        CloseAdds(s[1..], a', b);
        if Close(s[1..], a').ClosedAfter? {
          var n := Close(s[1..], a').length;
          assert s[1..][n..] == s[n + 1..];
        }
      }
    }
  }

  lemma EmptyPairConcat(a: string, b: string)
    ensures HasEmptyPair(a + b) <==>
              HasEmptyPair(a) || HasEmptyPair(b) || (a != [] && b != [] && a[|a| - 1] == '{' && b[0] == '}')
  {
    var s := a + b;
    if HasEmptyPair(a) {
      var i :| EmptyPairAt(a, i);
      assert EmptyPairAt(s, i);
    }
    if HasEmptyPair(b) {
      var i :| EmptyPairAt(b, i);
      assert EmptyPairAt(s, |a| + i);
    }
    if a != [] && b != [] && a[|a| - 1] == '{' && b[0] == '}' {
      assert EmptyPairAt(s, |a| - 1);
    }
    if HasEmptyPair(s) {
      var i :| EmptyPairAt(s, i);
      assert EmptyPairAt(a, i) || EmptyPairAt(b, i - |a|) || i == |a| - 1;
    }
  }

  /** The rest of a body ends where the counter, with one brace open, ends. */
  ghost predicate CounterBody(s: string, empty: bool, n: nat) {
    && Close(s, 1) == ClosedAfter(n)
    && n <= |s|
    && !HasEmptyPair(s[..n])
    && (empty ==> s[0] != '}')
  }

  /** A tail is what the counter needs to close one brace. */
  lemma {:induction false} CounterOverTail(s: string, state: TailState)
    requires TailFrom(s, state) > 0
    ensures CounterBody(s, false, TailFrom(s, state))
  {
    if s[0] != '}' {
      CounterOverTail(s[1..], if IsSpace(s[0]) then InSpaces else InDigits);
      CounterOverCharacter(s, false, TailFrom(s, state));
    }
  }

  /** A prefix of a text without an empty pair has none. */
  lemma EmptyPairPrefix(s: string, k: nat, n: nat)
    requires k <= n <= |s| && HasEmptyPair(s[..k])
    ensures HasEmptyPair(s[..n])
  {
    assert s[..n] == s[..k] + s[k..n];
    EmptyPairConcat(s[..k], s[k..n]);
  }

  /** A single character that is no brace leaves the counter as it was. */
  lemma CounterOverCharacter(s: string, empty: bool, n: nat)
    requires s != [] && !IsBrace(s[0])
    ensures CounterBody(s, empty, n) <==> n > 0 && CounterBody(s[1..], false, n - 1)
  {
    if 0 < n <= |s| {
      assert s[..n] == [s[0]] + s[1..][..n - 1];
      EmptyPairConcat([s[0]], s[1..][..n - 1]);
    }
  }

  /** A nested group is closed by its own brace, and the counter goes on behind it. */
  lemma CounterOverGroup(s: string, empty: bool, k: nat, n: nat)
    requires CounterGroup(s, k)
    ensures CounterBody(s, empty, n) <==> n >= k && CounterBody(s[k..], false, n - k)
  {
    CloseAdds(s[1..], 1, 1);
    assert s[1..][k - 1..] == s[k..];
    if k <= n <= |s| {
      assert s[..n] == s[..k] + s[k..][..n - k];
      EmptyPairConcat(s[..k], s[k..][..n - k]);
      assert s[k - 1] == '}' by { CloseEndsInBrace(s[1..], 1); }
    }
  }

  lemma {:induction false} CloseEndsInBrace(s: string, depth: nat)
    requires depth > 0 && Close(s, depth).ClosedAfter?
    ensures s[Close(s, depth).length - 1] == '}'
  {
    if s[0] == '}' && depth == 1 {
    } else {
      CloseEndsInBrace(s[1..], if s[0] == '{' then depth + 1 else if s[0] == '}' then depth - 1 else depth);
    }
  }

  /** The counter cannot succeed where a nested group fails. */
  lemma CounterNeedsGroup(s: string, empty: bool, n: nat)
    requires s != [] && s[0] == '{'
    requires CounterBody(s, empty, n)
    ensures exists k :: CounterGroup(s, k)
  {
    CloseAdds(s[1..], 1, 1);
    var k := Close(s[1..], 1).length + 1;
    if HasEmptyPair(s[..k]) {
      EmptyPairPrefix(s, k, n);
    }
    assert CounterGroup(s, k);
  }

  lemma {:induction false} BodyRefinesCounter(s: string, empty: bool)
    ensures Body(s, empty).Split? ==> CounterBody(s, empty, Body(s, empty).inner + Body(s, empty).tail)
    ensures Body(s, empty).NoSplit? ==> forall n: nat :: !CounterBody(s, empty, n)
    decreases |s|, 2
  {
    if !empty && Tail(s) > 0 {
      CounterOverTail(s, Start);
    } else if s == [] || s[0] == '}' {
    } else if s[0] != '{' {
      BodyRefinesCounter(s[1..], false);
      forall n: nat
        ensures CounterBody(s, empty, n) <==> n > 0 && CounterBody(s[1..], false, n - 1)
      {
        CounterOverCharacter(s, empty, n);
      }
    } else {
      BodyOfGroupRefinesCounter(s, empty);
    }
  }

  lemma {:induction false} BodyOfGroupRefinesCounter(s: string, empty: bool)
    requires s != [] && s[0] == '{'
    requires empty || Tail(s) == 0
    ensures Body(s, empty).Split? ==> CounterBody(s, empty, Body(s, empty).inner + Body(s, empty).tail)
    ensures Body(s, empty).NoSplit? ==> forall n: nat :: !CounterBody(s, empty, n)
    decreases |s|, 1
  {
    GroupRefinesCounter(s);
    var k := Group(s);
    if k > 0 {
      BodyRefinesCounter(s[k..], false);
      forall n: nat
        ensures CounterBody(s, empty, n) <==> n >= k && CounterBody(s[k..], false, n - k)
      {
        CounterOverGroup(s, empty, k, n);
      }
      assert Item(s) == k;
    } else {
      forall n: nat
        ensures !CounterBody(s, empty, n)
      {
        if CounterBody(s, empty, n) {
          CounterNeedsGroup(s, empty, n);
        }
      }
    }
  }

  /** The brace group matches exactly where the depth counter finds the closing
      brace and no empty pair before it, and it ends at that brace. */
  lemma {:induction false} GroupRefinesCounter(s: string)
    requires s != [] && s[0] == '{'
    ensures forall n: nat :: n > 0 ==> (Group(s) == n <==> CounterGroup(s, n))
    ensures Group(s) == 0 <==> forall n: nat :: !CounterGroup(s, n)
    decreases |s|, 0
  {
    BodyRefinesCounter(s[1..], true);
    forall n: nat
      ensures CounterGroup(s, n) <==> n > 0 && CounterBody(s[1..], true, n - 1)
    {
      if 0 < n <= |s| {
        assert s[..n] == ['{'] + s[1..][..n - 1];
        EmptyPairConcat(['{'], s[1..][..n - 1]);
      }
    }
    if Group(s) > 0 {
      assert CounterGroup(s, Group(s));
    }
  }

  /** At an opening brace a match starts in any case: with the whole group if the counter finds
      one, with the brace alone, typed as it is, if not. */
  lemma BraceMatchesIff(s: string)
    requires s != [] && s[0] == '{'
    ensures MatchAt(s).Found?
    ensures MatchAt(s).m.Placeholder? <==> exists n: nat :: CounterGroup(s, n)
    ensures MatchAt(s).m.Placeholder? ==> CounterGroup(s, |MatchAt(s).m.full|) && MatchAt(s).m.modifiers == []
    ensures MatchAt(s).m.Character? ==> MatchAt(s).m == Character([], '{')
  {
    GroupRefinesCounter(s);
    assert Span(s, IsModifier) == 0 && s[0..] == s && s[..0] == [];
    if Group(s) > 0 {
      assert CounterGroup(s, Group(s));
    }
  }
}
