/** How far checking the syntax of a sequence foretells whether executing it will parse. */
module SyntaxCheck {
  import opened Text
  import opened Placeholders
  import KeyTable
  import opened Pattern
  import opened Nesting
  import opened Printing
  import opened Escapes
  import opened Compiler
  import opened Verdicts
  import RoundTrip

  /** Some match is faulty whatever the resolvers answer. */
  ghost predicate FixedlyFaulty(ts: seq<Token>, entry: Entry) {
    exists i :: 0 <= i < |ts| && FixedFault(ts[i], entry) != NoError
  }

  /** No resolver finds a fault. */
  ghost predicate ResolversAccept(ts: seq<Token>, host: Host) {
    forall i :: 0 <= i < |ts| ==> ResolverFault(ts[i], host.resolvers(i)) == NoError
  }

  lemma FaultlessIff(ts: seq<Token>, entry: Entry, host: Host)
    ensures FaultlessUpTo(ts, |ts|, entry, host) <==> !FixedlyFaulty(ts, entry) && ResolversAccept(ts, host)
  {
    if FaultlessUpTo(ts, |ts|, entry, host) {
      forall i | 0 <= i < |ts|
        ensures FixedFault(ts[i], entry) == NoError && ResolverFault(ts[i], host.resolvers(i)) == NoError
      {
        assert Fault(ts[i], i, entry, host) == NoError;
      }
    }
  }

  lemma EmptyHasNoTokens()
    ensures TokensOf([]) == [] && BracesCount(Rewrite([]))
  {
    assert Rewrite([]) == [] && Scan([]) == [];
  }

  /** Whether checking the syntax with one host foretells a parse with another. */
  ghost predicate Foretells(sequence: string, entry: MaybeEntry, host: Host, host': Host) {
    SyntaxValid(sequence, entry, host) <==> Parse(sequence, entry, host', false).Parsed?
  }

  /** Without an entry the check errs on the empty sequence alone. With one it foretells the parse,
      for any configuration, clock and picks at either time, exactly if the sequence is rejected
      whatever the resolvers answer, or the resolvers accept it both times or neither time. */
  lemma SyntaxForetells(sequence: string, entry: MaybeEntry, host: Host, host': Host)
    ensures Foretells(sequence, entry, host, host') <==>
              match entry
              case NoEntry => sequence != []
              case Given(e) =>
                var ts := TokensOf(sequence);
                || !BracesCount(Rewrite(sequence)) || FixedlyFaulty(ts, e)
                || (ResolversAccept(ts, host) <==> ResolversAccept(ts, host'))
  {
    AcceptedIff(sequence, entry, host, true);
    AcceptedIff(sequence, entry, host', false);
    if entry.Given? {
      FaultlessIff(TokensOf(sequence), entry.entry, host);
      FaultlessIff(TokensOf(sequence), entry.entry, host');
    }
    if sequence == [] {
      EmptyHasNoTokens();
    }
  }

  /** Resolvers that accept everything, and resolvers that accept nothing. */
  function Lenient(): Resolvers {
    Resolvers(s => if s == [] then "x" else [], _ => ([], []), _ => ([], []))
  }

  function Strict(): Resolvers {
    Resolvers(s => s, _ => ([], "no"), _ => ([], "no"))
  }

  function HostWith(r: Resolvers): Host {
    Host(0, 0, _ => 0, _ => Cancelled, _ => r)
  }

  lemma LenientAccept(t: Token)
    ensures ResolverFault(t, Lenient()) == NoError
    ensures ResolverFault(t, Strict()) == NoError <==> !AsksResolver(t)
  {
  }

  /** The check of a sequence is reliable, whatever happens between it and the parse, exactly if
      no resolver is asked about the sequence or it is rejected whatever they answer. */
  lemma ReliableIff(sequence: string, entry: Entry)
    ensures (forall host, host' :: Foretells(sequence, Given(entry), host, host')) <==>
              var ts := TokensOf(sequence);
              || !BracesCount(Rewrite(sequence)) || FixedlyFaulty(ts, entry)
              || forall i :: 0 <= i < |ts| ==> !AsksResolver(ts[i])
  {
    var ts := TokensOf(sequence);
    forall host, host'
      ensures Foretells(sequence, Given(entry), host, host') <==>
                || !BracesCount(Rewrite(sequence)) || FixedlyFaulty(ts, entry)
                || (ResolversAccept(ts, host) <==> ResolversAccept(ts, host'))
    {
      SyntaxForetells(sequence, Given(entry), host, host');
    }
    var lenient, strict := HostWith(Lenient()), HostWith(Strict());
    forall i | 0 <= i < |ts|
      ensures ResolverFault(ts[i], lenient.resolvers(i)) == NoError
      ensures ResolverFault(ts[i], strict.resolvers(i)) == NoError <==> !AsksResolver(ts[i])
    {
      LenientAccept(ts[i]);
    }
    if forall host, host' :: Foretells(sequence, Given(entry), host, host') {
      assert Foretells(sequence, Given(entry), lenient, strict);
    }
  }

  // ---------------------------------------------------------------------
  // A sequence whose check is not reliable
  // ---------------------------------------------------------------------

  /** A text that the escape rewriting leaves alone, since none of its braces starts an escape. */
  ghost predicate NoEscapes(s: string) {
    RoundTrip.Inert(s, '{') && RoundTrip.Inert(s, '}')
  }

  lemma RewriteAlone(s: string)
    requires NoEscapes(s)
    ensures Rewrite(s) == s
  {
    assert s + [] == s;
    RoundTrip.ReplaceSkips(s, [], LEFT_ESCAPE, LEFT_NAME);
    RoundTrip.ReplaceSkips(s, [], RIGHT_ESCAPE, RIGHT_NAME);
  }

  lemma {:induction false} BalancedExcess(s: string, depth: nat)
    requires Balanced(s, depth)
    ensures Excess(s) + depth == 0
  {
    if s != [] {
      BalancedExcess(s[1..], if s[0] == '{' then depth + 1 else if s[0] == '}' then depth - 1 else depth);
    }
  }

  lemma PrintedBalances(inner: string)
    requires Balanced(inner, 0)
    ensures BracesCount(PrintGroup(inner, []))
  {
    BalancedExcess(inner, 0);
    ExcessConcat("{", inner + "}");
    ExcessConcat(inner, "}");
  }

  /** A printed name alone in a sequence is its only match. */
  lemma TokensOfPrinted(inner: string)
    requires inner != [] && Balanced(inner, 0) && !HasEmptyPair(inner) && !EndsLikeCount(inner, [])
    requires NoEscapes(PrintGroup(inner, []))
    ensures TokensOf(PrintGroup(inner, [])) == [TokenOf(Placeholder([], PrintGroup(inner, []), inner, []))]
    ensures BracesCount(Rewrite(PrintGroup(inner, [])))
  {
    var m := Placeholder([], PrintGroup(inner, []), inner, []);
    RewriteAlone(PrintGroup(inner, []));
    PrintedBalances(inner);
    PrintedIsCanonicalIff(inner, []);
    RoundTrip.ScanOne(m);
    TextsOfOne(m, PrintGroup(inner, []));
  }

  lemma TextsOfOne(m: Match, full: string)
    requires m.Placeholder? && m.modifiers == [] && m.full == full
    ensures Texts([m]) == full
  {
    assert [m][1..] == [];
    assert [] + full + [] == full;
  }

  /** A regular-expression placeholder alone in a sequence: its resolver decides. */
  lemma RegexAlone(inner: string, entry: Entry, host: Host, syntaxOnly: bool)
    requires "t-replace-rx:" <= Lower(inner)
    requires Balanced(inner, 0) && !HasEmptyPair(inner) && !EndsLikeCount(inner, [])
    requires NoEscapes(PrintGroup(inner, []))
    ensures ErrorOf(Parse(PrintGroup(inner, []), Given(entry), host, syntaxOnly))
         == MessageError(host.resolvers(0).replace(inner).1)
    ensures Parse(PrintGroup(inner, []), Given(entry), host, syntaxOnly).Parsed?
       <==> host.resolvers(0).replace(inner).1 == []
  {
    TokensOfPrinted(inner);
    KeyTable.ConversionCommands(Lower(inner));
    var t := Token(Placeholder([], PrintGroup(inner, []), inner, []), RegexReplacement);
    RegexFault(TokensOf(PrintGroup(inner, [])), t, entry, host);
    ParseFaults(PrintGroup(inner, []), Given(entry), host, syntaxOnly);
  }

  lemma RegexFault(ts: seq<Token>, t: Token, entry: Entry, host: Host)
    requires ts == [t] && t.m.Placeholder? && t.kind.RegexReplacement?
    ensures FirstFault(ts, 0, entry, host) == MessageError(host.resolvers(0).replace(t.m.inner).1)
  {
  }

  lemma {:induction false} PlainSkips(plain: string, s: string, depth: nat)
    requires forall i :: 0 <= i < |plain| ==> !IsBrace(plain[i])
    ensures Balanced(plain + s, depth) <==> Balanced(s, depth)
  {
    if plain == [] {
      assert plain + s == s;
    } else {
      assert (plain + s)[1..] == plain[1..] + s;
      PlainSkips(plain[1..], s, depth);
    }
  }

  /** A name with one plain placeholder in it. */
  lemma NestedName(a: string, b: string, c: string)
    requires forall i :: 0 <= i < |a| ==> !IsBrace(a[i])
    requires forall i :: 0 <= i < |b| ==> !IsBrace(b[i])
    requires forall i :: 0 <= i < |c| ==> !IsBrace(c[i])
    requires b != []
    ensures Balanced(a + ("{" + (b + ("}" + c))), 0)
    ensures !HasEmptyPair(a + ("{" + (b + ("}" + c))))
  {
    var d := "}" + c;
    assert d[1..] == c && ("{" + (b + d))[1..] == b + d;
    PlainBalanced(a);
    PlainBalanced(b);
    PlainBalanced(c);
    PlainSkips(b, d, 1);
    PlainSkips(a, "{" + (b + d), 0);
    EmptyPairConcat("}", c);
    EmptyPairConcat(b, d);
    EmptyPairConcat("{", b + d);
    EmptyPairConcat(a, "{" + (b + d));
  }

  lemma {:induction false} InertConcat(a: string, b: string, second: char)
    requires RoundTrip.Inert(a, second) && RoundTrip.Inert(b, second)
    ensures RoundTrip.Inert(a + b, second)
  {
  }

  lemma InertWithoutOpening(s: string, second: char)
    requires '{' !in s
    ensures RoundTrip.Inert(s, second)
  {
  }

  lemma NestedIsInert(a: string, b: string, c: string, second: char)
    requires a != [] && b != [] && '{' !in a && '{' !in b && '{' !in c
    requires a[0] != second && b[0] != second
    ensures RoundTrip.Inert("{" + (a + ("{" + (b + c))), second)
  {
    InertWithoutOpening(a, second);
    InertWithoutOpening(b + c, second);
    InertBehind(b + c, second);
    InertConcat(a, "{" + (b + c), second);
    InertBehind(a + ("{" + (b + c)), second);
  }

  lemma InertBehind(s: string, second: char)
    requires RoundTrip.Inert(s, second) && s != [] && s[0] != second
    ensures RoundTrip.Inert("{" + s, second)
  {
  }

  lemma CountEndsInDigit(inner: string)
    requires EndsLikeCount(inner, [])
    ensures inner != [] && IsDigit(inner[|inner| - 1])
  {
    var k :| 0 < k < |inner| && PartOfCount(inner[k..], []);
    var x := inner[k..];
    var n := Span(x, IsSpace);
    assert x[n..][|x| - n - 1] == inner[|inner| - 1];
  }

  const BEFORE_SECOND: string := "T-REPLACE-RX:/a/[3-"
  const SECOND: string := "DT_SECOND"
  const AFTER_SECOND: string := "]/b/"
  const BY_SECOND: string := "T-REPLACE-RX:/a/[3-{DT_SECOND}]/b/"

  lemma BySecondParts()
    ensures BY_SECOND == BEFORE_SECOND + ("{" + (SECOND + ("}" + AFTER_SECOND)))
    ensures forall i :: 0 <= i < |BEFORE_SECOND| ==> !IsBrace(BEFORE_SECOND[i])
    ensures forall i :: 0 <= i < |SECOND| ==> !IsBrace(SECOND[i])
    ensures forall i :: 0 <= i < |AFTER_SECOND| ==> !IsBrace(AFTER_SECOND[i])
  {
  }

  lemma BySecondIsRegex()
    ensures "t-replace-rx:" <= Lower(BY_SECOND)
  {
    assert "T-REPLACE-RX:" <= BY_SECOND;
    LowerKeyword(BY_SECOND);
  }

  lemma LowerKeyword(s: string)
    requires "T-REPLACE-RX:" <= s
    ensures "t-replace-rx:" <= Lower(s)
  {
    assert s[..13] == "T-REPLACE-RX:";
    assert Lower("T-REPLACE-RX:") == "t-replace-rx:";
    assert Lower(s)[..13] == Lower(s[..13]);
  }

  lemma BySecondEnds()
    ensures !EndsLikeCount(BY_SECOND, [])
  {
    assert |BY_SECOND| == 34 && BY_SECOND[33] == '/';
    if EndsLikeCount(BY_SECOND, []) {
      CountEndsInDigit(BY_SECOND);
    }
  }

  lemma BySecondIsPlain()
    ensures Balanced(BY_SECOND, 0) && !HasEmptyPair(BY_SECOND)
  {
    BySecondParts();
    NestedName(BEFORE_SECOND, SECOND, AFTER_SECOND);
  }

  lemma BySecondHasNoEscapes()
    ensures NoEscapes(PrintGroup(BY_SECOND, []))
  {
    BySecondWhole();
    NestedIsInert(BEFORE_SECOND, SECOND, "}]/b/}", '{');
    NestedIsInert(BEFORE_SECOND, SECOND, "}]/b/}", '}');
  }

  lemma BySecondWhole()
    ensures PrintGroup(BY_SECOND, []) == "{" + (BEFORE_SECOND + ("{" + (SECOND + "}]/b/}")))
  {
  }

  /** A sequence that passes the check at one second and fails the parse at another: the inner
      placeholder makes the range of the expression valid or not. The resolver's two answers are
      all that the two runs need to differ in. */
  lemma ForetellingCanFail(entry: Entry, host: Host, host': Host)
    requires host.resolvers(0).replace(BY_SECOND).1 == []
    requires host'.resolvers(0).replace(BY_SECOND).1 != []
    ensures var sequence := "{T-REPLACE-RX:/a/[3-{DT_SECOND}]/b/}";
            && SyntaxValid(sequence, Given(entry), host)
            && Parse(sequence, Given(entry), host', false)
               == Rejected(ResolverError(host'.resolvers(0).replace(BY_SECOND).1))
  {
    BySecondPrinted();
    BySecondIsRegex();
    BySecondEnds();
    BySecondIsPlain();
    BySecondHasNoEscapes();
    RegexTwice("{T-REPLACE-RX:/a/[3-{DT_SECOND}]/b/}", BY_SECOND, entry, host, host');
  }

  lemma BySecondPrinted()
    ensures "{T-REPLACE-RX:/a/[3-{DT_SECOND}]/b/}" == PrintGroup(BY_SECOND, [])
  {
  }

  lemma RegexTwice(sequence: string, inner: string, entry: Entry, host: Host, host': Host)
    requires sequence == PrintGroup(inner, []) && "t-replace-rx:" <= Lower(inner)
    requires Balanced(inner, 0) && !HasEmptyPair(inner) && !EndsLikeCount(inner, []) && NoEscapes(sequence)
    requires host.resolvers(0).replace(inner).1 == []
    requires host'.resolvers(0).replace(inner).1 != []
    ensures SyntaxValid(sequence, Given(entry), host)
    ensures Parse(sequence, Given(entry), host', false) == Rejected(ResolverError(host'.resolvers(0).replace(inner).1))
  {
    RegexAlone(inner, entry, host, true);
    RegexAlone(inner, entry, host', false);
  }
}
