/** Escaping a text, compiling it and running the result types the text. */
module RoundTrip {
  import opened Text
  import opened Actions
  import opened Placeholders
  import KeyTable
  import opened Pattern
  import opened Tokens
  import opened Printing
  import opened Escapes
  import opened Compiler
  import opened Execution
  import Session
  import Reentrancy

  // ---------------------------------------------------------------------
  // Escaping, and the matches that escaped characters become
  // ---------------------------------------------------------------------

  function EscapeCharacter(c: char): string {
    if c == '{' then LEFT_ESCAPE
    else if c == '}' then RIGHT_ESCAPE
    else if IsModifier(c) then ['{', c, '}']
    else [c]
  }

  function Escape(text: string): string {
    if text == [] then [] else EscapeCharacter(text[0]) + Escape(text[1..])
  }

  /** The text once left escapes are rewritten. */
  function HalfCharacter(c: char): string {
    if c == '{' then LEFT_NAME else EscapeCharacter(c)
  }

  function Half(text: string): string {
    if text == [] then [] else HalfCharacter(text[0]) + Half(text[1..])
  }

  function NameOf(c: char): string {
    if c == '{' then "LEFTBRACE" else if c == '}' then "RIGHTBRACE" else [c]
  }

  function MatchOf(c: char): Match {
    if IsBrace(c) || IsModifier(c) then Placeholder([], PrintGroup(NameOf(c), []), NameOf(c), [])
    else Character([], c)
  }

  function MatchesOf(text: string): (ms: seq<Match>)
    ensures |ms| == |text|
  {
    if text == [] then [] else [MatchOf(text[0])] + MatchesOf(text[1..])
  }

  // ---------------------------------------------------------------------
  // Rewriting an escaped text
  // ---------------------------------------------------------------------

  /** No brace of the piece is the start of a match, whatever comes behind the piece. */
  predicate Inert(piece: string, second: char) {
    forall i :: 0 <= i < |piece| && piece[i] == '{' ==> i + 1 < |piece| && piece[i + 1] != second
  }

  lemma {:induction false} ReplaceSkips(piece: string, rest: string, pattern: string, substitute: string)
    requires |pattern| > 1 && pattern[0] == '{' && Inert(piece, pattern[1])
    ensures ReplaceAll(piece + rest, pattern, substitute) == piece + ReplaceAll(rest, pattern, substitute)
  {
    var s := piece + rest;
    if piece == [] {
      assert s == rest;
    } else {
      assert s[0] == piece[0] && (|piece| > 1 ==> s[1] == piece[1]);
      assert Inert(piece[1..], pattern[1]);
      ReplaceSkips(piece[1..], rest, pattern, substitute);
      assert s[1..] == piece[1..] + rest;
    }
  }

  lemma ReplaceFront(rest: string, pattern: string, substitute: string)
    requires |pattern| > 0
    ensures ReplaceAll(pattern + rest, pattern, substitute) == substitute + ReplaceAll(rest, pattern, substitute)
  {
    assert (pattern + rest)[|pattern|..] == rest;
  }

  lemma {:induction false} LeftOfEscaped(text: string)
    ensures RewriteLeft(Escape(text)) == Half(text)
  {
    if text != [] {
      LeftOfEscaped(text[1..]);
      if text[0] == '{' {
        ReplaceFront(Escape(text[1..]), LEFT_ESCAPE, LEFT_NAME);
      } else {
        ReplaceSkips(EscapeCharacter(text[0]), Escape(text[1..]), LEFT_ESCAPE, LEFT_NAME);
      }
    }
  }

  lemma PrintedNames()
    ensures PrintGroup("LEFTBRACE", []) == LEFT_NAME
    ensures PrintGroup("RIGHTBRACE", []) == RIGHT_NAME
  {
  }

  lemma PrintedModifier(c: char)
    ensures PrintGroup([c], []) == ['{', c, '}']
  {
  }

  lemma TextOfGroup(group: string, name: string)
    ensures Placeholder([], group, name, []).Text() == group
  {
  }

  lemma TextOfMatch(c: char)
    ensures MatchOf(c).Text() == if c == '}' then RIGHT_NAME else HalfCharacter(c)
  {
    if IsBrace(c) {
      PrintedNames();
      TextOfGroup(PrintGroup(NameOf(c), []), NameOf(c));
    } else if IsModifier(c) {
      PrintedModifier(c);
      TextOfGroup(PrintGroup(NameOf(c), []), NameOf(c));
    } else {
      assert [] + [c] == [c];
    }
  }

  lemma TextsCons(text: string)
    requires text != []
    ensures Texts(MatchesOf(text)) == MatchOf(text[0]).Text() + Texts(MatchesOf(text[1..]))
  {
    assert MatchesOf(text)[1..] == MatchesOf(text[1..]);
  }

  lemma HalfIsInert(c: char)
    requires c != '}'
    ensures Inert(HalfCharacter(c), '}')
  {
  }

  /** The second replacement behind the escape of one character. */
  lemma RightOfCharacter(c: char, rest: string)
    ensures RewriteRight(HalfCharacter(c) + rest) == MatchOf(c).Text() + RewriteRight(rest)
  {
    TextOfMatch(c);
    if c == '}' {
      ReplaceFront(rest, RIGHT_ESCAPE, RIGHT_NAME);
    } else {
      HalfIsInert(c);
      ReplaceSkips(HalfCharacter(c), rest, RIGHT_ESCAPE, RIGHT_NAME);
    }
  }

  lemma {:induction false} RightOfHalf(text: string)
    ensures RewriteRight(Half(text)) == Texts(MatchesOf(text))
  {
    if text != [] {
      RightOfHalf(text[1..]);
      RightOfCharacter(text[0], Half(text[1..]));
      TextsCons(text);
    }
  }

  /** Rewriting an escaped text prints the matches of its characters. */
  lemma RewriteOfEscaped(text: string)
    ensures Rewrite(Escape(text)) == Texts(MatchesOf(text))
  {
    LeftOfEscaped(text);
    RightOfHalf(text);
  }

  // ---------------------------------------------------------------------
  // Scanning it
  // ---------------------------------------------------------------------

  lemma MatchIsCanonical(c: char)
    requires c != '\n'
    ensures Canonical(MatchOf(c))
  {
    if IsBrace(c) || IsModifier(c) {
      PlainGroupIsCanonical(NameOf(c), []);
    }
  }

  /** The text without its line breaks. */
  function WithoutBreaks(text: string): (r: string)
    ensures '\n' !in r
  {
    if text == [] then []
    else if text[0] == '\n' then WithoutBreaks(text[1..])
    else [text[0]] + WithoutBreaks(text[1..])
  }

  lemma {:induction false} NoBreaksIff(text: string)
    ensures |WithoutBreaks(text)| <= |text|
    ensures WithoutBreaks(text) == text <==> '\n' !in text
  {
    if text != [] {
      NoBreaksIff(text[1..]);
      if text[0] != '\n' {
        assert text == [text[0]] + text[1..];
        assert ([text[0]] + WithoutBreaks(text[1..]))[1..] == WithoutBreaks(text[1..]);
      }
    }
  }

  lemma ScanBehind(m: Match, rest: string)
    requires Canonical(m)
    ensures Scan(m.Text() + rest) == [m] + Scan(rest)
  {
    MatchAtCanonical(m, rest);
    assert (m.Text() + rest)[|m.Text()|..] == rest;
  }

  lemma ScanBreak(rest: string)
    ensures Scan("\n" + rest) == Scan(rest)
  {
    NoMatchIsNewline("\n" + rest);
    assert ("\n" + rest)[1..] == rest;
  }

  lemma KeptCons(text: string)
    requires text != [] && text[0] != '\n'
    ensures MatchesOf(WithoutBreaks(text)) == [MatchOf(text[0])] + MatchesOf(WithoutBreaks(text[1..]))
  {
    assert WithoutBreaks(text)[1..] == WithoutBreaks(text[1..]);
  }

  lemma {:induction false} ScanOfTexts(text: string)
    ensures Scan(Texts(MatchesOf(text))) == MatchesOf(WithoutBreaks(text))
  {
    if text != [] {
      ScanOfTexts(text[1..]);
      TextsCons(text);
      var rest := Texts(MatchesOf(text[1..]));
      if text[0] == '\n' {
        ScanBreak(rest);
      } else {
        KeptCons(text);
        MatchIsCanonical(text[0]);
        ScanBehind(MatchOf(text[0]), rest);
      }
    }
  }

  /** Scanning the rewritten text finds one match for each of its characters but line breaks. */
  lemma ScanOfEscaped(text: string)
    ensures Scan(Rewrite(Escape(text))) == MatchesOf(WithoutBreaks(text))
  {
    RewriteOfEscaped(text);
    ScanOfTexts(text);
  }

  lemma GroupBalances(inner: string)
    requires forall i :: 0 <= i < |inner| ==> !IsBrace(inner[i])
    ensures Excess(PrintGroup(inner, [])) == 0
  {
    NoBraces(inner);
    ExcessConcat("{", inner + "}");
    ExcessConcat(inner, "}");
  }

  lemma MatchBalances(c: char)
    ensures Excess(MatchOf(c).Text()) == 0
  {
    if IsBrace(c) || IsModifier(c) {
      GroupBalances(NameOf(c));
      assert MatchOf(c).Text() == PrintGroup(NameOf(c), []);
    } else {
      assert MatchOf(c).Text() == [c];
      NoBraces([c]);
    }
  }

  lemma {:induction false} EscapedBalances(text: string)
    ensures Excess(Texts(MatchesOf(text))) == 0
  {
    if text != [] {
      EscapedBalances(text[1..]);
      MatchBalances(text[0]);
      ExcessConcat(MatchOf(text[0]).Text(), Texts(MatchesOf(text[1..])));
      TextsCons(text);
    }
  }

  // ---------------------------------------------------------------------
  // Compiling it
  // ---------------------------------------------------------------------

  /** The action that types one character. */
  function KeyFor(c: char): Action {
    if IsBrace(c) then TypeKey(Printable(c), NO_MODIFIERS) else TypeCharacter(c, NO_MODIFIERS)
  }

  function KeysFor(text: string): (r: seq<Action>)
    ensures |r| == |text|
  {
    seq(|text|, i requires 0 <= i < |text| => KeyFor(text[i]))
  }

  lemma LowerNames()
    ensures Lower("LEFTBRACE") == "leftbrace" && Lower("RIGHTBRACE") == "rightbrace"
  {
  }

  lemma ModifierNames(c: char)
    requires IsModifier(c)
    ensures Lower([c]) == [c] && FindKey([c]) == Present(Unknown)
  {
    assert OWN_NAMES[6] == '+' && OWN_NAMES[7] == '%' && OWN_NAMES[8] == '^' && OWN_NAMES[10] == '#';
  }

  /** The branch that an escaped special character takes. */
  lemma KindOfSpecial(c: char)
    requires IsBrace(c) || IsModifier(c)
    ensures Classify(Lower(NameOf(c))) == KeyPlaceholder(if IsBrace(c) then Printable(c) else Unknown)
  {
    LowerNames();
    KeyTable.BracesHaveKeys();
    if IsModifier(c) {
      ModifierNames(c);
    }
  }

  lemma SpecialStep(c: char, kind: Kind, i: nat, entry: Entry, host: Host, syntaxOnly: bool, elapsedMs: int)
    requires IsBrace(c) || IsModifier(c)
    requires kind == KeyPlaceholder(if IsBrace(c) then Printable(c) else Unknown)
    ensures PlaceholderStep(MatchOf(c), kind, i, entry, host, syntaxOnly, elapsedMs) == Emit([KeyFor(c)], 0)
  {
    assert Repeated(KeyFor(c), 1) == [KeyFor(c)];
    if IsModifier(c) {
      ModifierNames(c);
    }
  }

  lemma CharacterStep(c: char, i: nat, entry: Entry, host: Host, syntaxOnly: bool, elapsedMs: int)
    ensures MatchStep(TokenOf(MatchOf(c)), i, entry, host, syntaxOnly, elapsedMs) == Emit([KeyFor(c)], 0)
  {
    if IsBrace(c) || IsModifier(c) {
      KindOfSpecial(c);
      SpecialStep(c, Classify(Lower(NameOf(c))), i, entry, host, syntaxOnly, elapsedMs);
    }
  }

  lemma {:induction false} MatchesOfAt(text: string, i: nat)
    requires i < |text|
    ensures MatchesOf(text)[i] == MatchOf(text[i])
  {
    if i > 0 {
      MatchesOfAt(text[1..], i - 1);
    }
  }

  lemma {:induction false} CompileEscaped(text: string, i: nat, entry: Entry, host: Host, syntaxOnly: bool, p: Progress)
    requires i <= |text|
    ensures CompileFrom(Tokenize(MatchesOf(text)), i, entry, host, syntaxOnly, p)
         == Parsed(p.actions + KeysFor(text[i..]))
    decreases |text| - i
  {
    if i == |text| {
      assert p.actions + KeysFor(text[i..]) == p.actions;
    } else {
      MatchesOfAt(text, i);
      CharacterStep(text[i], i, entry, host, syntaxOnly, ElapsedMs(host, p));
      CompileEscaped(text, i + 1, entry, host, syntaxOnly, Progress(p.actions + [KeyFor(text[i])], p.cumulativeDelay));
      KeysOneMore(p.actions, text, i);
      CompileOne(Tokenize(MatchesOf(text)), i, entry, host, syntaxOnly, p, KeyFor(text[i]));
    }
  }

  lemma KeysOneMore(before: seq<Action>, text: string, i: nat)
    requires i < |text|
    ensures before + KeysFor(text[i..]) == before + [KeyFor(text[i])] + KeysFor(text[i + 1..])
  {
  }

  lemma CompileOne(ts: seq<Token>, i: nat, entry: Entry, host: Host, syntaxOnly: bool, p: Progress, a: Action)
    requires i < |ts|
    requires MatchStep(ts[i], i, entry, host, syntaxOnly, ElapsedMs(host, p)) == Emit([a], 0)
    ensures CompileFrom(ts, i, entry, host, syntaxOnly, p)
         == CompileFrom(ts, i + 1, entry, host, syntaxOnly, Progress(p.actions + [a], p.cumulativeDelay))
  {
  }

  /** An escaped text compiles to one unmodified key for each of its characters but line breaks. */
  lemma {:induction false} EscapedTextCompiles(text: string, entry: Entry, host: Host, syntaxOnly: bool)
    ensures Parse(Escape(text), Given(entry), host, syntaxOnly)
         == Parsed(Compiler.Start(host).actions + KeysFor(WithoutBreaks(text)))
  {
    RewriteOfEscaped(text);
    EscapedBalances(text);
    ScanOfEscaped(text);
    var kept := WithoutBreaks(text);
    CompileEscaped(kept, 0, entry, host, syntaxOnly, Compiler.Start(host));
    assert kept[0..] == kept;
  }

  // ---------------------------------------------------------------------
  // Running it
  // ---------------------------------------------------------------------

  function TypedText(actions: seq<Action>): string {
    if actions == [] then [] else Glyph(actions[0]) + TypedText(actions[1..])
  }

  /** A platform that lets everything through, with a window that does not change. */
  ghost predicate Obliging(p: Platform, window: int) {
    (forall i :: p.activeWindow(i) == window) && forall i, k :: p.answer(i, k) == Ok
  }

  lemma {:induction false} ObligingRun(actions: seq<Action>, i: nat, window: int, p: Platform, e: ExecutorState)
    requires i <= |actions| && Obliging(p, window)
    ensures var r := RunFrom(actions, i, window, p, e);
            r.completed == |actions| && Successes(r.attempts) == actions[i..] && |r.attempts| == |actions| - i
    decreases |actions| - i
  {
    if i < |actions| {
      var t := TryFrom(actions[i], i, 1, p, e);
      ObligingRun(actions, i + 1, window, p, t.executor);
      var later := RunFrom(actions, i + 1, window, p, t.executor);
      assert (t.attempts + later.attempts)[1..] == later.attempts;
    }
  }

  lemma {:induction false} KeysTypeText(text: string)
    ensures TypedText(KeysFor(text)) == text
  {
    if text != [] {
      KeysTypeText(text[1..]);
      assert KeysFor(text)[1..] == KeysFor(text[1..]);
    }
  }

  /** The initial actions type nothing. */
  lemma StartTypesNothing(host: Host, text: string)
    ensures var actions := Compiler.Start(host).actions + KeysFor(text);
            && TypedText(actions) == text
            && forall a :: a in actions && a.Type? ==> a.modifiers == NO_MODIFIERS
  {
    KeysTypeText(text);
    TypedBehind(Begin, Delay(host.TypingDelay(), true), KeysFor(text));
    assert Compiler.Start(host).actions == [Begin, Delay(host.TypingDelay(), true)];
  }

  lemma TypedBehind(a: Action, b: Action, rest: seq<Action>)
    requires Glyph(a) == Glyph(b) == []
    ensures TypedText([a, b] + rest) == TypedText(rest)
  {
    assert ([a, b] + rest)[1..] == [b] + rest && ([b] + rest)[1..] == rest;
  }

  /** The round trip: escaping, compiling and running any text gives no error, completes, and
      types the text without its line breaks, one key for each character and no modifier on
      any key. So exactly the texts without a line break are typed as they are. */
  lemma {:induction false} EscapedTextIsTyped(text: string, entry: Entry, host: Host, window: int,
                                              p: Platform, e: ExecutorState)
    requires Obliging(p, window)
    ensures var outcome := Parse(Escape(text), Given(entry), host, false);
            && outcome.Parsed?
            && var r := RunFrom(outcome.actions, 0, window, p, e);
               && r.completed == |outcome.actions| == |WithoutBreaks(text)| + 2
               && Successes(r.attempts) == outcome.actions
               && TypedText(outcome.actions) == WithoutBreaks(text)
               && (TypedText(outcome.actions) == text <==> '\n' !in text)
               && forall a :: a in outcome.actions && a.Type? ==> a.modifiers == NO_MODIFIERS
  {
    EscapedTextCompiles(text, entry, host, false);
    var kept := WithoutBreaks(text);
    NoBreaksIff(text);
    var actions := Compiler.Start(host).actions + KeysFor(kept);
    StartTypesNothing(host, kept);
    WholeRun(actions, window, p, e);
  }

  lemma WholeRun(actions: seq<Action>, window: int, p: Platform, e: ExecutorState)
    requires Obliging(p, window)
    ensures var r := RunFrom(actions, 0, window, p, e);
            r.completed == |actions| && Successes(r.attempts) == actions
  {
    ObligingRun(actions, 0, window, p, e);
    assert actions[0..] == actions;
  }

  /** The same on the Auto-Type object: an execution that finds the run lock free types the text,
      whatever the event loop delivers before, during and between its actions. */
  lemma EscapedTextIsTypedUndisturbed(text: string, entry: Entry, s: Session.State, run: Session.Run,
                                      window: int, mode: Mode)
    returns (attempts: seq<Attempt>)
    requires Reentrancy.Inv(s) && !s.inAutoType
    requires run.sequence == Escape(text) && run.entry == Given(entry)
    requires Obliging(Session.PlatformOf(run), if window == 0 then run.foreground else window)
    ensures var parsed := Session.Deliver(Session.Begun(s), run.parsing);
            Reentrancy.Watch(Session.Execute(s, run, window, mode).log).attempts
            == Reentrancy.Watch(parsed.log).attempts + attempts
    ensures TypedText(Successes(attempts)) == WithoutBreaks(text)
    ensures forall a :: a in Successes(attempts) && a.Type? ==> a.modifiers == NO_MODIFIERS
  {
    var target := if window == 0 then run.foreground else window;
    var p := Session.PlatformOf(run);
    var e := Session.Deliver(Session.Begun(s), run.parsing).executor.(mode := mode);
    var actions := Compiler.Start(run.host).actions + KeysFor(WithoutBreaks(text));
    EscapedTextCompiles(text, entry, run.host, false);
    Reentrancy.ExecutionIsUndisturbed(s, run, window, mode, actions);
    StartTypesNothing(run.host, WithoutBreaks(text));
    WholeRun(actions, target, p, e);
    attempts := RunFrom(actions, 0, target, p, e).attempts;
  }

  // ---------------------------------------------------------------------
  // The expansion bound is met
  // ---------------------------------------------------------------------

  /** Six characters that make ninety-nine actions. */
  lemma ExpansionIsTight(entry: Entry, host: Host)
    ensures var outcome := Parse("{+ 99}", Given(entry), host, false);
            && outcome.Parsed? && Rewrite("{+ 99}") == "{+ 99}"
            && 2 * (|outcome.actions| - 2) == 33 * |Rewrite("{+ 99}")|
  {
    hide Rewrite, Scan, Classify, FindKey, CompileFrom;
    TightRewrite();
    TightScan();
    ModifierNames('+');
    TightCount();
    TightStep(Placeholder([], PrintGroup("+", "99"), "+", "99"), entry, host);
  }

  lemma TightScan()
    ensures Scan("{+ 99}") == [Placeholder([], PrintGroup("+", "99"), "+", "99")]
  {
    var m := Placeholder([], PrintGroup("+", "99"), "+", "99");
    PlainGroupIsCanonical("+", "99");
    ScanOne(m);
    TightText(m);
  }

  lemma ScanOne(m: Match)
    requires Canonical(m)
    ensures Scan(Texts([m])) == [m]
  {
    ScanTexts([m]);
  }

  lemma TightText(m: Match)
    requires m == Placeholder([], PrintGroup("+", "99"), "+", "99")
    ensures Texts([m]) == "{+ 99}"
  {
    assert PrintGroup("+", "99") == "{+ 99}";
    assert [m][1..] == [];
  }

  lemma TightRewrite()
    ensures Rewrite("{+ 99}") == "{+ 99}" && BracesCount("{+ 99}")
  {
    TightLeft();
    TightRight();
    TightBalance();
  }

  lemma TightLeft()
    ensures RewriteLeft("{+ 99}") == "{+ 99}"
  {
    assert "{+ 99}" + [] == "{+ 99}";
    ReplaceSkips("{+ 99}", [], LEFT_ESCAPE, LEFT_NAME);
  }

  lemma TightRight()
    ensures RewriteRight("{+ 99}") == "{+ 99}"
  {
    assert "{+ 99}" + [] == "{+ 99}";
    ReplaceSkips("{+ 99}", [], RIGHT_ESCAPE, RIGHT_NAME);
  }

  lemma TightBalance()
    ensures BracesCount("{+ 99}")
  {
    GroupBalances("+ 99");
    assert PrintGroup("+ 99", []) == "{+ 99}";
  }

  lemma TightCount()
    ensures ToInt("99") == 99
  {
    ToIntOfDigits("99");
    assert "99"[..1] == "9" && "9"[..0] == [];
    assert DigitsValue("9") == 9;
  }

  lemma TightStep(m: Match, entry: Entry, host: Host)
    requires m == Placeholder([], PrintGroup("+", "99"), "+", "99")
    requires ToInt("99") == 99 && Lower("+") == "+" && FindKey("+") == Present(Unknown)
    ensures var outcome := CompileFrom(Tokenize([m]), 0, entry, host, false, Compiler.Start(host));
            outcome.Parsed? && |outcome.actions| == 101
  {
    assert Tokenize([m]) == [TokenOf(m)];
    assert Classify("+") == KeyPlaceholder(Unknown);
  }
}
