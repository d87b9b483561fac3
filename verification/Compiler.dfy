/** Compiling an Auto-Type sequence into a list of actions. */
module Compiler {
  import opened Text
  import opened Actions
  import opened Placeholders
  import opened Pattern
  import opened Escapes

  const MAX_TYPE_DELAY: int := 500
  const MAX_REPETITION: int := 100
  const MIN_WAIT_DELAY: int := 100
  const MAX_WAIT_DELAY: int := 10000

  /** qBound */
  function Bound(low: int, value: int, high: int): (r: int)
    requires low <= high
    ensures low <= r <= high
  {
    if value < low then low else if value > high then high else value
  }

  /** What the compiler reads from an entry. */
  datatype Entry = Entry(
    attributes: map<string, string>,
    hasTotp: bool,
    hasValidTotp: bool,
    totpAt: int -> string)

  datatype MaybeEntry = NoEntry | Given(entry: Entry)

  datatype Pick = Cancelled | Accepted(chars: string, pressTab: bool)

  /** What the placeholder resolvers of the entry answer. Two of them also return an error
      message; an empty message is no error. */
  datatype Resolvers = Resolvers(
    resolve: string -> string,
    convert: string -> (string, string),
    replace: string -> (string, string))

  /** The configuration, and what the clock, the user and the resolvers answer while the match
      with the given number is compiled. The resolvers read the clock and other entries, so
      they may answer differently at every match and in every compilation. */
  datatype Host = Host(
    typeDelay: int,
    startDelay: int,
    now: nat -> int,
    pick: nat -> Pick,
    resolvers: nat -> Resolvers)
  {
    function TypingDelay(): int {
      Bound(0, typeDelay, MAX_TYPE_DELAY)
    }

    function InitialDelay(): int {
      Bound(MIN_WAIT_DELAY, startDelay, MAX_WAIT_DELAY)
    }
  }

  datatype Error =
    | NoError
    | InvalidEntry
    | BracketImbalance
    | TooManyRepetitions(full: string)
    | SlowKeyPress(full: string)
    | LongDelay(full: string)
    | InvalidTotp
    | MissingAttribute(name: string)
    | ResolverError(message: string)
    | InvalidPlaceholder(full: string)

  // ---------------------------------------------------------------------
  // What one match contributes
  // ---------------------------------------------------------------------

  const TAB: Action := TypeKey(Named("Tab"), NO_MODIFIERS)
  const ENTER: Action := TypeKey(Named("Enter"), NO_MODIFIERS)

  function Typed(text: string): (r: seq<Action>)
    ensures |r| == |text|
  {
    seq(|text|, i requires 0 <= i < |text| => TypeCharacter(text[i], NO_MODIFIERS))
  }

  function ResolvedKey(c: char): Action {
    if c == '\n' then ENTER else if c == '\t' then TAB else TypeCharacter(c, NO_MODIFIERS)
  }

  function Resolved(text: string): (r: seq<Action>)
    ensures |r| == |text|
  {
    seq(|text|, i requires 0 <= i < |text| => ResolvedKey(text[i]))
  }

  function Repeated(action: Action, n: int): (r: seq<Action>)
    ensures |r| == if n < 0 then 0 else n
  {
    seq(if n < 0 then 0 else n, _ => action)
  }

  /** The picked characters, with a tab between any two of them if asked for. */
  function Picked(chars: string, pressTab: bool): (r: seq<Action>)
    ensures |r| == if pressTab && chars != [] then 2 * |chars| - 1 else |chars|
  {
    if pressTab && chars != [] then
      seq(2 * |chars| - 1, i requires 0 <= i < 2 * |chars| - 1 =>
        if i % 2 == 0 then TypeCharacter(chars[i / 2], NO_MODIFIERS) else TAB)
    else Typed(chars)
  }

  /** A match contributes actions and waiting time, or stops the compilation. */
  datatype Step = Emit(segment: seq<Action>, waited: int) | Stop(error: Error)

  function RepeatCount(m: Match): int
    requires m.Placeholder?
  {
    if m.repeat == [] then 1 else ToInt(m.repeat)
  }

  function PickStep(m: Match, i: nat, entry: Entry, host: Host, syntaxOnly: bool): Step
    requires m.Placeholder?
  {
    var attribute := if ':' in m.inner then AfterFirst(m.inner, ':') else "Password";
    if ':' in m.inner && attribute !in entry.attributes then Stop(MissingAttribute(attribute))
    else if syntaxOnly then Emit([], 0)
    else
      var value := if attribute in entry.attributes then entry.attributes[attribute] else [];
      if host.resolvers(i).resolve(value) == [] then Emit([], 0)
      else
        match host.pick(i)
        case Cancelled => Emit([], 0)
        case Accepted(chars, pressTab) => Emit(Picked(chars, pressTab), 0)
  }

  function ResolverStep(answer: (string, string)): Step {
    if answer.1 != [] then Stop(ResolverError(answer.1)) else Emit(Typed(answer.0), 0)
  }

  function TotpStep(i: nat, entry: Entry, host: Host, elapsedMs: int): Step {
    if entry.hasValidTotp then Emit(Typed(entry.totpAt(host.now(i) + elapsedMs / 1000)), 0)
    else if entry.hasTotp then Stop(InvalidTotp)
    else Emit([], 0)
  }

  /** The action of a key placeholder: the key of its row, or its own name. */
  function KeyAction(m: Match, key: Key): Action
    requires m.Placeholder?
  {
    if key.Unknown? && m.inner != [] then TypeCharacter(LowerChar(m.inner[0]), ModifiersOf(m.modifiers))
    else TypeKey(key, ModifiersOf(m.modifiers))
  }

  function KeyStep(m: Match, key: Key): Step
    requires m.Placeholder?
  {
    if RepeatCount(m) > MAX_REPETITION then Stop(TooManyRepetitions(m.full))
    else Emit(Repeated(KeyAction(m, key), RepeatCount(m)), 0)
  }

  function PlaceholderStep(m: Match, kind: Kind, i: nat, entry: Entry, host: Host,
                           syntaxOnly: bool, elapsedMs: int): Step
    requires m.Placeholder?
  {
    var placeholder := Lower(m.inner);
    match kind
    case KeyPlaceholder(key) => KeyStep(m, key)
    case SetDelay =>
      var delay := ToInt(ReplaceAll(placeholder, "delay=", ""));
      if delay > MAX_TYPE_DELAY then Stop(SlowKeyPress(m.full))
      else Emit([Delay(Bound(0, delay, MAX_TYPE_DELAY), true)], 0)
    case Wait =>
      if RepeatCount(m) > MAX_WAIT_DELAY then Stop(LongDelay(m.full))
      else Emit([Delay(Bound(0, RepeatCount(m), MAX_WAIT_DELAY), false)], RepeatCount(m))
    case Clear => Emit([ClearField], 0)
    case Totp => TotpStep(i, entry, host, elapsedMs)
    case PickCharacters => PickStep(m, i, entry, host, syntaxOnly)
    case Conversion => ResolverStep(host.resolvers(i).convert(m.inner))
    case RegexReplacement => ResolverStep(host.resolvers(i).replace(m.inner))
    case ModeSwitch => Emit([SetMode(if EndsWith(placeholder, "virtual") then Virtual else Normal)], 0)
    case Ignored => Emit([], 0)
    case Attribute =>
      if host.resolvers(i).resolve(m.full) == m.full then Stop(InvalidPlaceholder(m.full))
      else Emit(Resolved(host.resolvers(i).resolve(m.full)), 0)
  }

  /** A match with the branch that it takes. */
  datatype Token = Token(m: Match, kind: Kind)

  function TokenOf(m: Match): Token {
    Token(m, if m.Placeholder? then Classify(Lower(m.inner)) else Ignored)
  }

  function Tokenize(ms: seq<Match>): (ts: seq<Token>)
    ensures |ts| == |ms|
  {
    seq(|ms|, i requires 0 <= i < |ms| => TokenOf(ms[i]))
  }

  function MatchStep(t: Token, i: nat, entry: Entry, host: Host, syntaxOnly: bool, elapsedMs: int): Step {
    match t.m
    case Character(modifiers, c) => Emit([TypeCharacter(c, ModifiersOf(modifiers))], 0)
    case Placeholder(_, _, _, _) => PlaceholderStep(t.m, t.kind, i, entry, host, syntaxOnly, elapsedMs)
  }

  // ---------------------------------------------------------------------
  // The whole sequence
  // ---------------------------------------------------------------------

  datatype Progress = Progress(actions: seq<Action>, cumulativeDelay: int)

  datatype Outcome = Parsed(actions: seq<Action>) | Rejected(error: Error)

  function Start(host: Host): Progress {
    Progress([Begin, Delay(host.TypingDelay(), true)], host.InitialDelay())
  }

  /** The time that typing everything compiled so far is expected to take. */
  function ElapsedMs(host: Host, p: Progress): int {
    p.cumulativeDelay + host.TypingDelay() * |p.actions|
  }

  function Advance(p: Progress, step: Step): Progress
    requires step.Emit?
  {
    Progress(p.actions + step.segment, p.cumulativeDelay + step.waited)
  }

  function CompileFrom(ts: seq<Token>, i: nat, entry: Entry, host: Host, syntaxOnly: bool, p: Progress): Outcome
    requires i <= |ts|
    decreases |ts| - i
  {
    if i == |ts| then Parsed(p.actions)
    else
      var step := MatchStep(ts[i], i, entry, host, syntaxOnly, ElapsedMs(host, p));
      match step
      case Stop(error) => Rejected(error)
      case Emit(_, _) => CompileFrom(ts, i + 1, entry, host, syntaxOnly, Advance(p, step))
  }

  function Parse(sequence: string, entry: MaybeEntry, host: Host, syntaxOnly: bool): Outcome {
    match entry
    case NoEntry => Rejected(InvalidEntry)
    case Given(e) =>
      var rewritten := Rewrite(sequence);
      if !BracesCount(rewritten) then Rejected(BracketImbalance)
      else CompileFrom(Tokenize(Scan(rewritten)), 0, e, host, syntaxOnly, Start(host))
  }

  // ---------------------------------------------------------------------
  // The loops
  // ---------------------------------------------------------------------

  method AppendTyped(before: seq<Action>, text: string) returns (actions: seq<Action>)
    ensures actions == before + Typed(text)
  {
    actions := before;
    for i := 0 to |text|
      invariant actions == before + Typed(text)[..i]
    {
      actions := actions + [TypeCharacter(text[i], NO_MODIFIERS)];
      assert Typed(text)[..i + 1] == Typed(text)[..i] + [Typed(text)[i]];
    }
    assert Typed(text)[..|text|] == Typed(text);
  }

  method AppendResolved(before: seq<Action>, text: string) returns (actions: seq<Action>)
    ensures actions == before + Resolved(text)
  {
    actions := before;
    for i := 0 to |text|
      invariant actions == before + Resolved(text)[..i]
    {
      if text[i] == '\n' {
        actions := actions + [ENTER];
      } else if text[i] == '\t' {
        actions := actions + [TAB];
      } else {
        actions := actions + [TypeCharacter(text[i], NO_MODIFIERS)];
      }
      assert Resolved(text)[..i + 1] == Resolved(text)[..i] + [Resolved(text)[i]];
    }
    assert Resolved(text)[..|text|] == Resolved(text);
  }

  method AppendRepeated(before: seq<Action>, action: Action, repeat: int) returns (actions: seq<Action>)
    requires repeat <= MAX_REPETITION
    ensures actions == before + Repeated(action, repeat)
  {
    actions := before;
    var i := 1;
    while i <= repeat && i <= MAX_REPETITION
      invariant 1 <= i && (i <= repeat + 1 || i == 1)
      invariant actions == before + Repeated(action, i - 1)
      decreases repeat - i
    {
      actions := actions + [action];
      assert Repeated(action, i) == Repeated(action, i - 1) + [action];
      i := i + 1;
    }
    assert Repeated(action, i - 1) == Repeated(action, repeat);
  }

  /** The loop of the pick-characters dialog: a tab behind every character, and the
      last one taken back. */
  method AppendPicked(before: seq<Action>, chars: string, pressTab: bool) returns (actions: seq<Action>)
    ensures actions == before + Picked(chars, pressTab)
  {
    actions := before;
    if chars != [] {
      for i := 0 to |chars|
        invariant pressTab && i > 0 ==> actions == before + Picked(chars[..i], true) + [TAB]
        invariant !pressTab || i == 0 ==> actions == before + Typed(chars[..i])
      {
        actions := actions + [TypeCharacter(chars[i], NO_MODIFIERS)];
        if pressTab {
          actions := actions + [TAB];
        }
        PickedGrows(chars, i);
      }
      assert chars[..|chars|] == chars;
      if pressTab {
        actions := actions[..|actions| - 1];
      }
    }
  }

  lemma PickedGrows(chars: string, i: nat)
    requires i < |chars|
    ensures Typed(chars[..i + 1]) == Typed(chars[..i]) + [TypeCharacter(chars[i], NO_MODIFIERS)]
    ensures Picked(chars[..i + 1], true)
         == if i == 0 then [TypeCharacter(chars[0], NO_MODIFIERS)]
            else Picked(chars[..i], true) + [TAB] + [TypeCharacter(chars[i], NO_MODIFIERS)]
  {
  }

  /** The effect of a step on the actions and the delay, or its error. */
  predicate Performs(step: Step, before: Progress, after: Progress, error: Error) {
    match step
    case Stop(e) => error == e != NoError
    case Emit(_, _) => error == NoError && after == Advance(before, step)
  }

  /** A key placeholder, repeated. */
  method CompileKey(m: Match, key: Key, before: seq<Action>) returns (actions: seq<Action>, error: Error)
    requires m.Placeholder?
    ensures match KeyStep(m, key)
            case Stop(e) => error == e != NoError
            case Emit(segment, waited) => error == NoError && actions == before + segment && waited == 0
  {
    var placeholder, repeat := Lower(m.inner), RepeatCount(m);
    if repeat > MAX_REPETITION {
      return [], TooManyRepetitions(m.full);
    }
    var action := if key.Unknown? && placeholder != []
                  then TypeCharacter(placeholder[0], ModifiersOf(m.modifiers))
                  else TypeKey(key, ModifiersOf(m.modifiers));
    error := NoError;
    actions := AppendRepeated(before, action, repeat);
  }

  method CompileTotp(i: nat, entry: Entry, host: Host, before: seq<Action>, cumulativeDelay: int)
    returns (actions: seq<Action>, error: Error)
    ensures match TotpStep(i, entry, host, ElapsedMs(host, Progress(before, cumulativeDelay)))
            case Stop(e) => error == e != NoError
            case Emit(segment, waited) => error == NoError && actions == before + segment && waited == 0
  {
    actions, error := before, NoError;
    if entry.hasValidTotp {
      var time := host.now(i) + (cumulativeDelay + host.TypingDelay() * |actions|) / 1000;
      actions := AppendTyped(actions, entry.totpAt(time));
    } else if entry.hasTotp {
      actions, error := [], InvalidTotp;
    }
  }

  /** What a resolver of T-CONV or T-REPLACE-RX answers, and its error if it has one. */
  method CompileResolved(answer: (string, string), before: seq<Action>)
    returns (actions: seq<Action>, error: Error)
    ensures match ResolverStep(answer)
            case Stop(e) => error == e != NoError
            case Emit(segment, waited) => error == NoError && actions == before + segment && waited == 0
  {
    actions, error := before, NoError;
    var (resolved, message) := answer;
    if message != [] {
      return [], ResolverError(message);
    }
    actions := AppendTyped(actions, resolved);
  }

  /** The dispatch for one placeholder. */
  method CompilePlaceholder(m: Match, i: nat, entry: Entry, host: Host, syntaxOnly: bool,
                            before: seq<Action>, delayBefore: int)
    returns (actions: seq<Action>, cumulativeDelay: int, error: Error)
    requires m.Placeholder?
    ensures Performs(PlaceholderStep(m, Classify(Lower(m.inner)), i, entry, host, syntaxOnly,
                                     ElapsedMs(host, Progress(before, delayBefore))),
                     Progress(before, delayBefore), Progress(actions, cumulativeDelay), error)
  {
    actions, cumulativeDelay, error := before, delayBefore, NoError;
    var placeholder := Lower(m.inner);
    var kind := Classify(placeholder);
    var repeat := RepeatCount(m);
    match kind
    case KeyPlaceholder(key) =>
      actions, error := CompileKey(m, key, actions);
    case SetDelay =>
      var delay := ToInt(ReplaceAll(placeholder, "delay=", ""));
      if delay > MAX_TYPE_DELAY {
        return [], cumulativeDelay, SlowKeyPress(m.full);
      }
      actions := actions + [Delay(Bound(0, delay, MAX_TYPE_DELAY), true)];
    case Wait =>
      if repeat > MAX_WAIT_DELAY {
        return [], cumulativeDelay, LongDelay(m.full);
      }
      cumulativeDelay := cumulativeDelay + repeat;
      actions := actions + [Delay(Bound(0, repeat, MAX_WAIT_DELAY), false)];
    case Clear =>
      actions := actions + [ClearField];
    case Totp =>
      actions, error := CompileTotp(i, entry, host, actions, cumulativeDelay);
    case PickCharacters =>
      actions, error := CompilePick(m, i, entry, host, syntaxOnly, actions);
    case Conversion =>
      actions, error := CompileResolved(host.resolvers(i).convert(m.inner), actions);
    case RegexReplacement =>
      actions, error := CompileResolved(host.resolvers(i).replace(m.inner), actions);
    case ModeSwitch =>
      actions := actions + [SetMode(if EndsWith(placeholder, "virtual") then Virtual else Normal)];
    case Ignored =>
    case Attribute =>
      var resolved := host.resolvers(i).resolve(m.full);
      if resolved == m.full {
        return [], cumulativeDelay, InvalidPlaceholder(m.full);
      }
      actions := AppendResolved(actions, resolved);
  }

  method CompileMatch(m: Match, i: nat, entry: Entry, host: Host, syntaxOnly: bool,
                      before: seq<Action>, delayBefore: int)
    returns (actions: seq<Action>, cumulativeDelay: int, error: Error)
    ensures Performs(MatchStep(TokenOf(m), i, entry, host, syntaxOnly, ElapsedMs(host, Progress(before, delayBefore))),
                     Progress(before, delayBefore), Progress(actions, cumulativeDelay), error)
  {
    if m.Character? {
      actions := before + [TypeCharacter(m.character, ModifiersOf(m.modifiers))];
      cumulativeDelay, error := delayBefore, NoError;
    } else {
      actions, cumulativeDelay, error := CompilePlaceholder(m, i, entry, host, syntaxOnly, before, delayBefore);
    }
  }

  method CompilePick(m: Match, i: nat, entry: Entry, host: Host, syntaxOnly: bool, before: seq<Action>)
    returns (actions: seq<Action>, error: Error)
    requires m.Placeholder?
    ensures match PickStep(m, i, entry, host, syntaxOnly)
            case Stop(e) => error == e != NoError
            case Emit(segment, waited) => error == NoError && actions == before + segment && waited == 0
  {
    actions, error := before, NoError;
    var attribute := "Password";
    if ':' in m.inner {
      attribute := AfterFirst(m.inner, ':');
      if attribute !in entry.attributes {
        return [], MissingAttribute(attribute);
      }
    }
    if syntaxOnly {
      return;
    }
    var value := if attribute in entry.attributes then entry.attributes[attribute] else [];
    var password := host.resolvers(i).resolve(value);
    if password != [] {
      match host.pick(i)
      case Cancelled =>
      case Accepted(chars, pressTab) =>
        actions := AppendPicked(actions, chars, pressTab);
    }
  }

  /** AutoType::parseSequence. No error is pending when it is called. */
  method ParseSequence(entrySequence: string, entry: MaybeEntry, host: Host, syntaxOnly: bool)
    returns (actions: seq<Action>, error: Error)
    ensures match Parse(entrySequence, entry, host, syntaxOnly)
            case Rejected(e) => actions == [] && error == e
            case Parsed(a) => actions == a && error == NoError
  {
    if entry.NoEntry? {
      return [], InvalidEntry;
    }
    var cumulativeDelay := host.InitialDelay();
    actions := [Begin];
    actions := actions + [Delay(host.TypingDelay(), true)];

    assert actions == Start(host).actions;

    var sequence := RewriteLeft(entrySequence);
    sequence := RewriteRight(sequence);
    if Count(sequence, '{') != Count(sequence, '}') {
      return [], BracketImbalance;
    }

    actions, error := CompileMatches(Scan(sequence), entry.entry, host, syntaxOnly, actions, cumulativeDelay);
  }

  /** The loop over the matches. */
  method CompileMatches(results: seq<Match>, entry: Entry, host: Host, syntaxOnly: bool,
                        initial: seq<Action>, initialDelay: int)
    returns (actions: seq<Action>, error: Error)
    ensures var outcome := CompileFrom(Tokenize(results), 0, entry, host, syntaxOnly, Progress(initial, initialDelay));
            match outcome
            case Rejected(e) => actions == [] && error == e
            case Parsed(a) => actions == a && error == NoError
  {
    actions, error := initial, NoError;
    var cumulativeDelay := initialDelay;
    var i := 0;
    while i < |results|
      invariant i <= |results| && error == NoError
      invariant CompileFrom(Tokenize(results), i, entry, host, syntaxOnly, Progress(actions, cumulativeDelay))
             == CompileFrom(Tokenize(results), 0, entry, host, syntaxOnly, Progress(initial, initialDelay))
    {
      var stopped: Error;
      actions, cumulativeDelay, stopped :=
        CompileMatch(results[i], i, entry, host, syntaxOnly, actions, cumulativeDelay);
      if stopped != NoError {
        return [], stopped;
      }
      i := i + 1;
    }
  }

  /** Whether AutoType::verifyAutoTypeSyntax finds nothing wrong. */
  function SyntaxValid(sequence: string, entry: MaybeEntry, host: Host): bool {
    sequence == [] || Parse(sequence, entry, host, true).Parsed?
  }

  /** AutoType::verifyAutoTypeSyntax */
  method VerifyAutoTypeSyntax(sequence: string, entry: MaybeEntry, host: Host) returns (valid: bool, error: Error)
    ensures valid <==> error == NoError
    ensures error == if SyntaxValid(sequence, entry, host) then NoError else Parse(sequence, entry, host, true).error
  {
    error := NoError;
    if sequence != [] {
      var _, e := ParseSequence(sequence, entry, host, true);
      error := e;
    }
    valid := error == NoError;
  }
}
