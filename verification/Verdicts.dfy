/** Which sequences are accepted, with which error the others are rejected, and in what two
    compilations of one sequence may differ. */
module Verdicts {
  import opened Text
  import opened Actions
  import opened Pattern
  import opened Escapes
  import opened Compiler
  import opened Compilation
  import opened Bounds
  import opened Meaning

  // ---------------------------------------------------------------------
  // The fault of one match
  // ---------------------------------------------------------------------

  /** The fault of a match that can be told from the sequence and the entry. */
  function FixedFault(t: Token, entry: Entry): Error {
    if t.m.Character? then NoError
    else
      match t.kind
      case KeyPlaceholder(_) => if RepeatCount(t.m) > MAX_REPETITION then TooManyRepetitions(t.m.full) else NoError
      case SetDelay =>
        if ToInt(ReplaceAll(Lower(t.m.inner), "delay=", "")) > MAX_TYPE_DELAY then SlowKeyPress(t.m.full) else NoError
      case Wait => if RepeatCount(t.m) > MAX_WAIT_DELAY then LongDelay(t.m.full) else NoError
      case Totp => if entry.hasTotp && !entry.hasValidTotp then InvalidTotp else NoError
      case PickCharacters =>
        var attribute := AfterFirst(t.m.inner, ':');
        if ':' in t.m.inner && attribute !in entry.attributes then MissingAttribute(attribute) else NoError
      case _ => NoError
  }

  /** Whether a resolver decides about a match. */
  predicate AsksResolver(t: Token) {
    t.m.Placeholder? && (t.kind.Conversion? || t.kind.RegexReplacement? || t.kind.Attribute?)
  }

  /** The fault of a match that its resolver finds. */
  function ResolverFault(t: Token, r: Resolvers): Error {
    if !AsksResolver(t) then NoError
    else
      match t.kind
      case Attribute => if r.resolve(t.m.full) == t.m.full then InvalidPlaceholder(t.m.full) else NoError
      case Conversion => MessageError(r.convert(t.m.inner).1)
      case _ => MessageError(r.replace(t.m.inner).1)
  }

  function MessageError(message: string): Error {
    if message == [] then NoError else ResolverError(message)
  }

  function Fault(t: Token, i: nat, entry: Entry, host: Host): Error {
    if FixedFault(t, entry) != NoError then FixedFault(t, entry) else ResolverFault(t, host.resolvers(i))
  }

  lemma PickFaults(m: Match, i: nat, entry: Entry, host: Host, syntaxOnly: bool)
    requires m.Placeholder?
    ensures var attribute := AfterFirst(m.inner, ':');
            match PickStep(m, i, entry, host, syntaxOnly)
            case Stop(error) =>
              ':' in m.inner && attribute !in entry.attributes && error == MissingAttribute(attribute)
            case Emit(_, _) => !(':' in m.inner && attribute !in entry.attributes)
  {
  }

  lemma PlaceholderFaults(t: Token, i: nat, entry: Entry, host: Host, syntaxOnly: bool, elapsedMs: int)
    requires t.m.Placeholder? && !t.kind.PickCharacters?
    ensures match PlaceholderStep(t.m, t.kind, i, entry, host, syntaxOnly, elapsedMs)
            case Stop(error) => error == Fault(t, i, entry, host) != NoError
            case Emit(_, _) => Fault(t, i, entry, host) == NoError
  {
  }

  /** A step stops exactly at a fault, with that error, whatever has been compiled before it
      and whether or not only the syntax is checked. */
  lemma StepFaults(t: Token, i: nat, entry: Entry, host: Host, syntaxOnly: bool, elapsedMs: int)
    ensures match MatchStep(t, i, entry, host, syntaxOnly, elapsedMs)
            case Stop(error) => error == Fault(t, i, entry, host) != NoError
            case Emit(_, _) => Fault(t, i, entry, host) == NoError
  {
    if t.m.Placeholder? {
      if t.kind.PickCharacters? {
        PickFaults(t.m, i, entry, host, syntaxOnly);
      } else {
        PlaceholderFaults(t, i, entry, host, syntaxOnly, elapsedMs);
      }
    }
  }

  // ---------------------------------------------------------------------
  // The error of a parse
  // ---------------------------------------------------------------------

  /** The matches of a sequence, once its escapes are rewritten. */
  function TokensOf(sequence: string): seq<Token> {
    Tokenize(Scan(Rewrite(sequence)))
  }

  /** The error of the first faulty match from the k-th one on. */
  function FirstFault(ts: seq<Token>, k: nat, entry: Entry, host: Host): Error
    requires k <= |ts|
    decreases |ts| - k
  {
    if k == |ts| then NoError
    else if Fault(ts[k], k, entry, host) != NoError then Fault(ts[k], k, entry, host)
    else FirstFault(ts, k + 1, entry, host)
  }

  /** The matches before the k-th one have no fault. */
  ghost predicate FaultlessUpTo(ts: seq<Token>, k: nat, entry: Entry, host: Host)
    requires k <= |ts|
  {
    forall i :: 0 <= i < k ==> Fault(ts[i], i, entry, host) == NoError
  }

  lemma {:induction false} FirstFaultIff(ts: seq<Token>, k: nat, entry: Entry, host: Host)
    requires k <= |ts|
    ensures FirstFault(ts, k, entry, host) == NoError
       <==> forall i :: k <= i < |ts| ==> Fault(ts[i], i, entry, host) == NoError
    decreases |ts| - k
  {
    if k < |ts| {
      FirstFaultIff(ts, k + 1, entry, host);
    }
  }

  lemma {:induction false} FirstFaultAt(ts: seq<Token>, j: nat, k: nat, entry: Entry, host: Host)
    requires j <= k < |ts| && FaultlessUpTo(ts, k, entry, host)
    requires Fault(ts[k], k, entry, host) != NoError
    ensures FirstFault(ts, j, entry, host) == Fault(ts[k], k, entry, host)
    decreases k - j
  {
    if j < k {
      FirstFaultAt(ts, j + 1, k, entry, host);
    }
  }

  function ErrorOf(outcome: Outcome): Error {
    match outcome
    case Rejected(error) => error
    case Parsed(_) => NoError
  }

  lemma {:induction false} CompileFaults(ts: seq<Token>, k: nat, entry: Entry, host: Host,
                                         syntaxOnly: bool, p: Progress)
    requires k <= |ts|
    ensures var outcome := CompileFrom(ts, k, entry, host, syntaxOnly, p);
            && ErrorOf(outcome) == FirstFault(ts, k, entry, host)
            && (outcome.Parsed? <==> FirstFault(ts, k, entry, host) == NoError)
    decreases |ts| - k
  {
    if k < |ts| {
      StepFaults(ts[k], k, entry, host, syntaxOnly, ElapsedMs(host, p));
      var step := MatchStep(ts[k], k, entry, host, syntaxOnly, ElapsedMs(host, p));
      if step.Emit? {
        CompileFaults(ts, k + 1, entry, host, syntaxOnly, Advance(p, step));
      }
    }
  }

  /** The error that a parse is to end with. */
  function FaultOf(sequence: string, entry: MaybeEntry, host: Host): Error {
    match entry
    case NoEntry => InvalidEntry
    case Given(e) =>
      if !BracesCount(Rewrite(sequence)) then BracketImbalance else FirstFault(TokensOf(sequence), 0, e, host)
  }

  /** The error of a parse is that of the first thing wrong with the sequence: the missing
      entry, the brace count, or the first faulty match. */
  lemma ParseFaults(sequence: string, entry: MaybeEntry, host: Host, syntaxOnly: bool)
    ensures var outcome := Parse(sequence, entry, host, syntaxOnly);
            && ErrorOf(outcome) == FaultOf(sequence, entry, host)
            && (outcome.Parsed? <==> FaultOf(sequence, entry, host) == NoError)
  {
    if entry.Given? && BracesCount(Rewrite(sequence)) {
      CompileFaults(TokensOf(sequence), 0, entry.entry, host, syntaxOnly, Compiler.Start(host));
    }
  }

  /** A sequence is accepted exactly if there is an entry, the braces count and no match is faulty. */
  lemma AcceptedIff(sequence: string, entry: MaybeEntry, host: Host, syntaxOnly: bool)
    ensures Parse(sequence, entry, host, syntaxOnly).Parsed?
       <==> && entry.Given? && BracesCount(Rewrite(sequence))
            && FaultlessUpTo(TokensOf(sequence), |TokensOf(sequence)|, entry.entry, host)
  {
    ParseFaults(sequence, entry, host, syntaxOnly);
    if entry.Given? {
      FirstFaultIff(TokensOf(sequence), 0, entry.entry, host);
    }
  }

  /** The first faulty match rejects the sequence with its error. */
  lemma RejectedByFirst(sequence: string, k: nat, entry: Entry, host: Host, syntaxOnly: bool)
    requires BracesCount(Rewrite(sequence)) && k < |TokensOf(sequence)|
    requires FaultlessUpTo(TokensOf(sequence), k, entry, host)
    requires Fault(TokensOf(sequence)[k], k, entry, host) != NoError
    ensures Parse(sequence, Given(entry), host, syntaxOnly) == Rejected(Fault(TokensOf(sequence)[k], k, entry, host))
  {
    ParseFaults(sequence, Given(entry), host, syntaxOnly);
    FirstFaultAt(TokensOf(sequence), 0, k, entry, host);
  }

  // ---------------------------------------------------------------------
  // Two compilations of one sequence
  // ---------------------------------------------------------------------

  /** The first k matches fare alike with both entries and hosts. */
  ghost predicate SameFaults(ts: seq<Token>, k: nat, entry: Entry, host: Host, entry': Entry, host': Host)
    requires k <= |ts|
  {
    forall i :: 0 <= i < k ==> Fault(ts[i], i, entry, host) == Fault(ts[i], i, entry', host')
  }

  lemma {:induction false} FirstFaultsAgree(ts: seq<Token>, k: nat, entry: Entry, host: Host,
                                            entry': Entry, host': Host)
    requires k <= |ts| && SameFaults(ts, |ts|, entry, host, entry', host')
    ensures FirstFault(ts, k, entry, host) == FirstFault(ts, k, entry', host')
    decreases |ts| - k
  {
    if k < |ts| {
      FirstFaultsAgree(ts, k + 1, entry, host, entry', host');
    }
  }

  /** Whether only the syntax is checked, the configuration, the clock as TOTP reads it and the
      user's picks make no difference to the error; the faults of the matches decide it. */
  lemma ErrorsAgree(sequence: string, entry: Entry, host: Host, syntaxOnly: bool,
                    entry': Entry, host': Host, syntaxOnly': bool)
    requires SameFaults(TokensOf(sequence), |TokensOf(sequence)|, entry, host, entry', host')
    ensures ErrorOf(Parse(sequence, Given(entry), host, syntaxOnly))
         == ErrorOf(Parse(sequence, Given(entry'), host', syntaxOnly'))
  {
    ParseFaults(sequence, Given(entry), host, syntaxOnly);
    ParseFaults(sequence, Given(entry'), host', syntaxOnly');
    FirstFaultsAgree(TokensOf(sequence), 0, entry, host, entry', host');
  }

  /** What the i-th match contributes to a compilation that gets past it. */
  function SegmentAt(ts: seq<Token>, i: nat, entry: Entry, host: Host, syntaxOnly: bool): seq<Action>
    requires i < |ts|
  {
    match After(ts, i, entry, host, syntaxOnly)
    case StoppedBy(_) => []
    case At(p) =>
      match MatchStep(ts[i], i, entry, host, syntaxOnly, ElapsedMs(host, p))
      case Stop(_) => []
      case Emit(segment, _) => segment
  }

  /** The contributions of the first k matches, one behind the other. */
  function Contributed(ts: seq<Token>, k: nat, entry: Entry, host: Host, syntaxOnly: bool): seq<Action>
    requires k <= |ts|
  {
    if k == 0 then []
    else Contributed(ts, k - 1, entry, host, syntaxOnly) + SegmentAt(ts, k - 1, entry, host, syntaxOnly)
  }

  lemma {:induction false} ReachedContributed(ts: seq<Token>, k: nat, entry: Entry, host: Host, syntaxOnly: bool)
    requires k <= |ts|
    ensures var r := After(ts, k, entry, host, syntaxOnly);
            r.At? ==> r.p.actions == Compiler.Start(host).actions + Contributed(ts, k, entry, host, syntaxOnly)
  {
    if k > 0 {
      ReachedContributed(ts, k - 1, entry, host, syntaxOnly);
      Regroup(Compiler.Start(host).actions, Contributed(ts, k - 1, entry, host, syntaxOnly),
              SegmentAt(ts, k - 1, entry, host, syntaxOnly));
    }
  }

  /** A successful parse is the two initial actions and the contributions of the matches in order. */
  lemma ParsedContributed(sequence: string, entry: Entry, host: Host, syntaxOnly: bool)
    ensures var outcome := Parse(sequence, Given(entry), host, syntaxOnly);
            var ts := TokensOf(sequence);
            outcome.Parsed? ==>
              outcome.actions == Compiler.Start(host).actions + Contributed(ts, |ts|, entry, host, syntaxOnly)
  {
    ParseReached(sequence, entry, host, syntaxOnly);
    ReachedContributed(TokensOf(sequence), |TokensOf(sequence)|, entry, host, syntaxOnly);
  }

  lemma NextReachedIff(ts: seq<Token>, k: nat, entry: Entry, host: Host, syntaxOnly: bool)
    requires k < |ts|
    ensures After(ts, k + 1, entry, host, syntaxOnly).At?
       <==> After(ts, k, entry, host, syntaxOnly).At? && Fault(ts[k], k, entry, host) == NoError
  {
    var r := After(ts, k, entry, host, syntaxOnly);
    if r.At? {
      StepFaults(ts[k], k, entry, host, syntaxOnly, ElapsedMs(host, r.p));
      AfterNext(ts, k, entry, host, syntaxOnly, r.p);
    } else {
      StoppedStays(ts, k, k + 1, entry, host, syntaxOnly);
    }
  }

  lemma FaultlessNext(ts: seq<Token>, k: nat, entry: Entry, host: Host)
    requires k < |ts|
    ensures FaultlessUpTo(ts, k + 1, entry, host)
       <==> FaultlessUpTo(ts, k, entry, host) && Fault(ts[k], k, entry, host) == NoError
  {
  }

  /** A compilation gets past exactly the faultless matches at the front. */
  lemma {:induction false} ReachedFaultless(ts: seq<Token>, k: nat, entry: Entry, host: Host, syntaxOnly: bool)
    requires k <= |ts|
    ensures After(ts, k, entry, host, syntaxOnly).At? <==> FaultlessUpTo(ts, k, entry, host)
  {
    if k > 0 {
      ReachedFaultless(ts, k - 1, entry, host, syntaxOnly);
      FaultlessNext(ts, k - 1, entry, host);
      NextReachedIff(ts, k - 1, entry, host, syntaxOnly);
    }
  }

  /** Whether the actions of a match are made by the TOTP generator or the user. */
  predicate MadeAnew(t: Token) {
    t.m.Placeholder? && (t.kind.Totp? || t.kind.PickCharacters?)
  }

  lemma StepsAgree(t: Token, i: nat, entry: Entry, host: Host, syntaxOnly: bool, elapsedMs: int,
                   entry': Entry, host': Host, syntaxOnly': bool, elapsedMs': int)
    ensures var a := MatchStep(t, i, entry, host, syntaxOnly, elapsedMs);
            var b := MatchStep(t, i, entry', host', syntaxOnly', elapsedMs');
            a.Emit? && b.Emit? ==>
              && a.waited == b.waited
              && (a.segment == b.segment || MadeElsewhere(t))
              && (entry == entry' && host.resolvers(i) == host'.resolvers(i) ==> a.segment == b.segment || MadeAnew(t))
  {
  }

  /** The two-run simulation. For any two entries, configurations, clocks, picks, resolvers and
      modes: a match that both compilations get past contributes the same to both, unless its
      actions are made by a resolver, the TOTP generator or the user. If the entry is the same and
      its resolvers answer alike, only TOTP digits and picked characters may differ. */
  lemma Simulation(ts: seq<Token>, i: nat, entry: Entry, host: Host, syntaxOnly: bool,
                   entry': Entry, host': Host, syntaxOnly': bool)
    requires i < |ts|
    requires FaultlessUpTo(ts, i + 1, entry, host) && FaultlessUpTo(ts, i + 1, entry', host')
    ensures SegmentAt(ts, i, entry, host, syntaxOnly) == SegmentAt(ts, i, entry', host', syntaxOnly')
         || MadeElsewhere(ts[i])
    ensures entry == entry' && host.resolvers(i) == host'.resolvers(i) ==>
              || SegmentAt(ts, i, entry, host, syntaxOnly) == SegmentAt(ts, i, entry', host', syntaxOnly')
              || MadeAnew(ts[i])
  {
    ReachedFaultless(ts, i, entry, host, syntaxOnly);
    ReachedFaultless(ts, i, entry', host', syntaxOnly');
    var p := After(ts, i, entry, host, syntaxOnly).p;
    var q := After(ts, i, entry', host', syntaxOnly').p;
    StepFaults(ts[i], i, entry, host, syntaxOnly, ElapsedMs(host, p));
    StepFaults(ts[i], i, entry', host', syntaxOnly', ElapsedMs(host', q));
    StepsAgree(ts[i], i, entry, host, syntaxOnly, ElapsedMs(host, p), entry', host', syntaxOnly', ElapsedMs(host', q));
  }

  // ---------------------------------------------------------------------
  // Repeat counts, delays and modifiers in a parse
  // ---------------------------------------------------------------------

  lemma TokenCount(sequence: string, k: nat) returns (count: Written)
    requires k < |TokensOf(sequence)| && TokensOf(sequence)[k].m.Placeholder?
    ensures TokensOf(sequence)[k].m.repeat == Spelling(count)
  {
    TokensAreRoomy(Rewrite(sequence));
    assert Roomy(TokensOf(sequence)[k]);
    count := DigitsAreWritten(TokensOf(sequence)[k].m.repeat);
  }

  lemma CountedFault(t: Token, count: Written, i: nat, entry: Entry, host: Host)
    requires t.m.Placeholder? && t.m.repeat == Spelling(count)
    ensures t.kind.KeyPlaceholder? ==>
              Fault(t, i, entry, host) == if Worth(count) > 100 then TooManyRepetitions(t.m.full) else NoError
    ensures t.kind.Wait? ==>
              Fault(t, i, entry, host) == if Worth(count) > 10000 then LongDelay(t.m.full) else NoError
  {
    CountIsRead(t.m, count);
  }

  lemma CountedStep(t: Token, count: Written, i: nat, entry: Entry, host: Host, syntaxOnly: bool, elapsedMs: int)
    requires t.m.Placeholder? && t.m.repeat == Spelling(count)
    ensures var step := MatchStep(t, i, entry, host, syntaxOnly, elapsedMs);
            && (t.kind.KeyPlaceholder? && step.Emit? ==>
                  Worth(count) <= 100 && Copies(step.segment, KeyAction(t.m, t.kind.key), Worth(count)))
            && (t.kind.Wait? && step.Emit? ==>
                  Worth(count) <= 10000 && step.segment == [Delay(Worth(count), false)])
  {
    CountIsRead(t.m, count);
  }

  /** What a successful parse takes from its k-th match is a step from the state before it. */
  lemma ParsedStep(sequence: string, k: nat, entry: Entry, host: Host, syntaxOnly: bool) returns (p: Progress)
    requires k < |TokensOf(sequence)| && Parse(sequence, Given(entry), host, syntaxOnly).Parsed?
    ensures var step := MatchStep(TokensOf(sequence)[k], k, entry, host, syntaxOnly, ElapsedMs(host, p));
            step.Emit? && step.segment == SegmentAt(TokensOf(sequence), k, entry, host, syntaxOnly)
  {
    var ts := TokensOf(sequence);
    AcceptedIff(sequence, Given(entry), host, syntaxOnly);
    ReachedFaultless(ts, k, entry, host, syntaxOnly);
    p := After(ts, k, entry, host, syntaxOnly).p;
    assert Fault(ts[k], k, entry, host) == NoError;
    StepFaults(ts[k], k, entry, host, syntaxOnly, ElapsedMs(host, p));
  }

  /** A match rejects the sequence if it is the first with a fault, and has none in a sequence
      that is accepted. */
  lemma MatchFate(sequence: string, k: nat, entry: Entry, host: Host, syntaxOnly: bool) returns (elapsedMs: int)
    requires BracesCount(Rewrite(sequence)) && k < |TokensOf(sequence)|
    ensures var t := TokensOf(sequence)[k];
            var outcome := Parse(sequence, Given(entry), host, syntaxOnly);
            var step := MatchStep(t, k, entry, host, syntaxOnly, elapsedMs);
            && (FaultlessUpTo(TokensOf(sequence), k, entry, host) && Fault(t, k, entry, host) != NoError ==>
                  outcome == Rejected(Fault(t, k, entry, host)))
            && (outcome.Parsed? ==>
                  && Fault(t, k, entry, host) == NoError
                  && step.Emit? && step.segment == SegmentAt(TokensOf(sequence), k, entry, host, syntaxOnly))
  {
    var t := TokensOf(sequence)[k];
    elapsedMs := 0;
    if FaultlessUpTo(TokensOf(sequence), k, entry, host) && Fault(t, k, entry, host) != NoError {
      RejectedByFirst(sequence, k, entry, host, syntaxOnly);
    }
    if Parse(sequence, Given(entry), host, syntaxOnly).Parsed? {
      AcceptedIff(sequence, Given(entry), host, syntaxOnly);
      var p := ParsedStep(sequence, k, entry, host, syntaxOnly);
      elapsedMs := ElapsedMs(host, p);
    }
  }

  /** Behind the name of a key stands nothing or a number with any leading zeros. A number between
      100 and the largest int rejects the sequence unless something before it does. In a sequence
      that is accepted the key is pressed as often as the number says, and not at all if it does
      not fit an int. */
  lemma RepeatedKeyFate(sequence: string, k: nat, entry: Entry, host: Host, syntaxOnly: bool)
    returns (count: Written)
    requires BracesCount(Rewrite(sequence)) && k < |TokensOf(sequence)|
    requires var t := TokensOf(sequence)[k]; t.m.Placeholder? && t.kind.KeyPlaceholder?
    ensures var t := TokensOf(sequence)[k];
            var outcome := Parse(sequence, Given(entry), host, syntaxOnly);
            && t.m.repeat == Spelling(count)
            && (FaultlessUpTo(TokensOf(sequence), k, entry, host) && Worth(count) > 100 ==>
                  outcome == Rejected(TooManyRepetitions(t.m.full)))
            && (outcome.Parsed? ==>
                  && Worth(count) <= 100
                  && Copies(SegmentAt(TokensOf(sequence), k, entry, host, syntaxOnly),
                            KeyAction(t.m, t.kind.key), Worth(count)))
  {
    var t := TokensOf(sequence)[k];
    count := TokenCount(sequence, k);
    var elapsedMs := MatchFate(sequence, k, entry, host, syntaxOnly);
    CountedFault(t, count, k, entry, host);
    CountedStep(t, count, k, entry, host, syntaxOnly, elapsedMs);
  }

  /** The same for the waiting time of a plain delay and its limit of ten seconds. */
  lemma WaitFate(sequence: string, k: nat, entry: Entry, host: Host, syntaxOnly: bool) returns (count: Written)
    requires BracesCount(Rewrite(sequence)) && k < |TokensOf(sequence)|
    requires var t := TokensOf(sequence)[k]; t.m.Placeholder? && t.kind.Wait?
    ensures var t := TokensOf(sequence)[k];
            var outcome := Parse(sequence, Given(entry), host, syntaxOnly);
            && t.m.repeat == Spelling(count)
            && (FaultlessUpTo(TokensOf(sequence), k, entry, host) && Worth(count) > 10000 ==>
                  outcome == Rejected(LongDelay(t.m.full)))
            && (outcome.Parsed? ==>
                  && Worth(count) <= 10000
                  && SegmentAt(TokensOf(sequence), k, entry, host, syntaxOnly) == [Delay(Worth(count), false)])
  {
    var t := TokensOf(sequence)[k];
    count := TokenCount(sequence, k);
    var elapsedMs := MatchFate(sequence, k, entry, host, syntaxOnly);
    CountedFault(t, count, k, entry, host);
    CountedStep(t, count, k, entry, host, syntaxOnly, elapsedMs);
  }

  /** The modifiers with which a match types: those of its signs if it is a character or a key,
      and none otherwise. */
  function Pressed(t: Token): Modifiers {
    var signs := t.m.modifiers;
    if t.m.Character? || t.kind.KeyPlaceholder? then Modifiers('+' in signs, '^' in signs, '%' in signs, '#' in signs)
    else Modifiers(false, false, false, false)
  }

  ghost predicate TypesWith(segment: seq<Action>, modifiers: Modifiers) {
    forall a :: a in segment && a.Type? ==> a.modifiers == modifiers
  }

  lemma StepPresses(t: Token, i: nat, entry: Entry, host: Host, syntaxOnly: bool, elapsedMs: int)
    ensures var step := MatchStep(t, i, entry, host, syntaxOnly, elapsedMs);
            step.Emit? ==> TypesWith(step.segment, Pressed(t))
  {
  }

  /** In an accepted sequence, modifiers reach single characters and key placeholders. Resolved
      text, TOTP digits and picked characters are typed without them. */
  lemma ModifiersReach(sequence: string, k: nat, entry: Entry, host: Host, syntaxOnly: bool)
    requires k < |TokensOf(sequence)| && Parse(sequence, Given(entry), host, syntaxOnly).Parsed?
    ensures TypesWith(SegmentAt(TokensOf(sequence), k, entry, host, syntaxOnly), Pressed(TokensOf(sequence)[k]))
  {
    var p := ParsedStep(sequence, k, entry, host, syntaxOnly);
    StepPresses(TokensOf(sequence)[k], k, entry, host, syntaxOnly, ElapsedMs(host, p));
  }
}
