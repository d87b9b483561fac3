/** What holds of every compilation. */
module Compilation {
  import opened Actions
  import opened Placeholders
  import opened Pattern
  import opened Escapes
  import opened Compiler

  // ---------------------------------------------------------------------
  // The state of a compilation after its first k matches
  // ---------------------------------------------------------------------

  datatype Reached = At(p: Progress) | StoppedBy(error: Error)

  function After(ts: seq<Token>, k: nat, entry: Entry, host: Host, syntaxOnly: bool): Reached
    requires k <= |ts|
  {
    if k == 0 then At(Compiler.Start(host))
    else
      match After(ts, k - 1, entry, host, syntaxOnly)
      case StoppedBy(error) => StoppedBy(error)
      case At(p) => Continue(p, MatchStep(ts[k - 1], k - 1, entry, host, syntaxOnly, ElapsedMs(host, p)))
  }

  function Continue(p: Progress, step: Step): Reached {
    match step
    case Stop(error) => StoppedBy(error)
    case Emit(_, _) => At(Advance(p, step))
  }

  function OutcomeOf(r: Reached): Outcome {
    match r
    case At(p) => Parsed(p.actions)
    case StoppedBy(error) => Rejected(error)
  }

  lemma {:induction false} StoppedStays(ts: seq<Token>, k: nat, n: nat, entry: Entry, host: Host, syntaxOnly: bool)
    requires k <= n <= |ts|
    requires After(ts, k, entry, host, syntaxOnly).StoppedBy?
    ensures After(ts, n, entry, host, syntaxOnly) == After(ts, k, entry, host, syntaxOnly)
    decreases n
  {
    if k < n {
      StoppedStays(ts, k, n - 1, entry, host, syntaxOnly);
    }
  }

  lemma {:induction false} CompileFromReached(ts: seq<Token>, k: nat, entry: Entry, host: Host, syntaxOnly: bool)
    requires k <= |ts|
    requires After(ts, k, entry, host, syntaxOnly).At?
    ensures CompileFrom(ts, k, entry, host, syntaxOnly, After(ts, k, entry, host, syntaxOnly).p)
         == OutcomeOf(After(ts, |ts|, entry, host, syntaxOnly))
    decreases |ts| - k
  {
    if k < |ts| {
      var next := NextReached(ts, k, entry, host, syntaxOnly);
      if next.At? {
        CompileFromReached(ts, k + 1, entry, host, syntaxOnly);
      } else {
        StoppedStays(ts, k + 1, |ts|, entry, host, syntaxOnly);
      }
    }
  }

  /** One step of the loop and one step of its states. */
  lemma NextReached(ts: seq<Token>, k: nat, entry: Entry, host: Host, syntaxOnly: bool) returns (next: Reached)
    requires k < |ts|
    requires After(ts, k, entry, host, syntaxOnly).At?
    ensures next == After(ts, k + 1, entry, host, syntaxOnly)
    ensures CompileFrom(ts, k, entry, host, syntaxOnly, After(ts, k, entry, host, syntaxOnly).p)
         == match next
            case StoppedBy(error) => Rejected(error)
            case At(p) => CompileFrom(ts, k + 1, entry, host, syntaxOnly, p)
  {
    next := After(ts, k + 1, entry, host, syntaxOnly);
  }

  /** A parse that gets as far as the pattern is decided by its last state. */
  lemma ParseReached(sequence: string, entry: Entry, host: Host, syntaxOnly: bool)
    ensures BracesCount(Rewrite(sequence)) ==>
              var ts := Tokenize(Scan(Rewrite(sequence)));
              Parse(sequence, Given(entry), host, syntaxOnly) == OutcomeOf(After(ts, |ts|, entry, host, syntaxOnly))
  {
    CompileFromReached(Tokenize(Scan(Rewrite(sequence))), 0, entry, host, syntaxOnly);
  }

  // ---------------------------------------------------------------------
  // All or nothing
  // ---------------------------------------------------------------------

  predicate DelayInRange(a: Action) {
    a.Delay? ==> 0 <= a.delayMs <= if a.setExecDelay then 500 else 10000
  }

  ghost predicate WellFormed(actions: seq<Action>, host: Host) {
    && |actions| >= 2
    && actions[0] == Begin
    && actions[1] == Delay(if host.typeDelay < 0 then 0 else if host.typeDelay > 500 then 500 else host.typeDelay, true)
    && forall a :: a in actions ==> DelayInRange(a)
  }

  lemma PlaceholderStepRange(m: Match, kind: Kind, i: nat, entry: Entry, host: Host, syntaxOnly: bool, elapsedMs: int)
    requires m.Placeholder?
    ensures var step := PlaceholderStep(m, kind, i, entry, host, syntaxOnly, elapsedMs);
            match step
            case Stop(error) => error != NoError
            case Emit(segment, _) => forall a :: a in segment ==> DelayInRange(a)
  {
  }

  lemma MatchStepRange(t: Token, i: nat, entry: Entry, host: Host, syntaxOnly: bool, elapsedMs: int)
    ensures var step := MatchStep(t, i, entry, host, syntaxOnly, elapsedMs);
            match step
            case Stop(error) => error != NoError
            case Emit(segment, _) => forall a :: a in segment ==> DelayInRange(a)
  {
    if t.m.Placeholder? {
      PlaceholderStepRange(t.m, t.kind, i, entry, host, syntaxOnly, elapsedMs);
    }
  }

  ghost predicate ReachedOk(r: Reached, host: Host) {
    match r
    case StoppedBy(error) => error != NoError
    case At(p) => WellFormed(p.actions, host)
  }

  lemma {:induction false} ReachedWellFormed(ts: seq<Token>, k: nat, entry: Entry, host: Host, syntaxOnly: bool)
    requires k <= |ts|
    ensures ReachedOk(After(ts, k, entry, host, syntaxOnly), host)
  {
    if k > 0 {
      ReachedWellFormed(ts, k - 1, entry, host, syntaxOnly);
      var r := After(ts, k - 1, entry, host, syntaxOnly);
      if r.At? {
        MatchStepRange(ts[k - 1], k - 1, entry, host, syntaxOnly, ElapsedMs(host, r.p));
        ContinueWellFormed(r.p, MatchStep(ts[k - 1], k - 1, entry, host, syntaxOnly, ElapsedMs(host, r.p)), host);
      }
    }
  }

  lemma ContinueWellFormed(p: Progress, step: Step, host: Host)
    requires WellFormed(p.actions, host)
    requires match step
             case Stop(error) => error != NoError
             case Emit(segment, _) => forall a :: a in segment ==> DelayInRange(a)
    ensures ReachedOk(Continue(p, step), host)
  {
  }

  /** A parse either names an error (and returns no actions) or returns a list that begins
      with Begin and the typing delay and keeps every delay within its limit. */
  lemma AllOrNothing(sequence: string, entry: MaybeEntry, host: Host, syntaxOnly: bool)
    ensures match Parse(sequence, entry, host, syntaxOnly)
            case Rejected(error) => error != NoError
            case Parsed(actions) => WellFormed(actions, host)
  {
    if entry.Given? && BracesCount(Rewrite(sequence)) {
      ParseReached(sequence, entry.entry, host, syntaxOnly);
      var ts := Tokenize(Scan(Rewrite(sequence)));
      ReachedWellFormed(ts, |ts|, entry.entry, host, syntaxOnly);
    }
  }

  /** The shortest sequence with an error of its own. */
  lemma LoneBraceIsRejected(entry: Entry, host: Host)
    ensures Parse("}", Given(entry), host, false) == Rejected(BracketImbalance)
  {
    assert "}"[1..] == [];
    assert RewriteLeft("}") == "}" && RewriteRight("}") == "}";
  }
}
