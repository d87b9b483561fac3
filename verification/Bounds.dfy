/** How long a compiled list and its typing time can become. */
module Bounds {
  import opened Text
  import opened Actions
  import opened Placeholders
  import opened Pattern
  import opened Tokens
  import opened Escapes
  import opened Compiler
  import opened Compilation

  // ---------------------------------------------------------------------
  // What the scanner guarantees about the length of a match
  // ---------------------------------------------------------------------

  /** The repeat count of a match is a digit string, and it takes up room in the text. */
  ghost predicate RoomForRepeat(m: Match) {
    m.Placeholder? ==>
      && 0 < |m.inner|
      && (forall i :: 0 <= i < |m.repeat| ==> IsDigit(m.repeat[i]))
      && |m.full| >= |m.inner| + 2 + (if m.repeat == [] then 0 else |m.repeat| + 1)
  }

  lemma TailHoldsRepeat(tail: string)
    requires Tail(tail) == |tail| > 0
    ensures var repeat := RepeatOf(tail);
            && (forall i :: 0 <= i < |repeat| ==> IsDigit(repeat[i]))
            && |tail| >= 1 + (if repeat == [] then 0 else |repeat| + 1)
  {
    var spaces := Span(tail, IsSpace);
    var digits := tail[spaces..];
    assert tail[|tail| - 1] == '}';
    assert digits[|digits| - 1] == '}';
    assert spaces == 0 ==> digits == tail;
  }

  lemma MatchHasRoom(s: string)
    requires MatchAt(s).Found?
    ensures RoomForRepeat(MatchAt(s).m)
  {
    var m := MatchAt(s).m;
    if m.Placeholder? {
      ScannedGroupIsCanonical(s);
      var body := m.full[1..];
      TailHoldsRepeat(body[|m.inner|..]);
    }
  }

  lemma {:induction false} ScanHasRoom(s: string)
    ensures forall m :: m in Scan(s) ==> RoomForRepeat(m)
    ensures |Texts(Scan(s))| <= |s|
    decreases |s|
  {
    if s == [] {
    } else if MatchAt(s).NoMatch? {
      ScanHasRoom(s[1..]);
    } else {
      var m := MatchAt(s).m;
      MatchHasRoom(s);
      ScanHasRoom(s[|m.Text()|..]);
      assert Scan(s)[1..] == Scan(s[|m.Text()|..]);
    }
  }

  ghost predicate Roomy(t: Token) {
    RoomForRepeat(t.m) && (t.m.Placeholder? && t.kind.Wait? ==> |t.m.inner| == |"delay"|)
  }

  lemma TokensAreRoomy(s: string)
    ensures forall t :: t in Tokenize(Scan(s)) ==> Roomy(t)
  {
    ScanHasRoom(s);
    forall t | t in Tokenize(Scan(s))
      ensures Roomy(t)
    {
      TokenIsRoomy(t.m);
    }
  }

  lemma TokenIsRoomy(m: Match)
    ensures RoomForRepeat(m) ==> Roomy(TokenOf(m))
  {
  }

  // ---------------------------------------------------------------------
  // One match
  // ---------------------------------------------------------------------

  /** Whether the actions of a match are made by a resolver, the TOTP generator or the user. */
  predicate MadeElsewhere(t: Token) {
    t.m.Placeholder? &&
    (t.kind.Attribute? || t.kind.Totp? || t.kind.PickCharacters? || t.kind.Conversion? || t.kind.RegexReplacement?)
  }

  function ExternalOf(t: Token, step: Step): nat {
    if step.Emit? && MadeElsewhere(t) then |step.segment| else 0
  }

  /** The waiting time that a list of actions asks for. */
  function PlainDelays(actions: seq<Action>): int {
    if actions == [] then 0
    else PlainDelays(actions[..|actions| - 1]) + PlainDelay(actions[|actions| - 1])
  }

  function PlainDelay(a: Action): int {
    if a.Delay? && !a.setExecDelay then a.delayMs else 0
  }

  lemma RepeatRange(t: Token)
    requires t.m.Placeholder? && Roomy(t)
    ensures var n := RepeatCount(t.m); 0 <= n <= INT_MAX
    ensures RepeatCount(t.m) <= MAX_REPETITION ==> 2 * RepeatCount(t.m) <= 33 * |t.m.full|
    ensures t.kind.Wait? && RepeatCount(t.m) <= MAX_WAIT_DELAY ==> RepeatCount(t.m) <= 1000 * |t.m.full|
  {
    var repeat := t.m.repeat;
    if repeat != [] {
      ToIntOfDigits(repeat);
      ShortDigits(repeat);
    }
  }

  lemma StepBound(t: Token, i: nat, entry: Entry, host: Host, syntaxOnly: bool, elapsedMs: int)
    requires Roomy(t)
    ensures var step := MatchStep(t, i, entry, host, syntaxOnly, elapsedMs);
            step.Emit? ==>
              && 2 * |step.segment| <= 33 * |t.m.Text()| + 2 * ExternalOf(t, step)
              && 0 <= step.waited <= 1000 * |t.m.Text()|
  {
    if t.m.Placeholder? {
      RepeatRange(t);
    }
  }

  /** The time a match waits is the waiting time of its actions. */
  lemma StepWaits(t: Token, i: nat, entry: Entry, host: Host, syntaxOnly: bool, elapsedMs: int)
    requires Roomy(t)
    ensures var step := MatchStep(t, i, entry, host, syntaxOnly, elapsedMs);
            step.Emit? ==> PlainDelays(step.segment) == step.waited
  {
    if t.m.Character? {
      NoPlainDelays(MatchStep(t, i, entry, host, syntaxOnly, elapsedMs).segment);
    } else {
      RepeatRange(t);
      KindWaits(t.m, t.kind, i, entry, host, syntaxOnly, elapsedMs);
    }
  }

  lemma KindWaits(m: Match, kind: Kind, i: nat, entry: Entry, host: Host, syntaxOnly: bool, elapsedMs: int)
    requires m.Placeholder? && RepeatCount(m) >= 0
    ensures var step := PlaceholderStep(m, kind, i, entry, host, syntaxOnly, elapsedMs);
            step.Emit? ==> PlainDelays(step.segment) == step.waited
  {
    var step := PlaceholderStep(m, kind, i, entry, host, syntaxOnly, elapsedMs);
    if step.Emit? {
      if kind.Wait? {
        assert step.segment[..0] == [];
      } else {
        NoPlainDelays(step.segment);
      }
    }
  }

  lemma {:induction false} NoPlainDelays(actions: seq<Action>)
    requires forall a :: a in actions ==> PlainDelay(a) == 0
    ensures PlainDelays(actions) == 0
  {
    if actions != [] {
      NoPlainDelays(actions[..|actions| - 1]);
    }
  }

  lemma {:induction false} PlainDelaysConcat(a: seq<Action>, b: seq<Action>)
    ensures PlainDelays(a + b) == PlainDelays(a) + PlainDelays(b)
  {
    if b == [] {
      assert a + b == a;
    } else {
      PlainDelaysConcat(a, b[..|b| - 1]);
      assert (a + b)[..|a + b| - 1] == a + b[..|b| - 1];
    }
  }

  // ---------------------------------------------------------------------
  // All matches
  // ---------------------------------------------------------------------

  function TextLength(ts: seq<Token>, k: nat): nat
    requires k <= |ts|
  {
    if k == 0 then 0 else TextLength(ts, k - 1) + |ts[k - 1].m.Text()|
  }

  /** The actions among the first k matches that come from resolvers, TOTP and picks. */
  function External(ts: seq<Token>, k: nat, entry: Entry, host: Host, syntaxOnly: bool): nat
    requires k <= |ts|
  {
    if k == 0 then 0
    else
      match After(ts, k - 1, entry, host, syntaxOnly)
      case StoppedBy(_) => 0
      case At(p) =>
        External(ts, k - 1, entry, host, syntaxOnly)
        + ExternalOf(ts[k - 1], MatchStep(ts[k - 1], k - 1, entry, host, syntaxOnly, ElapsedMs(host, p)))
  }

  /** What is kept true from match to match. */
  ghost predicate Paced(p: Progress, host: Host, text: nat, external: nat) {
    && 2 * (|p.actions| - 2) <= 33 * text + 2 * external
    && p.cumulativeDelay == host.InitialDelay() + PlainDelays(p.actions)
    && host.InitialDelay() <= p.cumulativeDelay <= host.InitialDelay() + 1000 * text
  }

  lemma PacedStep(p: Progress, step: Step, host: Host, text: nat, external: nat, textLength: nat, externalOf: nat)
    requires Paced(p, host, text, external)
    requires step.Emit?
    requires 2 * |step.segment| <= 33 * textLength + 2 * externalOf
    requires 0 <= step.waited <= 1000 * textLength
    requires PlainDelays(step.segment) == step.waited
    ensures Paced(Advance(p, step), host, text + textLength, external + externalOf)
  {
    PlainDelaysConcat(p.actions, step.segment);
  }

  lemma PacedNext(t: Token, i: nat, entry: Entry, host: Host, syntaxOnly: bool, p: Progress, text: nat, external: nat)
    requires Roomy(t) && Paced(p, host, text, external)
    ensures var step := MatchStep(t, i, entry, host, syntaxOnly, ElapsedMs(host, p));
            step.Emit? ==> Paced(Advance(p, step), host, text + |t.m.Text()|, external + ExternalOf(t, step))
  {
    var step := MatchStep(t, i, entry, host, syntaxOnly, ElapsedMs(host, p));
    StepBound(t, i, entry, host, syntaxOnly, ElapsedMs(host, p));
    StepWaits(t, i, entry, host, syntaxOnly, ElapsedMs(host, p));
    if step.Emit? {
      PacedStep(p, step, host, text, external, |t.m.Text()|, ExternalOf(t, step));
    }
  }

  lemma {:induction false} ReachedPaced(ts: seq<Token>, k: nat, entry: Entry, host: Host, syntaxOnly: bool)
    requires k <= |ts|
    requires forall t :: t in ts ==> Roomy(t)
    ensures var r := After(ts, k, entry, host, syntaxOnly);
            r.At? ==> Paced(r.p, host, TextLength(ts, k), External(ts, k, entry, host, syntaxOnly))
  {
    if k == 0 {
      NoPlainDelays(Compiler.Start(host).actions);
    } else {
      ReachedPaced(ts, k - 1, entry, host, syntaxOnly);
      var r := After(ts, k - 1, entry, host, syntaxOnly);
      if r.At? {
        PacedNext(ts[k - 1], k - 1, entry, host, syntaxOnly, r.p,
                  TextLength(ts, k - 1), External(ts, k - 1, entry, host, syntaxOnly));
      }
    }
  }

  lemma {:induction false} TextLengthIsTexts(ms: seq<Match>, k: nat)
    requires k <= |ms|
    ensures TextLength(Tokenize(ms), k) == |Texts(ms[..k])|
  {
    if k == 0 {
      assert ms[..0] == [];
    } else {
      TextLengthIsTexts(ms, k - 1);
      assert ms[..k] == ms[..k - 1] + [ms[k - 1]];
      TextsAppend(ms[..k - 1], ms[k - 1]);
    }
  }

  lemma {:induction false} TextsAppend(ms: seq<Match>, m: Match)
    ensures |Texts(ms + [m])| == |Texts(ms)| + |m.Text()|
  {
    if ms == [] {
      assert ms + [m] == [m];
      assert [m][1..] == [];
    } else {
      TextsAppend(ms[1..], m);
      assert (ms + [m])[1..] == ms[1..] + [m];
    }
  }

  lemma {:induction false} TextLengthGrows(ts: seq<Token>, j: nat, k: nat)
    requires j <= k <= |ts|
    ensures TextLength(ts, j) <= TextLength(ts, k)
  {
    if j < k {
      TextLengthGrows(ts, j, k - 1);
    }
  }

  /** The matches take up no more room than the rewritten sequence. */
  lemma TextFits(s: string, k: nat)
    requires k <= |Scan(s)|
    ensures TextLength(Tokenize(Scan(s)), k) <= |s|
  {
    var ms := Scan(s);
    ScanHasRoom(s);
    TextLengthIsTexts(ms, |ms|);
    assert ms[..|ms|] == ms;
    TextLengthGrows(Tokenize(ms), k, |ms|);
  }

  // ---------------------------------------------------------------------
  // The theorems
  // ---------------------------------------------------------------------

  /** How many of the actions of a parse come from resolvers, TOTP and picked characters. */
  function ExternalActions(sequence: string, entry: Entry, host: Host, syntaxOnly: bool): nat {
    var ts := Tokenize(Scan(Rewrite(sequence)));
    External(ts, |ts|, entry, host, syntaxOnly)
  }

  /** A successful parse makes at most sixteen and a half actions of its own for each
      character of the rewritten sequence, besides the two initial ones. */
  lemma ExpansionBound(sequence: string, entry: Entry, host: Host, syntaxOnly: bool)
    ensures var outcome := Parse(sequence, Given(entry), host, syntaxOnly);
            outcome.Parsed? ==>
              2 * (|outcome.actions| - 2) <=
                33 * |Rewrite(sequence)| + 2 * ExternalActions(sequence, entry, host, syntaxOnly)
  {
    if BracesCount(Rewrite(sequence)) {
      var s := Rewrite(sequence);
      var ts := Tokenize(Scan(s));
      ParseReached(sequence, entry, host, syntaxOnly);
      TokensAreRoomy(s);
      ReachedPaced(ts, |ts|, entry, host, syntaxOnly);
      TextFits(s, |ts|);
    }
  }

  /** The time that a run of the actions so far takes: the start delay, every plain delay and
      the configured typing delay for each action, both delays within their limits. */
  function ScheduledMs(host: Host, actions: seq<Action>): int {
    var start := if host.startDelay < 100 then 100 else if host.startDelay > 10000 then 10000 else host.startDelay;
    var typing := if host.typeDelay < 0 then 0 else if host.typeDelay > 500 then 500 else host.typeDelay;
    start + PlainDelays(actions) + typing * |actions|
  }

  /** A TOTP match types the digits of the time at which its turn comes, in whole seconds. */
  ghost predicate TypesScheduledTotp(t: Token, now: int, entry: Entry, host: Host, p: Progress, next: Reached) {
    t.m.Placeholder? && t.kind.Totp? && entry.hasValidTotp ==>
      var time := now + ScheduledMs(host, p.actions) / 1000;
      next == At(Progress(p.actions + Typed(entry.totpAt(time)), p.cumulativeDelay))
  }

  lemma StepIsScheduled(t: Token, k: nat, entry: Entry, host: Host, syntaxOnly: bool, p: Progress)
    requires p.cumulativeDelay == host.InitialDelay() + PlainDelays(p.actions)
    ensures TypesScheduledTotp(t, host.now(k), entry, host, p,
                               Continue(p, MatchStep(t, k, entry, host, syntaxOnly, ElapsedMs(host, p))))
  {
  }

  lemma AfterNext(ts: seq<Token>, k: nat, entry: Entry, host: Host, syntaxOnly: bool, p: Progress)
    requires k < |ts| && After(ts, k, entry, host, syntaxOnly) == At(p)
    ensures After(ts, k + 1, entry, host, syntaxOnly)
         == Continue(p, MatchStep(ts[k], k, entry, host, syntaxOnly, ElapsedMs(host, p)))
  {
  }

  lemma TokenIsScheduled(ts: seq<Token>, k: nat, entry: Entry, host: Host, syntaxOnly: bool, p: Progress)
    requires k < |ts| && forall t :: t in ts ==> Roomy(t)
    requires After(ts, k, entry, host, syntaxOnly) == At(p)
    ensures TypesScheduledTotp(ts[k], host.now(k), entry, host, p, After(ts, k + 1, entry, host, syntaxOnly))
  {
    ReachedPaced(ts, k, entry, host, syntaxOnly);
    AfterNext(ts, k, entry, host, syntaxOnly, p);
    StepIsScheduled(ts[k], k, entry, host, syntaxOnly, p);
  }

  /** At every match that a parse reaches, the time used for TOTP counts the initial
      delay, every plain delay compiled so far and the initial typing delay for each
      action, whatever {DELAY=x} has set in between. */
  lemma TotpIsScheduled(sequence: string, k: nat, entry: Entry, host: Host, syntaxOnly: bool)
    requires k < |Tokenize(Scan(Rewrite(sequence)))|
    ensures var ts := Tokenize(Scan(Rewrite(sequence)));
            var r := After(ts, k, entry, host, syntaxOnly);
            r.At? ==>
              TypesScheduledTotp(ts[k], host.now(k), entry, host, r.p, After(ts, k + 1, entry, host, syntaxOnly))
  {
    var ts := Tokenize(Scan(Rewrite(sequence)));
    TokensAreRoomy(Rewrite(sequence));
    var r := After(ts, k, entry, host, syntaxOnly);
    if r.At? {
      TokenIsScheduled(ts, k, entry, host, syntaxOnly, r.p);
    }
  }

  const MAX_SEQUENCE: nat := 200_000
  const MAX_EXTERNAL: nat := 200_000

  lemma ElapsedArithmetic(typing: int, count: int, initial: int, waited: int, text: nat, external: nat)
    requires 0 <= typing <= MAX_TYPE_DELAY && MIN_WAIT_DELAY <= initial <= MAX_WAIT_DELAY
    requires 0 <= count && 2 * (count - 2) <= 33 * text + 2 * external
    requires initial <= waited <= initial + 1000 * text
    requires text <= MAX_SEQUENCE && external <= MAX_EXTERNAL
    ensures 0 <= waited <= INT_MAX && 0 <= typing * count <= INT_MAX && 0 <= waited + typing * count <= INT_MAX
  {
    assert count <= 3_500_002;
    ProductBound(typing, count, 500, 3_500_002);
  }

  lemma ProductBound(a: int, b: int, c: int, d: int)
    requires 0 <= a <= c && 0 <= b <= d
    ensures 0 <= a * b <= c * d
  {
    assert a * b <= c * b;
    assert c * b <= c * d;
  }

  /** The sum of milliseconds and both its terms fit a signed 32-bit integer at every match. */
  lemma ElapsedFitsInt(sequence: string, k: nat, entry: Entry, host: Host, syntaxOnly: bool)
    requires |Rewrite(sequence)| <= MAX_SEQUENCE
    requires k <= |Scan(Rewrite(sequence))|
    requires External(Tokenize(Scan(Rewrite(sequence))), k, entry, host, syntaxOnly) <= MAX_EXTERNAL
    ensures var r := After(Tokenize(Scan(Rewrite(sequence))), k, entry, host, syntaxOnly);
            r.At? ==>
              && 0 <= r.p.cumulativeDelay <= INT_MAX
              && 0 <= host.TypingDelay() * |r.p.actions| <= INT_MAX
              && 0 <= ElapsedMs(host, r.p) <= INT_MAX
  {
    var s := Rewrite(sequence);
    var ts := Tokenize(Scan(s));
    TokensAreRoomy(s);
    ReachedPaced(ts, k, entry, host, syntaxOnly);
    TextFits(s, k);
    var r := After(ts, k, entry, host, syntaxOnly);
    if r.At? {
      ElapsedArithmetic(host.TypingDelay(), |r.p.actions|, host.InitialDelay(), r.p.cumulativeDelay,
                        TextLength(ts, k), External(ts, k, entry, host, syntaxOnly));
    }
  }
}
