/** Which calls lead to a dialog, which to an execution, and into which window and in which mode
    that execution types. */
module Targets {
  import opened Actions
  import opened Compiler
  import opened Execution
  import opened Session
  import opened Reentrancy

  // ---------------------------------------------------------------------
  // What a global call decides
  // ---------------------------------------------------------------------

  /** An execution has begun. */
  lemma ExecuteBegins(s: State, run: Run, window: int, mode: Mode)
    requires InvButDialog(s)
    ensures Execute(s, run, window, mode).nextId > s.nextId
  {
    var parsed := Deliver(Begun(s), run.parsing);
    var outcome := Parse(run.sequence, run.entry, run.host, false);
    BegunInv(s);
    DeliverSafe(Begun(s), run.parsing);
    assert Execute(s, run, window, mode) == AfterParse(parsed, s.nextId, outcome, run, window, mode);
    match outcome
    case Rejected(_) => DeliverSafe(parsed, run.errorBox);
    case Parsed(actions) =>
      if !parsed.inAutoType {
        TakeLock(parsed, s.nextId);
        LockedSafe(Record(parsed.(inAutoType := true), Took(s.nextId)), s.nextId, run, actions, window, mode);
      }
  }

  /** A global call while the dialog lock is free, with the number of entries that match the title.
      A dialog opens and nothing is executed exactly if there is a main window and the user always
      wants to be asked, the title is empty, or not exactly one entry matches. */
  lemma DialogOpensIff(s: State, hasMainWindow: bool, alwaysAsk: bool, matches: nat, run: Run)
    requires Inv(s) && !s.inDialog
    ensures var s' := Dispatch(s, PerformGlobal(hasMainWindow, alwaysAsk, matches, run));
            && (s'.nextId == s.nextId && s'.dialogs == s.dialogs + 1 <==>
                  hasMainWindow && (alwaysAsk || s.titleForGlobal == [] || matches != 1))
            && (hasMainWindow && (alwaysAsk || s.titleForGlobal == [] || matches != 1) ==>
                  && s'.inDialog && s'.executor == s.executor && s'.queued == s.queued && s'.live == s.live
                  && s'.windowForGlobal == s.windowForGlobal && s'.titleForGlobal == s.titleForGlobal)
  {
    var opens := hasMainWindow && (alwaysAsk || s.titleForGlobal == [] || matches != 1);
    TakeDialogSafe(s, false);
    if !opens && s.titleForGlobal != [] && matches > 0 {
      ExecuteBegins(TakeDialog(s, false), run, s.windowForGlobal, Normal);
    }
  }

  /** Something is executed exactly if the title is not empty and some entry matches, and either
      there is no main window or exactly one entry matches and the user need not be asked. It is
      executed in the remembered window and in normal mode, with the dialog lock held. */
  lemma GlobalExecutesIff(s: State, hasMainWindow: bool, alwaysAsk: bool, matches: nat, run: Run)
    requires Inv(s) && !s.inDialog
    ensures var s' := Dispatch(s, PerformGlobal(hasMainWindow, alwaysAsk, matches, run));
            var executes := s.titleForGlobal != [] && matches > 0 && (!hasMainWindow || (matches == 1 && !alwaysAsk));
            && (s'.nextId > s.nextId <==> executes)
            && (executes ==> s' == Execute(Locking(s), run, s.windowForGlobal, Normal))
  {
    TakeDialogSafe(s, false);
    if s.titleForGlobal != [] && matches > 0 && (!hasMainWindow || (matches == 1 && !alwaysAsk)) {
      ExecuteBegins(TakeDialog(s, false), run, s.windowForGlobal, Normal);
    }
  }

  /** The state whose dialog lock has just been taken without a dialog. */
  function Locking(s: State): State {
    s.(inDialog := true, log := s.log + [TookDialog(false, s.dialogs, s.queued)])
  }

  /** Otherwise the call signals at once, which frees the lock and forgets the window. */
  lemma GlobalSignalsIff(s: State, hasMainWindow: bool, alwaysAsk: bool, matches: nat, run: Run)
    requires Inv(s) && !s.inDialog
    ensures var s' := Dispatch(s, PerformGlobal(hasMainWindow, alwaysAsk, matches, run));
            !hasMainWindow && (s.titleForGlobal == [] || matches == 0) ==>
              && s'.log == s.log + [TookDialog(false, s.dialogs, s.queued), FinishedByDialog]
              && !s'.inDialog && s'.windowForGlobal == 0 && s'.titleForGlobal == []
              && s'.dialogs == s.dialogs && s'.nextId == s.nextId && s'.executor == s.executor
  {
    assert s.log + [TookDialog(false, s.dialogs, s.queued)] + [FinishedByDialog]
        == s.log + [TookDialog(false, s.dialogs, s.queued), FinishedByDialog];
  }

  /** While the lock is held the call does nothing at all. */
  lemma GlobalIsRefused(s: State, hasMainWindow: bool, alwaysAsk: bool, matches: nat, run: Run)
    requires s.inDialog
    ensures Dispatch(s, PerformGlobal(hasMainWindow, alwaysAsk, matches, run)) == s
  {
  }

  // ---------------------------------------------------------------------
  // The remembered window
  // ---------------------------------------------------------------------

  /** The j-th entry of the history remembers a window, and nothing later forgets or replaces it. */
  ghost predicate Remembered(log: seq<Mark>, j: nat) {
    && j < |log| && log[j].Started?
    && forall i :: j < i < |log| ==> !log[i].Started? && !IsSignal(log[i])
  }

  lemma {:induction false} WindowIsBehind(log: seq<Mark>)
    ensures (forall j: nat :: !Remembered(log, j)) ==> Watch(log).window == 0 && Watch(log).title == []
    ensures forall j: nat :: Remembered(log, j) ==>
              Watch(log).window == log[j].window && Watch(log).title == log[j].title
  {
    if log != [] {
      var before, last := log[..|log| - 1], log[|log| - 1];
      WindowIsBehind(before);
      if last.Started? {
        assert Remembered(log, |log| - 1);
      } else if !IsSignal(last) {
        forall j: nat
          ensures Remembered(log, j) <==> Remembered(before, j)
        {
          RememberedBefore(log, j);
        }
      }
    }
  }

  lemma RememberedBefore(log: seq<Mark>, j: nat)
    requires log != [] && !log[|log| - 1].Started? && !IsSignal(log[|log| - 1])
    ensures Remembered(log, j) <==> Remembered(log[..|log| - 1], j)
  {
    var before := log[..|log| - 1];
    if Remembered(before, j) {
      assert forall i :: j < i < |log| ==> i == |log| - 1 || log[i] == before[i];
    }
  }

  /** The window of the last admitted start since the last signal, and 0 if there is none. */
  ghost function RememberedWindow(log: seq<Mark>): (window: int)
    ensures forall j: nat :: Remembered(log, j) ==> window == log[j].window
    ensures (forall j: nat :: !Remembered(log, j)) ==> window == 0
  {
    WindowIsBehind(log);
    Watch(log).window
  }

  /** A start while the application's own window is active is ignored; any other is remembered. */
  lemma StartIsRemembered(s: State, ownWindowActive: bool, window: int, title: string)
    ensures var s' := Dispatch(s, StartGlobal(ownWindowActive, window, title));
            && (ownWindowActive ==> s' == s)
            && (!ownWindowActive ==>
                  && Remembered(s'.log, |s.log|) && s'.log[|s.log|] == Started(window, title)
                  && s' == s.(windowForGlobal := window, titleForGlobal := title,
                              log := s.log + [Started(window, title)]))
  {
  }

  // ---------------------------------------------------------------------
  // What an event types, and where
  // ---------------------------------------------------------------------

  /** From begun to s' the executor is called as by the plain run of the list, in the window and the mode. */
  ghost predicate TypesInto(begun: State, s': State, run: Run, actions: seq<Action>, target: int, mode: Mode) {
    var parsed := Deliver(begun, run.parsing);
    Watch(s'.log).attempts == Watch(parsed.log).attempts
      + RunFrom(actions, 0, target, PlatformOf(run), ExecutorState(parsed.executor.execDelayMs, mode)).attempts
  }

  /** A window of 0 stands for the one in front when the event loop has settled. */
  function Target(window: int, run: Run): int {
    if window == 0 then run.foreground else window
  }

  lemma ExecutionTypesInto(s: State, run: Run, window: int, mode: Mode, actions: seq<Action>)
    requires InvButDialog(s) && !s.inAutoType
    requires Parse(run.sequence, run.entry, run.host, false) == Parsed(actions)
    ensures TypesInto(Begun(s), Execute(s, run, window, mode), run, actions, Target(window, run), mode)
  {
    ExecutionIsUndisturbed(s, run, window, mode, actions);
  }

  lemma RememberedIsHeld(s: State)
    requires Inv(s)
    ensures s.windowForGlobal == RememberedWindow(s.log)
  {
  }

  lemma ChoiceIsExecuted(s: State, run: Run, virtualMode: bool)
    requires s.queued > 0
    ensures Dispatch(s, ActivationDelivered(run, virtualMode))
         == Execute(s.(queued := s.queued - 1, log := s.log + [Delivered]), run, s.windowForGlobal,
                    if virtualMode then Virtual else Normal)
  {
    hide Execute;
    assert Record(s.(queued := s.queued - 1), Delivered) == s.(queued := s.queued - 1, log := s.log + [Delivered]);
  }

  /** The calls of a choice that is delivered while the run lock is free are those of its list in the
      remembered window, in virtual mode exactly if that was chosen. */
  lemma ChoiceTypesInto(s: State, run: Run, virtualMode: bool, actions: seq<Action>)
    requires Inv(s) && s.queued > 0 && !s.inAutoType
    requires Parse(run.sequence, run.entry, run.host, false) == Parsed(actions)
    ensures TypesInto(Begun(s.(queued := s.queued - 1, log := s.log + [Delivered])),
                      Dispatch(s, ActivationDelivered(run, virtualMode)), run, actions,
                      Target(RememberedWindow(s.log), run), if virtualMode then Virtual else Normal)
  {
    hide Execute, TypesInto;
    RememberedIsHeld(s);
    ChoiceIsExecuted(s, run, virtualMode);
    DeliveredSafe(s);
    ExecutionTypesInto(s.(queued := s.queued - 1, log := s.log + [Delivered]), run, s.windowForGlobal,
                       if virtualMode then Virtual else Normal, actions);
  }

  /** Those of Auto-Type for an entry are in the window in front, in normal mode. */
  lemma EntryTypesInto(s: State, run: Run, actions: seq<Action>)
    requires Inv(s) && !s.inAutoType
    requires Parse(run.sequence, run.entry, run.host, false) == Parsed(actions)
    ensures TypesInto(Begun(s), Dispatch(s, PerformAutoType(run)), run, actions, run.foreground, Normal)
  {
    ExecutionTypesInto(s, run, 0, Normal, actions);
  }

  /** And those of a global call that need not ask are in the remembered window, in normal mode. */
  lemma SingleMatchTypesInto(s: State, hasMainWindow: bool, alwaysAsk: bool, matches: nat, run: Run,
                             actions: seq<Action>)
    requires Inv(s) && !s.inDialog && !s.inAutoType
    requires s.titleForGlobal != [] && matches > 0 && (!hasMainWindow || (matches == 1 && !alwaysAsk))
    requires Parse(run.sequence, run.entry, run.host, false) == Parsed(actions)
    ensures TypesInto(Begun(Locking(s)), Dispatch(s, PerformGlobal(hasMainWindow, alwaysAsk, matches, run)),
                      run, actions, Target(RememberedWindow(s.log), run), Normal)
  {
    TakeDialogSafe(s, false);
    GlobalExecutesIff(s, hasMainWindow, alwaysAsk, matches, run);
    ExecutionTypesInto(TakeDialog(s, false), run, s.windowForGlobal, Normal, actions);
  }

  // ---------------------------------------------------------------------
  // When the event loop runs during an execution
  // ---------------------------------------------------------------------

  /** The state after a signal: the dialog lock is free and the window forgotten. */
  function Forgotten(s: State, log: seq<Mark>): State {
    s.(inDialog := false, windowForGlobal := 0, titleForGlobal := [], log := log)
  }

  /** A sequence that does not parse: a message box, the signal, and the return. */
  lemma FailedParse(s: State, run: Run, window: int, mode: Mode)
    requires Parse(run.sequence, run.entry, run.host, false).Rejected?
    ensures var told := Deliver(Deliver(Begun(s), run.parsing), run.errorBox);
            Execute(s, run, window, mode)
            == Forgotten(told.(live := told.live - 1), told.log + [Finished(s.nextId)])
  {
  }

  /** A run that finds the lock free: it takes the lock, raises its window if it has one, writes the
      mode, lets the window settle, performs its actions, and gives the lock back before it signals. */
  lemma WholeExecution(s: State, run: Run, window: int, mode: Mode, actions: seq<Action>)
    requires Parse(run.sequence, run.entry, run.host, false) == Parsed(actions)
    requires !Deliver(Begun(s), run.parsing).inAutoType
    ensures var parsed := Deliver(Begun(s), run.parsing);
            var locked := parsed.(inAutoType := true, log := parsed.log + [Took(s.nextId)]);
            var raised := if window == 0 then locked else Deliver(locked, run.raising);
            var ready := raised.(executor := raised.executor.(mode := mode),
                                 log := raised.log + [ModeWritten(s.nextId, mode)]);
            var last := ActionsFrom(Deliver(ready, run.settling), s.nextId, run, actions, 0, Target(window, run));
            Execute(s, run, window, mode)
            == Forgotten(last.(inAutoType := false, live := last.live - 1),
                         last.log + [Gave(s.nextId)] + [Finished(s.nextId)])
  {
    hide ActionsFrom, Deliver;
    var parsed := Deliver(Begun(s), run.parsing);
    LockedRun(parsed.(inAutoType := true, log := parsed.log + [Took(s.nextId)]), s.nextId, run, actions, window, mode);
  }

  lemma LockedRun(locked: State, id: nat, run: Run, actions: seq<Action>, window: int, mode: Mode)
    ensures var raised := if window == 0 then locked else Deliver(locked, run.raising);
            var ready := raised.(executor := raised.executor.(mode := mode),
                                 log := raised.log + [ModeWritten(id, mode)]);
            var last := ActionsFrom(Deliver(ready, run.settling), id, run, actions, 0, Target(window, run));
            Locked(locked, id, run, actions, window, mode)
            == last.(inAutoType := false, log := last.log + [Gave(id)])
  {
    hide ActionsFrom, Deliver;
  }

  /** Between two tries of an action the event loop runs, and also behind the last one that fails. */
  lemma TriesAreWaitedFor(s: State, id: nat, run: Run, a: Action, i: nat, k: nat)
    requires 1 <= k <= 5 && Listed(run, i, k)
    ensures var t := run.scripts[i].tries[k - 1];
            var waited := Deliver(Processed(s, id, run, a, i, k), t.waiting);
            var result := ResultOf(a, t.answer);
            TriesFrom(s, id, run, a, i, k)
            == if result == Ok then TriedState(Processed(s, id, run, a, i, k), true)
               else if result == Retry && k < 5 then TriesFrom(waited, id, run, a, i, k + 1)
               else TriedState(waited, false)
  {
  }

  // ---------------------------------------------------------------------
  // Dialogs
  // ---------------------------------------------------------------------

  /** A choice closes its dialog and waits to be delivered; it signals nothing. */
  lemma ChoiceIsQueued(s: State)
    requires s.dialogs > 0
    ensures Dispatch(s, DialogActivated)
         == s.(dialogs := s.dialogs - 1, queued := s.queued + 1, log := s.log + [Chosen])
  {
  }

  /** A dialog that is hidden signals and stays open. */
  lemma HidingSignals(s: State)
    requires s.dialogs > 0
    ensures Dispatch(s, DialogHidden) == Forgotten(s, s.log + [FinishedByDialog])
  {
  }

  /** A dialog that is rejected is closed and signals, twice if it was shown. */
  lemma RejectionSignals(s: State, shown: bool)
    requires s.dialogs > 0
    ensures var signals := if shown then [FinishedByDialog, FinishedByDialog] else [FinishedByDialog];
            Dispatch(s, DialogRejected(shown))
            == Forgotten(s.(dialogs := s.dialogs - 1), s.log + [DialogGone] + signals)
  {
    var log := s.log + [DialogGone];
    TwoMarks(log);
    var closed := s.(dialogs := s.dialogs - 1, log := log);
    SignalForgets(closed);
    SignalForgets(DialogSignal(closed));
  }

  lemma SignalForgets(s: State)
    ensures DialogSignal(s) == Forgotten(s, s.log + [FinishedByDialog])
  {
  }

  lemma TwoMarks(log: seq<Mark>)
    ensures log + [FinishedByDialog] + [FinishedByDialog] == log + [FinishedByDialog, FinishedByDialog]
  {
  }

  /** The dialogs that were opened. */
  function Opened(log: seq<Mark>): nat {
    if log == [] then 0
    else
      var last := log[|log| - 1];
      Opened(log[..|log| - 1]) + if last.TookDialog? && last.opens then 1 else 0
  }

  lemma {:induction false} CountsTold(log: seq<Mark>)
    ensures Watch(log).open == Opened(log) - Tally(log, DialogGone) - Tally(log, Chosen)
    ensures Watch(log).waiting == Tally(log, Chosen) - Tally(log, Delivered)
  {
    if log != [] {
      CountsTold(log[..|log| - 1]);
    }
  }

  /** In any script no dialog and no choice is lost or made up: every dialog that was opened is
      open, or was rejected or chosen from, and every choice waits or was delivered. */
  lemma DialogsAreConserved(es: seq<Event>)
    ensures var s := Deliver(INITIAL, es);
            && Opened(s.log) == s.dialogs + Tally(s.log, DialogGone) + Tally(s.log, Chosen)
            && Tally(s.log, Chosen) == s.queued + Tally(s.log, Delivered)
  {
    InitialInv();
    DeliverSafe(INITIAL, es);
    CountsTold(Deliver(INITIAL, es).log);
  }

  lemma InitialInv()
    ensures Inv(INITIAL)
  {
  }

  // ---------------------------------------------------------------------
  // From the shortcut to the keys
  // ---------------------------------------------------------------------

  lemma DispatchKeepsInv(s: State, e: Event) returns (s': State)
    requires Inv(s)
    ensures s' == Dispatch(RecordYield(s), e) && Inv(s') && Inv(RecordYield(s))
    ensures s'.inAutoType == s.inAutoType
  {
    YieldSafe(s);
    DispatchSafe(RecordYield(s), e);
    s' := Dispatch(RecordYield(s), e);
  }

  /** The global shortcut in some window, a dialog, and a choice in it: the whole history of calls is
      the run of the chosen list in that window, in the mode that was chosen. */
  lemma ChosenMatchIsTyped(window: int, title: string, matches: nat, other: Run, run: Run, virtualMode: bool,
                           actions: seq<Action>)
    requires run.parsing == [] && Parse(run.sequence, run.entry, run.host, false) == Parsed(actions)
    ensures var es := [StartGlobal(false, window, title), PerformGlobal(true, true, matches, other), DialogActivated,
                       ActivationDelivered(run, virtualMode)];
            Watch(Deliver(INITIAL, es).log).attempts
            == RunFrom(actions, 0, Target(window, run), PlatformOf(run),
                       ExecutorState(25, if virtualMode then Virtual else Normal)).attempts
  {
    InitialInv();
    var started := DispatchKeepsInv(INITIAL, StartGlobal(false, window, title));
    var open := DispatchKeepsInv(started, PerformGlobal(true, true, matches, other));
    var chosen := DispatchKeepsInv(open, DialogActivated);
    var last := DispatchKeepsInv(chosen, ActivationDelivered(run, virtualMode));
    NothingCalledYet(window, title, matches, other);
    YieldAddsNothing(chosen);
    ChosenTypes(RecordYield(chosen), run, virtualMode, actions);
    DeliverFour(INITIAL, StartGlobal(false, window, title), PerformGlobal(true, true, matches, other),
                DialogActivated, ActivationDelivered(run, virtualMode));
    YieldAddsNothing(last);
  }

  lemma YieldAddsNothing(s: State)
    ensures Watch(RecordYield(s).log).attempts == Watch(s.log).attempts
  {
    WatchRecord(s, Yielded(SnapshotOf(s)));
  }

  /** An event that calls no action and leaves the executor alone. */
  ghost predicate Quiet(s: State, s': State) {
    Watch(s'.log).attempts == Watch(s.log).attempts && s'.executor == s.executor
  }

  lemma StartIsQuiet(s: State, window: int, title: string) returns (s': State)
    ensures s' == Dispatch(RecordYield(s), StartGlobal(false, window, title)) && Quiet(s, s')
    ensures s'.windowForGlobal == window && s'.inDialog == s.inDialog
    ensures s'.dialogs == s.dialogs && s'.queued == s.queued
  {
    var t := RecordYield(s);
    s' := Dispatch(t, StartGlobal(false, window, title));
    YieldAddsNothing(s);
    WatchRecord(t.(windowForGlobal := window, titleForGlobal := title), Started(window, title));
  }

  lemma OpeningIsQuiet(s: State, matches: nat, other: Run) returns (s': State)
    requires !s.inDialog
    ensures s' == Dispatch(RecordYield(s), PerformGlobal(true, true, matches, other)) && Quiet(s, s')
    ensures s'.windowForGlobal == s.windowForGlobal && s'.dialogs == s.dialogs + 1 && s'.queued == s.queued
  {
    var t := RecordYield(s);
    s' := Dispatch(t, PerformGlobal(true, true, matches, other));
    assert s' == Global(t, true, true, matches, other);
    assert s' == TakeDialog(t, true);
    YieldAddsNothing(s);
    WatchRecord(t.(inDialog := true, dialogs := t.dialogs + 1), TookDialog(true, t.dialogs, t.queued));
  }

  lemma ChoiceIsQuiet(s: State) returns (s': State)
    requires s.dialogs > 0
    ensures s' == Dispatch(RecordYield(s), DialogActivated) && Quiet(s, s')
    ensures s'.windowForGlobal == s.windowForGlobal && s'.queued == s.queued + 1
  {
    var t := RecordYield(s);
    s' := Dispatch(t, DialogActivated);
    YieldAddsNothing(s);
    ChoiceIsQueued(t);
    WatchRecord(t.(dialogs := t.dialogs - 1, queued := t.queued + 1), Chosen);
  }

  lemma NothingCalledYet(window: int, title: string, matches: nat, other: Run)
    ensures var started := Dispatch(RecordYield(INITIAL), StartGlobal(false, window, title));
            var open := Dispatch(RecordYield(started), PerformGlobal(true, true, matches, other));
            var chosen := Dispatch(RecordYield(open), DialogActivated);
            chosen.queued == 1 && chosen.windowForGlobal == window && Quiet(INITIAL, chosen)
  {
    var started := StartIsQuiet(INITIAL, window, title);
    var open := OpeningIsQuiet(started, matches, other);
    var chosen := ChoiceIsQuiet(open);
  }

  lemma ChosenTypes(s: State, run: Run, virtualMode: bool, actions: seq<Action>)
    requires Inv(s) && s.queued > 0 && !s.inAutoType && run.parsing == []
    requires Parse(run.sequence, run.entry, run.host, false) == Parsed(actions)
    requires Watch(s.log).attempts == []
    ensures Watch(Dispatch(s, ActivationDelivered(run, virtualMode)).log).attempts
         == RunFrom(actions, 0, Target(s.windowForGlobal, run), PlatformOf(run),
                    ExecutorState(s.executor.execDelayMs, if virtualMode then Virtual else Normal)).attempts
  {
    hide Execute, Dispatch, RunFrom;
    var taken := Record(s.(queued := s.queued - 1), Delivered);
    ChoiceTypesInto(s, run, virtualMode, actions);
    WatchRecord(s.(queued := s.queued - 1), Delivered);
    assert Deliver(Begun(taken), []) == RecordYield(Begun(taken));
    YieldAddsNothing(Begun(taken));
    assert Watch(s.log).window == s.windowForGlobal;
    NoAttemptsBefore(RunFrom(actions, 0, Target(s.windowForGlobal, run), PlatformOf(run),
                             ExecutorState(s.executor.execDelayMs, if virtualMode then Virtual else Normal)).attempts);
  }

  lemma NoAttemptsBefore(attempts: seq<Attempt>)
    ensures [] + attempts == attempts
  {
  }

  lemma DeliverFour(s: State, a: Event, b: Event, c: Event, d: Event)
    ensures var first := Dispatch(RecordYield(s), a);
            var second := Dispatch(RecordYield(first), b);
            var third := Dispatch(RecordYield(second), c);
            Deliver(s, [a, b, c, d]) == RecordYield(Dispatch(RecordYield(third), d))
  {
    assert [a, b, c, d][1..] == [b, c, d];
    var first := Dispatch(RecordYield(s), a);
    assert Deliver(s, [a, b, c, d]) == Deliver(first, [b, c, d]);
    DeliverThree(first, b, c, d);
  }
}
