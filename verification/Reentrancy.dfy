/** Safety of the Auto-Type object under every interleaving of nested calls. */
module Reentrancy {
  import opened Actions
  import opened Compiler
  import Compilation
  import opened Execution
  import opened Session

  // ---------------------------------------------------------------------
  // A monitor that reads the history
  // ---------------------------------------------------------------------

  /** Who holds m_inAutoType; who has released it and not signalled yet. */
  datatype Holder = Nobody | By(id: nat) | Owing(id: nat)

  /** The dialog lock as the history tells it: never taken, taken, or freed by a signal since. */
  datatype DialogLock = Untouched | Taken | Freed

  /** How far the run that holds the lock is: nothing done, waiting for the event loop to run, or
      ready for its next step. */
  datatype Phase = Fresh | Busy | Settled

  function Rested(p: Phase): Phase {
    if p.Busy? then Settled else p
  }

  /** The last two pairs are the window to type into with its title, and how many dialogs are open
      and how many choices wait to be delivered. */
  datatype Monitor = Monitor(
    ok: bool,
    holder: Holder,
    finished: set<nat>,
    attempts: seq<Attempt>,
    dialog: DialogLock,
    window: int,
    title: string,
    open: int,
    waiting: int,
    phase: Phase)

  /** What a signal does: it frees the dialog lock, and the window is forgotten. */
  function Signalled(m: Monitor): Monitor {
    m.(dialog := if m.dialog.Taken? then Freed else m.dialog, window := 0, title := [])
  }

  /** The dialog lock is held for a reason, and the run lock is held by a live execution. */
  predicate LocksJustified(inAutoType: bool, inDialog: bool, dialogs: int, queued: int, live: int) {
    && (inAutoType ==> live > 0)
    && (inDialog ==> dialogs > 0 || queued > 0 || live > 0)
  }

  /** What the history tells about the locks and the counters. */
  predicate Told(m: Monitor, inAutoType: bool, inDialog: bool, dialogs: int, queued: int, live: int, nextId: nat) {
    && !m.holder.Owing?
    && (inAutoType <==> m.holder.By?)
    && (m.holder.By? ==> m.holder.id < nextId && m.holder.id !in m.finished)
    && (forall id :: id in m.finished ==> id < nextId)
    && dialogs >= 0 && queued >= 0 && live >= 0
    && (inDialog <==> m.dialog.Taken?)
    && (dialogs > 0 || queued > 0 ==> !m.dialog.Untouched?)
    && dialogs == m.open && queued == m.waiting
    && (!m.holder.By? ==> m.phase.Fresh?)
  }

  /** One entry of the history, and whether it is allowed where it stands: a run takes the
      lock only when nobody has it and only once; only the holder calls actions and writes
      the mode; it writes the mode first, and the event loop runs behind that and behind every
      call; it releases once, and then nothing comes before its one signal. The dialog
      lock is taken only when it is free, and while a dialog is open or queued only if a signal
      has freed it since it was last taken. */
  function Observe(m: Monitor, mark: Mark): Monitor {
    match mark
    case Took(id) => m.(ok := m.ok && m.holder.Nobody? && id !in m.finished, holder := By(id), phase := Fresh)
    case Gave(id) => m.(ok := m.ok && m.holder == By(id) && m.phase.Settled?, holder := Owing(id), phase := Fresh)
    case Finished(id) =>
      Signalled(m).(ok := m.ok && id !in m.finished && m.holder != By(id) && (m.holder.Owing? ==> m.holder.id == id),
                    holder := if m.holder.Owing? then Nobody else m.holder,
                    finished := m.finished + {id})
    case FinishedByDialog => Signalled(m).(ok := m.ok && !m.holder.Owing?)
    case TookDialog(opens, dialogs, queued) =>
      m.(ok := m.ok && !m.dialog.Taken? && (dialogs > 0 || queued > 0 ==> m.dialog.Freed?),
         dialog := Taken, open := if opens then m.open + 1 else m.open)
    case DialogGone => m.(open := m.open - 1)
    case Chosen => m.(open := m.open - 1, waiting := m.waiting + 1)
    case Delivered => m.(waiting := m.waiting - 1)
    case Started(window, title) => m.(window := window, title := title)
    case ModeWritten(id, _) => m.(ok := m.ok && m.holder == By(id) && m.phase.Fresh?, phase := Busy)
    case Called(id, attempt) =>
      m.(ok := m.ok && m.holder == By(id) && m.phase.Settled?, attempts := m.attempts + [attempt], phase := Busy)
    case Yielded(at) =>
      m.(ok := m.ok && Told(m, at.inAutoType, at.inDialog, at.dialogs, at.queued, at.live, at.nextId)
               && LocksJustified(at.inAutoType, at.inDialog, at.dialogs, at.queued, at.live)
               && at.windowForGlobal == m.window && at.titleForGlobal == m.title,
         phase := Rested(m.phase))
  }

  function Watch(log: seq<Mark>): Monitor {
    if log == [] then Monitor(true, Nobody, {}, [], Untouched, 0, [], 0, 0, Fresh)
    else Observe(Watch(log[..|log| - 1]), log[|log| - 1])
  }

  lemma WatchRecord(s: State, mark: Mark)
    ensures Watch(Record(s, mark).log) == Observe(Watch(s.log), mark)
  {
    assert Record(s, mark).log[..|s.log|] == s.log;
  }

  // ---------------------------------------------------------------------
  // The invariant, and what a delivery of events leaves alone
  // ---------------------------------------------------------------------

  ghost predicate Inv(s: State) {
    InvButDialog(s) && (s.inDialog ==> s.dialogs > 0 || s.queued > 0 || s.live > 0)
  }

  /** The invariant without the reason for the dialog lock. */
  ghost predicate InvButDialog(s: State) {
    var m := Watch(s.log);
    && m.ok
    && (s.inAutoType ==> s.live > 0)
    && Told(m, s.inAutoType, s.inDialog, s.dialogs, s.queued, s.live, s.nextId)
    && s.windowForGlobal == m.window && s.titleForGlobal == m.title
  }

  /** What every call leaves as it was: the run lock and its holder, the number of live
      executions, and the executions that had begun before. */
  ghost predicate KeepsLock(s: State, s': State) {
    var m, m' := Watch(s.log), Watch(s'.log);
    && s'.inAutoType == s.inAutoType
    && s'.live == s.live
    && s.nextId <= s'.nextId
    && m'.holder == m.holder
    && forall id :: id < s.nextId ==> (id in m'.finished <==> id in m.finished)
  }

  /** And the phase of the run that holds the lock, but that the event loop may have run. */
  ghost predicate Keeps(s: State, s': State) {
    var p, p' := Watch(s.log).phase, Watch(s'.log).phase;
    KeepsLock(s, s') && (p' == p || p' == Rested(p))
  }

  /** While the lock is held, nothing that is delivered calls an action or writes a field
      of the executor. */
  ghost predicate Harmless(s: State, s': State) {
    s.inAutoType ==> s'.executor == s.executor && Watch(s'.log).attempts == Watch(s.log).attempts
  }

  ghost predicate Safe(s: State, s': State) {
    Inv(s') && Keeps(s, s') && Harmless(s, s')
  }

  lemma SafeThrough(a: State, b: State, c: State)
    requires Safe(a, b) && Safe(b, c)
    ensures Safe(a, c)
  {
  }

  lemma YieldSafe(s: State)
    requires Inv(s)
    ensures Safe(s, RecordYield(s))
    ensures Watch(RecordYield(s).log).phase == Rested(Watch(s.log).phase)
  {
    WatchRecord(s, Yielded(SnapshotOf(s)));
  }

  // ---------------------------------------------------------------------
  // Every script
  // ---------------------------------------------------------------------

  lemma {:induction false} DeliverSafe(s: State, es: seq<Event>)
    requires Inv(s)
    ensures Safe(s, Deliver(s, es))
    ensures Watch(Deliver(s, es).log).phase == Rested(Watch(s.log).phase)
    decreases es, 0
  {
    YieldSafe(s);
    if es != [] {
      var yielded := RecordYield(s);
      DispatchSafe(yielded, es[0]);
      SafeThrough(s, yielded, Dispatch(yielded, es[0]));
      DeliverSafe(Dispatch(yielded, es[0]), es[1..]);
      SafeThrough(s, Dispatch(yielded, es[0]), Deliver(s, es));
    }
  }

  lemma {:induction false} DispatchSafe(s: State, e: Event)
    requires Inv(s)
    ensures Safe(s, Dispatch(s, e))
    decreases e, 1
  {
    match e
    case PerformAutoType(run) => ExecuteSafe(s, run, 0, Normal);
    case StartGlobal(ownWindowActive, window, title) => StartSafe(s, ownWindowActive, window, title);
    case PerformGlobal(hasMainWindow, alwaysAsk, matches, run) =>
      GlobalSafe(s, hasMainWindow, alwaysAsk, matches, run);
    case DialogRejected(shown) => RejectedSafe(s, shown);
    case DialogHidden => DialogSignalSafe(s);
    case DialogActivated => ChosenSafe(s);
    case ActivationDelivered(run, virtualMode) =>
      if s.queued > 0 {
        ActivationSafe(s, run, virtualMode);
      }
  }

  lemma ChosenSafe(s: State)
    requires Inv(s)
    ensures Safe(s, Dispatch(s, DialogActivated))
  {
    WatchRecord(s.(dialogs := s.dialogs - 1, queued := s.queued + 1), Chosen);
  }

  lemma StartSafe(s: State, ownWindowActive: bool, window: int, title: string)
    requires Inv(s)
    ensures Safe(s, Dispatch(s, StartGlobal(ownWindowActive, window, title)))
  {
    WatchRecord(s.(windowForGlobal := window, titleForGlobal := title), Started(window, title));
  }

  lemma DialogSignalSafe(s: State)
    requires InvButDialog(s)
    ensures Safe(s, DialogSignal(s))
  {
    WatchRecord(s, FinishedByDialog);
  }

  lemma GoneSafe(s: State)
    requires Inv(s) && s.dialogs > 0
    ensures var closed := Record(s.(dialogs := s.dialogs - 1), DialogGone);
            InvButDialog(closed) && Keeps(s, closed) && Harmless(s, closed)
  {
    WatchRecord(s.(dialogs := s.dialogs - 1), DialogGone);
  }

  lemma RejectedSafe(s: State, shown: bool)
    requires Inv(s)
    ensures Safe(s, Dispatch(s, DialogRejected(shown)))
  {
    if s.dialogs > 0 {
      var closed := Record(s.(dialogs := s.dialogs - 1), DialogGone);
      GoneSafe(s);
      DialogSignalSafe(closed);
      SafeBehind(s, closed, DialogSignal(closed));
      DialogSignalSafe(DialogSignal(closed));
      SafeThrough(s, DialogSignal(closed), DialogSignal(DialogSignal(closed)));
    }
  }

  lemma {:induction false} ActivationSafe(s: State, run: Run, virtualMode: bool)
    requires Inv(s) && s.queued > 0
    ensures Safe(s, Dispatch(s, ActivationDelivered(run, virtualMode)))
    decreases run, 5
  {
    var mode := if virtualMode then Virtual else Normal;
    var taken := Record(s.(queued := s.queued - 1), Delivered);
    DeliveredSafe(s);
    BeginSafe(taken, run, s.windowForGlobal, mode);
    SafeBehind(s, taken, Execute(taken, run, s.windowForGlobal, mode));
  }

  lemma DeliveredSafe(s: State)
    requires Inv(s) && s.queued > 0
    ensures var taken := Record(s.(queued := s.queued - 1), Delivered);
            InvButDialog(taken) && Keeps(s, taken) && Harmless(s, taken)
  {
    WatchRecord(s.(queued := s.queued - 1), Delivered);
  }

  lemma {:induction false} GlobalSafe(s: State, hasMainWindow: bool, alwaysAsk: bool, matches: nat, run: Run)
    requires Inv(s)
    ensures Safe(s, Global(s, hasMainWindow, alwaysAsk, matches, run))
    decreases run, 5
  {
    if !s.inDialog {
      var opens := Opens(s, hasMainWindow, alwaysAsk, matches);
      var s1 := TakeDialog(s, opens);
      TakeDialogSafe(s, opens);
      if !opens {
        BeginSafe(s1, run, s.windowForGlobal, Normal);
        DialogSignalSafe(s1);
        SafeBehind(s, s1, Global(s, hasMainWindow, alwaysAsk, matches, run));
      }
    }
  }

  /** Taking the dialog lock keeps all but its reason, which opening a dialog gives. */
  lemma TakeDialogSafe(s: State, opens: bool)
    requires Inv(s) && !s.inDialog
    ensures InvButDialog(TakeDialog(s, opens)) && Keeps(s, TakeDialog(s, opens)) && Harmless(s, TakeDialog(s, opens))
    ensures opens ==> Safe(s, TakeDialog(s, opens))
  {
    WatchRecord(s.(inDialog := true, dialogs := if opens then s.dialogs + 1 else s.dialogs),
                TookDialog(opens, s.dialogs, s.queued));
  }

  lemma SafeBehind(s: State, t: State, last: State)
    requires Keeps(s, t) && Harmless(s, t) && Safe(t, last)
    ensures Safe(s, last)
  {
  }

  lemma {:induction false} ExecuteSafe(s: State, run: Run, window: int, mode: Mode)
    requires Inv(s)
    ensures Safe(s, Execute(s, run, window, mode))
    decreases run, 5
  {
    BeginSafe(s, run, window, mode);
  }

  /** A call of an execution needs no reason for the dialog lock: it is one. */
  lemma {:induction false} BeginSafe(s: State, run: Run, window: int, mode: Mode)
    requires InvButDialog(s)
    ensures Safe(s, Execute(s, run, window, mode))
    decreases run, 4
  {
    var begun := Begun(s);
    assert Inv(begun);
    DeliverSafe(begun, run.parsing);
    var parsed := Deliver(begun, run.parsing);
    ParsedSafe(s, begun, parsed, run, window, mode);
  }

  lemma {:induction false} ParsedSafe(s: State, begun: State, parsed: State, run: Run, window: int, mode: Mode)
    requires InvButDialog(s)
    requires begun == Begun(s)
    requires parsed == Deliver(begun, run.parsing) && Safe(begun, parsed)
    ensures Safe(s, Execute(s, run, window, mode))
    decreases run, 3
  {
    var outcome := Parse(run.sequence, run.entry, run.host, false);
    AfterParseSafe(s, begun, parsed, outcome, run, window, mode);
    assert Execute(s, run, window, mode) == AfterParse(parsed, s.nextId, outcome, run, window, mode);
  }

  lemma {:induction false} AfterParseSafe(s: State, begun: State, parsed: State, outcome: Outcome,
                                          run: Run, window: int, mode: Mode)
    requires InvButDialog(s)
    requires begun == Begun(s)
    requires Safe(begun, parsed)
    ensures Safe(s, AfterParse(parsed, s.nextId, outcome, run, window, mode))
    decreases run, 2
  {
    var id := s.nextId;
    match outcome
    case Rejected(_) =>
      DeliverSafe(parsed, run.errorBox);
      SafeThrough(begun, parsed, Deliver(parsed, run.errorBox));
      LeaveUnlocked(s, begun, Deliver(parsed, run.errorBox));
    case Parsed(actions) =>
      if !parsed.inAutoType {
        TakeLock(parsed, id);
        var taken := Record(parsed.(inAutoType := true), Took(id));
        LockedSafe(taken, id, run, actions, window, mode);
        LeaveLocked(s, begun, parsed, taken, Locked(taken, id, run, actions, window, mode));
      }
  }

  // ---------------------------------------------------------------------
  // Entering and leaving
  // ---------------------------------------------------------------------

  /** The state of the run that holds the lock. */
  ghost predicate Owns(s: State, id: nat) {
    Inv(s) && Watch(s.log).holder == By(id)
  }

  lemma TakeLock(parsed: State, id: nat)
    requires Inv(parsed) && !parsed.inAutoType && parsed.live > 0
    requires id < parsed.nextId && id !in Watch(parsed.log).finished
    ensures Owns(Record(parsed.(inAutoType := true), Took(id)), id)
    ensures Watch(Record(parsed.(inAutoType := true), Took(id)).log).phase.Fresh?
  {
    WatchRecord(parsed.(inAutoType := true), Took(id));
  }

  lemma LeaveUnlocked(s: State, begun: State, last: State)
    requires InvButDialog(s)
    requires begun == Begun(s)
    requires Safe(begun, last)
    ensures Safe(s, Leave(last, s.nextId))
  {
    WatchRecord(last, Finished(s.nextId));
  }

  /** The history tells whether the dialog lock is held, and that it was taken before a dialog opened. */
  ghost predicate DialogTold(s: State) {
    var d := Watch(s.log).dialog;
    && (s.inDialog <==> d.Taken?) && (s.dialogs > 0 || s.queued > 0 ==> !d.Untouched?)
    && s.dialogs == Watch(s.log).open && s.queued == Watch(s.log).waiting
  }

  /** What the locked part of a run guarantees: it has released the lock and owes a signal. */
  ghost predicate Released(s: State, id: nat, s': State) {
    var m, m' := Watch(s.log), Watch(s'.log);
    && m'.ok && m'.holder == Owing(id) && m'.phase.Fresh?
    && !s'.inAutoType && s'.live == s.live
    && s.nextId <= s'.nextId
    && (forall j :: j < s.nextId ==> (j in m'.finished <==> j in m.finished))
    && (forall j :: j in m'.finished ==> j < s'.nextId)
    && s'.dialogs >= 0 && s'.queued >= 0
    && DialogTold(s')
  }

  /** Which of the earlier executions have signalled is the same in both states. */
  ghost predicate SameFinished(s: State, s': State, below: nat) {
    forall j :: j < below ==> (j in Watch(s'.log).finished <==> j in Watch(s.log).finished)
  }

  lemma LeaveLocked(s: State, begun: State, parsed: State, taken: State, last: State)
    requires InvButDialog(s)
    requires begun == Begun(s)
    requires Safe(begun, parsed) && !parsed.inAutoType
    requires taken == Record(parsed.(inAutoType := true), Took(s.nextId))
    requires Released(taken, s.nextId, last)
    ensures Safe(s, Leave(last, s.nextId))
  {
    var id := s.nextId;
    WatchRecord(parsed.(inAutoType := true), Took(id));
    assert SameFinished(s, parsed, id + 1);
    assert SameFinished(parsed, last, id + 1);
    Signal(s, last, id);
  }

  /** The signal of a run that has released the lock. */
  lemma Signal(s: State, last: State, id: nat)
    requires InvButDialog(s) && id == s.nextId && !s.inAutoType
    requires var m := Watch(last.log);
             m.ok && m.holder == Owing(id) && m.phase.Fresh? && forall j :: j in m.finished ==> j < last.nextId
    requires !last.inAutoType && last.live == s.live + 1 && id < last.nextId
    requires last.dialogs >= 0 && last.queued >= 0 && DialogTold(last)
    requires SameFinished(s, last, id + 1)
    ensures Safe(s, Leave(last, id))
  {
    WatchRecord(last, Finished(id));
    assert id !in Watch(last.log).finished;
    assert Watch(Leave(last, id).log) == Observe(Watch(last.log), Finished(id));
  }

  // ---------------------------------------------------------------------
  // Holding the lock
  // ---------------------------------------------------------------------

  /** Attempts added to the history, and the executor they leave. */
  ghost predicate Adds(s: State, s': State, attempts: seq<Attempt>, executor: ExecutorState) {
    Watch(s'.log).attempts == Watch(s.log).attempts + attempts && s'.executor == executor
  }

  ghost predicate Ready(s: State) {
    Watch(s.log).phase.Settled?
  }

  /** From one state of the run that holds the lock to another. */
  ghost predicate OwnStep(s: State, id: nat, s': State, attempts: seq<Attempt>, executor: ExecutorState) {
    Owns(s', id) && KeepsLock(s, s') && Adds(s, s', attempts, executor)
  }

  lemma OwnThrough(s: State, t: State, u: State, id: nat, a: seq<Attempt>, b: seq<Attempt>,
                   e: ExecutorState, f: ExecutorState)
    requires OwnStep(s, id, t, a, e) && OwnStep(t, id, u, b, f)
    ensures OwnStep(s, id, u, a + b, f)
  {
  }

  lemma {:induction false} DeliverOwned(s: State, id: nat, es: seq<Event>)
    requires Owns(s, id)
    ensures OwnStep(s, id, Deliver(s, es), [], s.executor)
    ensures Watch(Deliver(s, es).log).phase == Rested(Watch(s.log).phase)
    decreases es, 1
  {
    DeliverSafe(s, es);
  }

  lemma YieldOwned(s: State, id: nat)
    requires Owns(s, id)
    ensures OwnStep(s, id, RecordYield(s), [], s.executor)
    ensures Watch(RecordYield(s).log).phase == Rested(Watch(s.log).phase)
  {
    YieldSafe(s);
  }

  lemma OwnQuietly(s: State, t: State, u: State, id: nat, a: seq<Attempt>)
    requires OwnStep(s, id, t, a, t.executor) && OwnStep(t, id, u, [], t.executor)
    ensures OwnStep(s, id, u, a, t.executor)
  {
  }

  lemma ModeOwned(s: State, id: nat, mode: Mode)
    requires Owns(s, id) && Watch(s.log).phase.Fresh?
    ensures OwnStep(s, id, WriteMode(s, id, mode), [], s.executor.(mode := mode))
    ensures Watch(WriteMode(s, id, mode).log).phase.Busy?
  {
    WatchRecord(s.(executor := s.executor.(mode := mode)), ModeWritten(id, mode));
  }

  lemma GiveLock(s: State, last: State, id: nat, attempts: seq<Attempt>, executor: ExecutorState)
    requires OwnStep(s, id, last, attempts, executor) && Ready(last)
    ensures var s' := Record(last.(inAutoType := false), Gave(id));
            Released(s, id, s') && Adds(s, s', attempts, executor)
  {
    WatchRecord(last.(inAutoType := false), Gave(id));
  }

  /** The run's own calls and the executor it leaves are those of the plain run: nothing that
      is delivered in between, however deeply nested, has any influence. */
  lemma {:induction false} LockedSafe(s: State, id: nat, run: Run, actions: seq<Action>, window: int, mode: Mode)
    requires Owns(s, id) && Watch(s.log).phase.Fresh?
    ensures var s' := Locked(s, id, run, actions, window, mode);
            var target := if window == 0 then run.foreground else window;
            var ran := RunFrom(actions, 0, target, PlatformOf(run), s.executor.(mode := mode));
            Released(s, id, s') && Adds(s, s', ran.attempts, ran.executor)
    decreases run, 1
  {
    var settled := RaisedOwned(s, id, run, window, mode);
    var target := if window == 0 then run.foreground else window;
    var ran := RunFrom(actions, 0, target, PlatformOf(run), settled.executor);
    ActionsOwned(settled, id, run, actions, 0, target);
    var last := ActionsFrom(settled, id, run, actions, 0, target);
    RunOwned(s, settled, last, id, ran);
  }

  lemma RunOwned(s: State, settled: State, last: State, id: nat, ran: Ran)
    requires OwnStep(s, id, settled, [], settled.executor)
    requires OwnStep(settled, id, last, ran.attempts, ran.executor) && Ready(last)
    ensures var s' := Record(last.(inAutoType := false), Gave(id));
            Released(s, id, s') && Adds(s, s', ran.attempts, ran.executor)
  {
    OwnThrough(s, settled, last, id, [], ran.attempts, settled.executor, ran.executor);
    GiveLock(s, last, id, ran.attempts, ran.executor);
  }

  lemma {:induction false} RaisedOwned(s: State, id: nat, run: Run, window: int, mode: Mode) returns (settled: State)
    requires Owns(s, id) && Watch(s.log).phase.Fresh?
    ensures var raised := if window == 0 then s else Deliver(s, run.raising);
            settled == Deliver(WriteMode(raised, id, mode), run.settling)
    ensures settled.executor == s.executor.(mode := mode)
    ensures OwnStep(s, id, settled, [], settled.executor) && Ready(settled)
    decreases run, 0, 1, 0
  {
    var raised := s;
    if window != 0 {
      DeliverOwned(s, id, run.raising);
      raised := Deliver(s, run.raising);
    }
    SettledOwned(s, raised, id, run, mode);
    settled := Deliver(WriteMode(raised, id, mode), run.settling);
  }

  lemma {:induction false} SettledOwned(s: State, raised: State, id: nat, run: Run, mode: Mode)
    requires OwnStep(s, id, raised, [], s.executor) && Watch(raised.log).phase.Fresh?
    ensures var settled := Deliver(WriteMode(raised, id, mode), run.settling);
            OwnStep(s, id, settled, [], s.executor.(mode := mode)) && Ready(settled)
    decreases run, 0, 0, 0
  {
    var ready := WriteMode(raised, id, mode);
    ModeOwned(raised, id, mode);
    OwnThrough(s, raised, ready, id, [], [], s.executor, ready.executor);
    DeliverOwned(ready, id, run.settling);
    OwnQuietly(s, ready, Deliver(ready, run.settling), id, []);
  }

  /** The first of the remaining actions, and the actions behind it. */
  lemma RunUnfolds(run: Run, actions: seq<Action>, i: nat, window: int, e: ExecutorState)
    requires i < |actions| && WindowAt(run, i) == window
    ensures var p := PlatformOf(run);
            var tried := TryFrom(actions[i], i, 1, p, e);
            var ran := RunFrom(actions, i, window, p, e);
            && (!tried.done ==> ran.attempts == tried.attempts && ran.executor == tried.executor)
            && (tried.done ==>
                  var later := RunFrom(actions, i + 1, window, p, tried.executor);
                  ran.attempts == tried.attempts + later.attempts && ran.executor == later.executor)
  {
  }

  lemma {:induction false} ActionsOwned(s: State, id: nat, run: Run, actions: seq<Action>, i: nat, window: int)
    requires i <= |actions|
    requires Owns(s, id) && Ready(s)
    ensures var ran := RunFrom(actions, i, window, PlatformOf(run), s.executor);
            OwnStep(s, id, ActionsFrom(s, id, run, actions, i, window), ran.attempts, ran.executor)
    ensures Ready(ActionsFrom(s, id, run, actions, i, window))
    decreases run, 0, 2, |actions| - i
  {
    if i < |actions| && WindowAt(run, i) == window {
      var p := PlatformOf(run);
      RunUnfolds(run, actions, i, window, s.executor);
      TriesOwned(s, id, run, actions[i], i, 1);
      var t := TriesFrom(s, id, run, actions[i], i, 1);
      var tried := TryFrom(actions[i], i, 1, p, s.executor);
      if t.done {
        ActionsOwned(t.state, id, run, actions, i + 1, window);
        var later := RunFrom(actions, i + 1, window, p, tried.executor);
        OwnThrough(s, t.state, ActionsFrom(t.state, id, run, actions, i + 1, window), id,
                   tried.attempts, later.attempts, tried.executor, later.executor);
      }
    }
  }

  /** The first of the remaining tries, and the tries behind it. */
  lemma TryUnfolds(run: Run, a: Action, i: nat, k: nat, e: ExecutorState)
    requires 1 <= k <= MAX_RETRIES
    ensures var result := ResultOf(a, AnswerAt(run, i, k));
            var attempt := Attempt(a, e, result);
            var tried := TryFrom(a, i, k, PlatformOf(run), e);
            && (result.Ok? ==> tried == Tried([attempt], AfterAction(e, a), true, 0))
            && (!result.Ok? && (result.Failed? || k == MAX_RETRIES) ==>
                  tried == Tried([attempt], AfterAction(e, a), false, 0))
            && (!result.Ok? && !(result.Failed? || k == MAX_RETRIES) ==>
                  var later := TryFrom(a, i, k + 1, PlatformOf(run), AfterAction(e, a));
                  && tried.attempts == [attempt] + later.attempts
                  && tried.executor == later.executor && tried.done == later.done)
  {
  }

  lemma {:induction false} TriesOwned(s: State, id: nat, run: Run, a: Action, i: nat, k: nat)
    requires 1 <= k <= MAX_RETRIES
    requires Owns(s, id) && Ready(s)
    ensures var t := TriesFrom(s, id, run, a, i, k);
            var tried := TryFrom(a, i, k, PlatformOf(run), s.executor);
            t.done == tried.done && OwnStep(s, id, t.state, tried.attempts, tried.executor) && Ready(t.state)
    decreases run, 0, 1, MAX_RETRIES - k
  {
    hide Processed, Waited;
    var result := ResultOf(a, AnswerAt(run, i, k));
    var processed := ProcessedOwned(s, id, run, a, i, k);
    var attempt := Attempt(a, s.executor, result);
    TryUnfolds(run, a, i, k, s.executor);
    if !result.Ok? {
      var waited := WaitedOwned(processed, id, run, i, k);
      OwnQuietly(s, processed, waited, id, [attempt]);
      if result.Retry? && k < MAX_RETRIES {
        TriesOwned(waited, id, run, a, i, k + 1);
        var later := TryFrom(a, i, k + 1, PlatformOf(run), waited.executor);
        OwnThrough(s, waited, TriesFrom(waited, id, run, a, i, k + 1).state, id, [attempt], later.attempts,
                   waited.executor, later.executor);
      }
    }
  }

  lemma {:induction false} ProcessedOwned(s: State, id: nat, run: Run, a: Action, i: nat, k: nat)
    returns (processed: State)
    requires 1 <= k <= MAX_RETRIES
    requires Owns(s, id) && Ready(s)
    ensures Ready(processed)
    ensures processed == Processed(s, id, run, a, i, k)
    ensures OwnStep(s, id, processed, [Attempt(a, s.executor, ResultOf(a, AnswerAt(run, i, k)))],
                    AfterAction(s.executor, a))
    decreases run, 0, 0, 0
  {
    var result := ResultOf(a, AnswerAt(run, i, k));
    var attempt := Attempt(a, s.executor, result);
    var called := Call(s, id, a, result);
    CallOwned(s, id, a, result);
    var returned := called;
    if RunsEventLoop(a) && Listed(run, i, k) {
      DeliverOwned(called, id, run.scripts[i].tries[k - 1].during);
      returned := Deliver(called, run.scripts[i].tries[k - 1].during);
      OwnQuietly(s, called, returned, id, [attempt]);
    }
    if Listed(run, i, k) {
      DeliverOwned(returned, id, run.scripts[i].tries[k - 1].after);
      processed := Deliver(returned, run.scripts[i].tries[k - 1].after);
    } else {
      YieldOwned(returned, id);
      processed := RecordYield(returned);
    }
    OwnQuietly(s, returned, processed, id, [attempt]);
  }

  lemma {:induction false} WaitedOwned(s: State, id: nat, run: Run, i: nat, k: nat) returns (waited: State)
    requires Owns(s, id) && Ready(s)
    ensures Ready(waited)
    ensures waited == Waited(s, run, i, k)
    ensures OwnStep(s, id, waited, [], s.executor)
    decreases run, 0, 0, 0
  {
    if Listed(run, i, k) {
      DeliverOwned(s, id, run.scripts[i].tries[k - 1].waiting);
      waited := Deliver(s, run.scripts[i].tries[k - 1].waiting);
    } else {
      YieldOwned(s, id);
      waited := RecordYield(s);
    }
  }

  lemma CallOwned(s: State, id: nat, a: Action, result: Result)
    requires Owns(s, id) && Ready(s)
    ensures Watch(Call(s, id, a, result).log).phase.Busy?
    ensures OwnStep(s, id, Call(s, id, a, result), [Attempt(a, s.executor, result)], AfterAction(s.executor, a))
  {
    WatchRecord(s.(executor := AfterAction(s.executor, a)), Called(id, Attempt(a, s.executor, result)));
  }

  // ---------------------------------------------------------------------
  // What a history accepted by the monitor says
  // ---------------------------------------------------------------------

  function Tally(log: seq<Mark>, mark: Mark): (n: nat)
    ensures n <= |log|
  {
    if log == [] then 0 else Tally(log[..|log| - 1], mark) + (if log[|log| - 1] == mark then 1 else 0)
  }

  /** Every run takes the lock at most once, releases it exactly as often as it took it
      unless it still holds it, and signals at most once; it has signalled exactly once if
      it took the lock and is not holding it or about to signal. */
  lemma {:induction false} OnceEach(log: seq<Mark>, id: nat)
    requires Watch(log).ok
    ensures var m := Watch(log);
            && Tally(log, Took(id)) <= 1
            && Tally(log, Gave(id)) == Tally(log, Took(id)) - (if m.holder == By(id) then 1 else 0)
            && Tally(log, Finished(id)) == (if id in m.finished then 1 else 0)
            && (Tally(log, Took(id)) == 1 ==> m.holder == By(id) || m.holder == Owing(id) || id in m.finished)
            && (m.holder == By(id) || m.holder == Owing(id) ==> Tally(log, Took(id)) == 1 && id !in m.finished)
  {
    if log != [] {
      OnceEach(log[..|log| - 1], id);
    }
  }

  /** Once the monitor objects, it objects for good. */
  lemma {:induction false} PrefixOk(log: seq<Mark>, n: nat)
    requires n <= |log| && Watch(log).ok
    ensures Watch(log[..n]).ok
  {
    if n == |log| {
      assert log[..n] == log;
    } else {
      PrefixOk(log[..|log| - 1], n);
      assert log[..|log| - 1][..n] == log[..n];
    }
  }

  // ---------------------------------------------------------------------
  // The theorems
  // ---------------------------------------------------------------------

  /** Whatever the event loop delivers, at every place where it runs, and however deeply the
      calls nest: the monitor accepts the whole history; when the outermost loop is back,
      nobody holds the run lock, every run that took it has released it once and signalled
      once, and the dialog lock is free unless a dialog is open or an activation is queued. */
  lemma EveryScriptIsSafe(es: seq<Event>)
    ensures var s := Deliver(INITIAL, es);
            && Watch(s.log).ok
            && !s.inAutoType && s.live == 0
            && (s.inDialog ==> s.dialogs > 0 || s.queued > 0)
            && forall id :: Tally(s.log, Took(id)) == Tally(s.log, Gave(id)) <= Tally(s.log, Finished(id)) <= 1
  {
    assert Watch(INITIAL.log) == Monitor(true, Nobody, {}, [], Untouched, 0, [], 0, 0, Fresh);
    DeliverSafe(INITIAL, es);
    var s := Deliver(INITIAL, es);
    forall id
      ensures Tally(s.log, Took(id)) == Tally(s.log, Gave(id)) <= Tally(s.log, Finished(id)) <= 1
    {
      OnceEach(s.log, id);
    }
  }

  /** Some run has taken the lock and not released it. */
  ghost predicate RunHeld(log: seq<Mark>) {
    exists id :: Tally(log, Took(id)) > Tally(log, Gave(id))
  }

  /** At every yield in the history of any script the locks are justified: the run lock by
      a live execution, the dialog lock by an open dialog, a queued activation or a live
      execution; and the run lock is held exactly while some run has taken and not released it. */
  lemma EveryYieldIsJustified(es: seq<Event>, n: nat)
    requires n < |Deliver(INITIAL, es).log| && Deliver(INITIAL, es).log[n].Yielded?
    ensures var log := Deliver(INITIAL, es).log;
            var at := log[n].at;
            && LocksJustified(at.inAutoType, at.inDialog, at.dialogs, at.queued, at.live)
            && (at.inAutoType <==> RunHeld(log[..n]))
  {
    EveryScriptIsSafe(es);
    YieldIsJustified(Deliver(INITIAL, es).log, n);
  }

  /** And the state that meets the event loop there, with the history up to it, satisfies the
      invariant: what is proved of such states holds at every yield of every script. */
  lemma EveryYieldKeepsInv(es: seq<Event>, n: nat)
    requires n < |Deliver(INITIAL, es).log| && Deliver(INITIAL, es).log[n].Yielded?
    ensures var log := Deliver(INITIAL, es).log;
            Inv(Restored(log[n].at, log[..n]))
  {
    EveryScriptIsSafe(es);
    YieldIsJustified(Deliver(INITIAL, es).log, n);
  }

  /** The state that is restored from a yield is the one that yielded. */
  lemma YieldRestores(s: State)
    ensures var log := RecordYield(s).log;
            log[|s.log|].Yielded? && Restored(log[|s.log|].at, log[..|s.log|]) == s
  {
  }

  lemma {:induction false} YieldIsJustified(log: seq<Mark>, n: nat)
    requires Watch(log).ok && n < |log| && log[n].Yielded?
    ensures var at := log[n].at;
            && LocksJustified(at.inAutoType, at.inDialog, at.dialogs, at.queued, at.live)
            && (at.inAutoType <==> RunHeld(log[..n]))
            && Inv(Restored(at, log[..n]))
  {
    var before := log[..n];
    PrefixOk(log, n + 1);
    PrefixOk(log, n);
    WatchNext(log, n);
    YieldObserved(Watch(before), log[n].at);
    HolderIsBehind(before);
  }

  lemma YieldObserved(m: Monitor, at: Snapshot)
    requires Observe(m, Yielded(at)).ok
    ensures LocksJustified(at.inAutoType, at.inDialog, at.dialogs, at.queued, at.live)
    ensures Told(m, at.inAutoType, at.inDialog, at.dialogs, at.queued, at.live, at.nextId)
    ensures at.windowForGlobal == m.window && at.titleForGlobal == m.title
  {
  }

  lemma WatchNext(log: seq<Mark>, n: nat)
    requires n < |log|
    ensures Watch(log[..n + 1]) == Observe(Watch(log[..n]), log[n])
  {
    assert log[..n + 1][..n] == log[..n];
  }

  lemma HolderIsBehind(log: seq<Mark>)
    requires Watch(log).ok
    ensures Watch(log).holder.By? <==> RunHeld(log)
  {
    var m := Watch(log);
    if m.holder.By? {
      OnceEach(log, m.holder.id);
    }
    forall id | Tally(log, Took(id)) > Tally(log, Gave(id))
      ensures m.holder == By(id)
    {
      OnceEach(log, id);
    }
  }

  lemma {:induction false} BusyUntilYield(log: seq<Mark>, i: nat)
    requires Watch(log).ok && i < |log| && (log[i].ModeWritten? || log[i].Called?)
    requires forall k :: i < k < |log| ==> !log[k].Yielded?
    ensures Watch(log).phase.Busy? && Watch(log).holder.By?
  {
    if i < |log| - 1 {
      BusyUntilYield(log[..|log| - 1], i);
    }
  }

  lemma NotBehindBusy(m: Monitor, mark: Mark)
    requires m.phase.Busy? && (mark.Called? || mark.Gave?)
    ensures !Observe(m, mark).ok
  {
  }

  /** Beginning, keys, clearing and waiting run an event loop of their own; setting the delay or the
      mode does not. Behind each of them pending events are processed. */
  lemma OwnLoopOf(s: State, id: nat, run: Run, a: Action, i: nat, k: nat)
    requires Listed(run, i, k)
    ensures var t := run.scripts[i].tries[k - 1];
            var called := Call(s, id, a, ResultOf(a, t.answer));
            Processed(s, id, run, a, i, k)
            == Deliver(match a
                       case Begin => Deliver(called, t.during)
                       case Type(_, _, _) => Deliver(called, t.during)
                       case ClearField => Deliver(called, t.during)
                       case Delay(_, sets) => if sets then called else Deliver(called, t.during)
                       case SetMode(_) => called,
                       t.after)
  {
  }

  /** In any script the event loop runs between the writing of the mode and the first call of a run,
      between any two of its calls, and between the last of them and the release of the lock. */
  lemma EventLoopRunsBetween(es: seq<Event>, i: nat, j: nat) returns (k: nat)
    requires i < j < |Deliver(INITIAL, es).log|
    requires var log := Deliver(INITIAL, es).log;
             (log[i].ModeWritten? || log[i].Called?) && (log[j].Called? || log[j].Gave?)
    ensures i < k < j && Deliver(INITIAL, es).log[k].Yielded?
  {
    EveryScriptIsSafe(es);
    k := YieldBetween(Deliver(INITIAL, es).log, i, j);
  }

  lemma YieldBetween(log: seq<Mark>, i: nat, j: nat) returns (k: nat)
    requires Watch(log).ok && i < j < |log|
    requires (log[i].ModeWritten? || log[i].Called?) && (log[j].Called? || log[j].Gave?)
    ensures i < k < j && log[k].Yielded?
  {
    PrefixOk(log, j + 1);
    PrefixOk(log, j);
    WatchNext(log, j);
    if n: nat :| i < n < j && log[n].Yielded? {
      k := n;
    } else {
      BusyUntilYield(log[..j], i);
      NotBehindBusy(Watch(log[..j]), log[j]);
    }
  }

  predicate IsSignal(mark: Mark) {
    mark.Finished? || mark.FinishedByDialog?
  }

  /** The dialog lock was last taken at the j-th entry of the history. */
  ghost predicate LastTaken(log: seq<Mark>, j: nat) {
    j < |log| && log[j].TookDialog? && forall i :: j < i < |log| ==> !log[i].TookDialog?
  }

  lemma {:induction false} TakenIsBehind(log: seq<Mark>) returns (j: nat)
    requires Watch(log).dialog.Taken?
    ensures LastTaken(log, j)
  {
    var before := log[..|log| - 1];
    if log[|log| - 1].TookDialog? {
      j := |log| - 1;
    } else {
      j := TakenIsBehind(before);
    }
  }

  lemma {:induction false} FreedIsBehind(log: seq<Mark>) returns (j: nat, k: nat)
    requires Watch(log).dialog.Freed?
    ensures LastTaken(log, j) && j < k < |log| && IsSignal(log[k])
  {
    var before := log[..|log| - 1];
    if Watch(before).dialog.Taken? {
      j := TakenIsBehind(before);
      k := |log| - 1;
    } else {
      j, k := FreedIsBehind(before);
    }
  }

  /** In any script, when the dialog lock is taken (and perhaps a dialog opened) while a dialog
      is open or an activation is queued, some signal has freed the lock since it was last taken. */
  lemma SecondDialogNeedsSignal(es: seq<Event>, n: nat) returns (j: nat, k: nat)
    requires n < |Deliver(INITIAL, es).log|
    requires var mark := Deliver(INITIAL, es).log[n]; mark.TookDialog? && (mark.dialogs > 0 || mark.queued > 0)
    ensures var log := Deliver(INITIAL, es).log;
            LastTaken(log[..n], j) && j < k < n && IsSignal(log[k])
  {
    EveryScriptIsSafe(es);
    j, k := TakingNeedsSignal(Deliver(INITIAL, es).log, n);
  }

  lemma TakingNeedsSignal(log: seq<Mark>, n: nat) returns (j: nat, k: nat)
    requires Watch(log).ok && n < |log|
    requires log[n].TookDialog? && (log[n].dialogs > 0 || log[n].queued > 0)
    ensures LastTaken(log[..n], j) && j < k < n && IsSignal(log[k])
  {
    PrefixOk(log, n + 1);
    WatchNext(log, n);
    TakingObserved(Watch(log[..n]), log[n]);
    j, k := FreedIsBehind(log[..n]);
  }

  lemma TakingObserved(m: Monitor, mark: Mark)
    requires mark.TookDialog? && (mark.dialogs > 0 || mark.queued > 0) && Observe(m, mark).ok
    ensures m.dialog.Freed?
  {
  }

  lemma {:induction false} NoSignalSince(log: seq<Mark>, j: nat, k: nat)
    requires Watch(log).dialog.Taken? && LastTaken(log, j) && j < k < |log|
    ensures !IsSignal(log[k])
  {
    if k < |log| - 1 {
      NoSignalSince(log[..|log| - 1], j, k);
    }
  }

  ghost predicate SignalledSinceTaken(log: seq<Mark>) {
    exists j: nat, k: nat :: LastTaken(log, j) && j < k < |log| && IsSignal(log[k])
  }

  lemma FreeIff(s: State)
    requires InvButDialog(s) && (s.dialogs > 0 || s.queued > 0)
    ensures !s.inDialog <==> SignalledSinceTaken(s.log)
  {
    if s.inDialog {
      forall j: nat, k: nat | LastTaken(s.log, j) && j < k < |s.log|
        ensures !IsSignal(s.log[k])
      {
        NoSignalSince(s.log, j, k);
      }
    } else {
      var j, k := FreedIsBehind(s.log);
    }
  }

  /** While a dialog is open or an activation queued, a call that asks for a dialog opens another
      one exactly if some signal has come since the dialog lock was last taken. */
  lemma SecondDialogIff(s: State, hasMainWindow: bool, alwaysAsk: bool, matches: nat, run: Run)
    requires Inv(s) && (s.dialogs > 0 || s.queued > 0)
    requires Opens(s, hasMainWindow, alwaysAsk, matches)
    ensures Global(s, hasMainWindow, alwaysAsk, matches, run).dialogs == s.dialogs + 1 <==> SignalledSinceTaken(s.log)
  {
    FreeIff(s);
  }

  /** And such a signal need not be that of the dialog: any execution that ends frees the lock,
      even one that does not parse, such as that of a lone brace. A second dialog then opens
      beside the first. */
  lemma TwoDialogs(run: Run, quick: Run)
    requires quick.entry.Given? && quick.sequence == "}" && quick.parsing == [] && quick.errorBox == []
    ensures var opening := PerformGlobal(true, true, 1, run);
            var s := Deliver(INITIAL, [opening, PerformAutoType(quick), opening]);
            s.dialogs == 2 && s.inDialog
  {
    var opening := PerformGlobal(true, true, 1, run);
    Compilation.LoneBraceIsRejected(quick.entry.entry, quick.host);
    var first := OpensDialog(RecordYield(INITIAL), run);
    var second := QuickFrees(RecordYield(first), quick);
    var third := OpensDialog(RecordYield(second), run);
    DeliverThree(INITIAL, opening, PerformAutoType(quick), opening);
    assert RecordYield(third).dialogs == 2;
  }

  lemma DeliverThree(s: State, a: Event, b: Event, c: Event)
    ensures Deliver(s, [a, b, c])
         == RecordYield(Dispatch(RecordYield(Dispatch(RecordYield(Dispatch(RecordYield(s), a)), b)), c))
  {
    assert [a, b, c][1..] == [b, c] && [b, c][1..] == [c] && [c][1..] == [];
    var first := Dispatch(RecordYield(s), a);
    var second := Dispatch(RecordYield(first), b);
    assert Deliver(s, [a, b, c]) == Deliver(first, [b, c]);
    assert Deliver(first, [b, c]) == Deliver(second, [c]);
    assert Deliver(second, [c]) == Deliver(Dispatch(RecordYield(second), c), []);
  }

  lemma OpensDialog(s: State, run: Run) returns (s': State)
    requires !s.inDialog
    ensures s' == Dispatch(s, PerformGlobal(true, true, 1, run))
    ensures s'.dialogs == s.dialogs + 1 && s'.inDialog
  {
    s' := Dispatch(s, PerformGlobal(true, true, 1, run));
    assert s' == Global(s, true, true, 1, run);
  }

  lemma QuickFrees(s: State, quick: Run) returns (s': State)
    requires Parse(quick.sequence, quick.entry, quick.host, false).Rejected?
    requires quick.parsing == [] && quick.errorBox == []
    ensures s' == Dispatch(s, PerformAutoType(quick))
    ensures s'.dialogs == s.dialogs && !s'.inDialog
  {
    s' := Dispatch(s, PerformAutoType(quick));
    var parsed := Deliver(Begun(s), []);
    var outcome := Parse(quick.sequence, quick.entry, quick.host, false);
    assert s' == Execute(s, quick, 0, Normal);
    assert s' == AfterParse(parsed, s.nextId, outcome, quick, 0, Normal);
    assert s' == Leave(Deliver(parsed, []), s.nextId);
  }

  /** While a run holds the lock, nothing that comes in calls an action, writes a field of
      the executor, or takes the lock away. */
  lemma NestedCallsAreHarmless(s: State, es: seq<Event>)
    requires Inv(s) && s.inAutoType
    ensures var s' := Deliver(s, es);
            && Inv(s') && s'.inAutoType && Watch(s'.log).holder == Watch(s.log).holder
            && s'.executor == s.executor && Watch(s'.log).attempts == Watch(s.log).attempts
  {
    DeliverSafe(s, es);
  }

  /** An execution that finds the lock free does exactly what the plain run does, whatever is
      delivered while it holds the lock: the same calls in the same order, with the same
      mode and key delay, and the same executor afterwards. */
  lemma ExecutionIsUndisturbed(s: State, run: Run, window: int, mode: Mode, actions: seq<Action>)
    requires InvButDialog(s)
    requires Parse(run.sequence, run.entry, run.host, false) == Parsed(actions)
    requires !s.inAutoType
    ensures var parsed := Deliver(Begun(s), run.parsing);
            var s' := Execute(s, run, window, mode);
            var target := if window == 0 then run.foreground else window;
            var ran := RunFrom(actions, 0, target, PlatformOf(run), parsed.executor.(mode := mode));
            && Watch(s'.log).attempts == Watch(parsed.log).attempts + ran.attempts
            && s'.executor == ran.executor
  {
    BegunInv(s);
    DeliverSafe(Begun(s), run.parsing);
    UndisturbedAfterParse(Begun(s), Deliver(Begun(s), run.parsing), s.nextId, run, window, mode, actions);
  }

  lemma BegunInv(s: State)
    requires InvButDialog(s)
    ensures Inv(Begun(s)) && Begun(s).live > 0 && s.nextId !in Watch(Begun(s).log).finished
  {
  }

  lemma UndisturbedAfterParse(begun: State, parsed: State, id: nat, run: Run, window: int, mode: Mode,
                              actions: seq<Action>)
    requires Inv(begun) && Safe(begun, parsed) && !begun.inAutoType
    requires begun.nextId == id + 1 && id !in Watch(begun.log).finished && begun.live > 0
    ensures var s' := AfterParse(parsed, id, Parsed(actions), run, window, mode);
            var target := if window == 0 then run.foreground else window;
            var ran := RunFrom(actions, 0, target, PlatformOf(run), parsed.executor.(mode := mode));
            && Watch(s'.log).attempts == Watch(parsed.log).attempts + ran.attempts
            && s'.executor == ran.executor
  {
    var taken := Record(parsed.(inAutoType := true), Took(id));
    NotBegun(begun, parsed, id);
    TakeLock(parsed, id);
    TakeAddsNothing(parsed, id);
    LockedSafe(taken, id, run, actions, window, mode);
    LeaveAddsNothing(Locked(taken, id, run, actions, window, mode), id);
  }

  lemma NotBegun(begun: State, parsed: State, id: nat)
    requires Safe(begun, parsed) && begun.nextId == id + 1 && id !in Watch(begun.log).finished
    ensures id < parsed.nextId && id !in Watch(parsed.log).finished
  {
  }

  lemma TakeAddsNothing(parsed: State, id: nat)
    ensures Watch(Record(parsed.(inAutoType := true), Took(id)).log).attempts == Watch(parsed.log).attempts
  {
    WatchRecord(parsed.(inAutoType := true), Took(id));
  }

  lemma LeaveAddsNothing(last: State, id: nat)
    ensures Watch(Leave(last, id).log).attempts == Watch(last.log).attempts
    ensures Leave(last, id).executor == last.executor
  {
    WatchRecord(last, Finished(id));
  }

  /** An execution that finds the lock held runs nothing and signals nothing of its own. */
  lemma BusyExecutionIsRefused(s: State, run: Run, window: int, mode: Mode, actions: seq<Action>)
    requires Inv(s) && s.inAutoType
    requires Parse(run.sequence, run.entry, run.host, false) == Parsed(actions)
    ensures var s' := Execute(s, run, window, mode);
            && s'.executor == s.executor && Watch(s'.log).attempts == Watch(s.log).attempts
            && Tally(s'.log, Took(s.nextId)) == Tally(s'.log, Finished(s.nextId)) == 0
  {
    BegunInv(s);
    DeliverSafe(Begun(s), run.parsing);
    OnceEach(Deliver(Begun(s), run.parsing).log, s.nextId);
  }
}
