/** The Auto-Type object: its two locks, the executor, and the places where the event
    loop runs and other calls may come in. What happens at those places is a script,
    chosen by an adversary; scripts nest as deeply as the calls do. */
module Session {
  import opened Actions
  import opened Compiler
  import opened Execution

  // ---------------------------------------------------------------------
  // Scripts
  // ---------------------------------------------------------------------

  /** What the event loop delivers. A dialog that is rejected while it is shown signals twice,
      from its hide event and as any dialog; one that is hidden otherwise signals and stays open. */
  datatype Event =
    | PerformAutoType(run: Run)
    | StartGlobal(ownWindowActive: bool, window: int, title: string)
    | PerformGlobal(hasMainWindow: bool, alwaysAsk: bool, matches: nat, run: Run)
    | DialogRejected(shown: bool)
    | DialogHidden
    | DialogActivated
    | ActivationDelivered(run: Run, virtualMode: bool)

  /** One call of executeAutoTypeActions: its arguments, what the event loop delivers at
      each of its yield points, and what the platform answers. A message box that is not
      shown has an empty script. */
  datatype Run = Run(
    sequence: string,
    entry: MaybeEntry,
    host: Host,
    parsing: seq<Event>,
    errorBox: seq<Event>,
    raising: seq<Event>,
    settling: seq<Event>,
    foreground: int,
    scripts: seq<ActionScript>,
    laterWindow: int)

  /** The active window before an action, and its tries. Tries that are not listed answer
      Ok, and nothing is delivered during them. */
  datatype ActionScript = ActionScript(window: int, tries: seq<Try>)

  datatype Try = Try(answer: Result, during: seq<Event>, after: seq<Event>, waiting: seq<Event>)

  function WindowAt(run: Run, i: nat): int {
    if i < |run.scripts| then run.scripts[i].window else run.laterWindow
  }

  predicate Listed(run: Run, i: nat, k: nat) {
    i < |run.scripts| && 0 < k <= |run.scripts[i].tries|
  }

  function AnswerAt(run: Run, i: nat, k: nat): Result {
    if Listed(run, i, k) then run.scripts[i].tries[k - 1].answer else Ok
  }

  function PlatformOf(run: Run): Platform {
    Platform((i: nat) => WindowAt(run, i), (i: nat, k: nat) => AnswerAt(run, i, k))
  }

  // ---------------------------------------------------------------------
  // The state and its history
  // ---------------------------------------------------------------------

  /** What happened, in order. A run is identified by the number of calls before it. The dialog
      lock is taken with or without opening a dialog, while others are open or queued; a dialog is
      rejected, or a match is chosen in it and delivered later; a window is remembered. */
  datatype Mark =
    | Took(id: nat)
    | Gave(id: nat)
    | Finished(id: nat)
    | FinishedByDialog
    | TookDialog(opens: bool, dialogs: int, queued: int)
    | DialogGone
    | Chosen
    | Delivered
    | Started(window: int, title: string)
    | ModeWritten(id: nat, mode: Mode)
    | Called(id: nat, attempt: Attempt)
    | Yielded(at: Snapshot)

  /** A state without its history. */
  datatype Snapshot = Snapshot(
    inAutoType: bool,
    inDialog: bool,
    windowForGlobal: int,
    titleForGlobal: string,
    executor: ExecutorState,
    dialogs: int,
    queued: int,
    live: int,
    nextId: nat)

  datatype State = State(
    inAutoType: bool,
    inDialog: bool,
    windowForGlobal: int,
    titleForGlobal: string,
    executor: ExecutorState,
    dialogs: int,
    queued: int,
    live: int,
    nextId: nat,
    log: seq<Mark>)

  function SnapshotOf(s: State): Snapshot {
    Snapshot(s.inAutoType, s.inDialog, s.windowForGlobal, s.titleForGlobal, s.executor,
             s.dialogs, s.queued, s.live, s.nextId)
  }

  function Restored(at: Snapshot, log: seq<Mark>): State {
    State(at.inAutoType, at.inDialog, at.windowForGlobal, at.titleForGlobal, at.executor,
          at.dialogs, at.queued, at.live, at.nextId, log)
  }

  function Record(s: State, mark: Mark): State {
    s.(log := s.log + [mark])
  }

  function RecordYield(s: State): State {
    Record(s, Yielded(SnapshotOf(s)))
  }

  // ---------------------------------------------------------------------
  // What each call does
  // ---------------------------------------------------------------------

  /** AutoType::resetAutoTypeState, which every autotypeFinished signal calls. */
  function Reset(s: State): State {
    s.(windowForGlobal := 0, titleForGlobal := [], inDialog := false)
  }

  /** An autotypeFinished signal that no execution sends. */
  function DialogSignal(s: State): State {
    Reset(Record(s, FinishedByDialog))
  }

  function Reject(s: State, shown: bool): State {
    if s.dialogs <= 0 then s
    else
      var closed := Record(s.(dialogs := s.dialogs - 1), DialogGone);
      if shown then DialogSignal(DialogSignal(closed)) else DialogSignal(closed)
  }

  function Deliver(s: State, es: seq<Event>): State
    decreases es, 0
  {
    if es == [] then RecordYield(s) else Deliver(Dispatch(RecordYield(s), es[0]), es[1..])
  }

  function Dispatch(s: State, e: Event): State
    decreases e, 1
  {
    match e
    case PerformAutoType(run) => Execute(s, run, 0, Normal)
    case StartGlobal(ownWindowActive, window, title) =>
      if ownWindowActive then s
      else Record(s.(windowForGlobal := window, titleForGlobal := title), Started(window, title))
    case PerformGlobal(hasMainWindow, alwaysAsk, matches, run) =>
      Global(s, hasMainWindow, alwaysAsk, matches, run)
    case DialogRejected(shown) => Reject(s, shown)
    case DialogHidden => if s.dialogs <= 0 then s else DialogSignal(s)
    case DialogActivated =>
      if s.dialogs <= 0 then s else Record(s.(dialogs := s.dialogs - 1, queued := s.queued + 1), Chosen)
    case ActivationDelivered(run, virtualMode) => DeliverChoice(s, run, virtualMode)
  }

  /** The queued call that a choice in a dialog makes. */
  function DeliverChoice(s: State, run: Run, virtualMode: bool): State
    decreases run, 5
  {
    if s.queued <= 0 then s
    else
      var taken := Record(s.(queued := s.queued - 1), Delivered);
      Execute(taken, run, s.windowForGlobal, if virtualMode then Virtual else Normal)
  }

  /** Whether a call that takes the dialog lock opens a dialog. */
  predicate Opens(s: State, hasMainWindow: bool, alwaysAsk: bool, matches: nat) {
    hasMainWindow && (alwaysAsk || Found(s, matches) != 1)
  }

  /** The entries that are found; without a window title none is looked for. */
  function Found(s: State, matches: nat): nat {
    if s.titleForGlobal == [] then 0 else matches
  }

  /** AutoType::performGlobalAutoType */
  function Global(s: State, hasMainWindow: bool, alwaysAsk: bool, matches: nat, run: Run): State
    decreases run, 5
  {
    if s.inDialog then s
    else
      var opens := Opens(s, hasMainWindow, alwaysAsk, matches);
      var s1 := TakeDialog(s, opens);
      if opens then s1
      else if Found(s, matches) > 0 then Execute(s1, run, s.windowForGlobal, Normal)
      else DialogSignal(s1)
  }

  function TakeDialog(s: State, opens: bool): State {
    Record(s.(inDialog := true, dialogs := if opens then s.dialogs + 1 else s.dialogs),
           TookDialog(opens, s.dialogs, s.queued))
  }

  /** The state in which an execution has just been called. */
  function Begun(s: State): State {
    s.(live := s.live + 1, nextId := s.nextId + 1)
  }

  /** AutoType::executeAutoTypeActions */
  function Execute(s: State, run: Run, window: int, mode: Mode): State
    decreases run, 4
  {
    var parsed := Deliver(Begun(s), run.parsing);
    AfterParse(parsed, s.nextId, Parse(run.sequence, run.entry, run.host, false), run, window, mode)
  }

  /** The rest of an execution, once the sequence has been parsed. */
  function AfterParse(parsed: State, id: nat, outcome: Outcome, run: Run, window: int, mode: Mode): State
    decreases run, 3
  {
    match outcome
    case Rejected(_) => Leave(Deliver(parsed, run.errorBox), id)
    case Parsed(actions) =>
      if parsed.inAutoType then parsed.(live := parsed.live - 1)
      else Leave(Locked(Record(parsed.(inAutoType := true), Took(id)), id, run, actions, window, mode), id)
  }

  /** The signal at the end of an execution, and its return. */
  function Leave(s: State, id: nat): State {
    var s1 := Reset(Record(s, Finished(id)));
    s1.(live := s1.live - 1)
  }

  function WriteMode(s: State, id: nat, mode: Mode): State {
    Record(s.(executor := s.executor.(mode := mode)), ModeWritten(id, mode))
  }

  /** The part of an execution that holds the lock. */
  function Locked(s: State, id: nat, run: Run, actions: seq<Action>, window: int, mode: Mode): State
    decreases run, 2
  {
    var raised := if window == 0 then s else Deliver(s, run.raising);
    var settled := Deliver(WriteMode(raised, id, mode), run.settling);
    var target := if window == 0 then run.foreground else window;
    var last := ActionsFrom(settled, id, run, actions, 0, target);
    Record(last.(inAutoType := false), Gave(id))
  }

  function ActionsFrom(s: State, id: nat, run: Run, actions: seq<Action>, i: nat, window: int): State
    requires i <= |actions|
    decreases run, 2, |actions| - i
  {
    if i == |actions| || WindowAt(run, i) != window then s
    else
      var tried := TriesFrom(s, id, run, actions[i], i, 1);
      if tried.done then ActionsFrom(tried.state, id, run, actions, i + 1, window) else tried.state
  }

  datatype TriedState = TriedState(state: State, done: bool)

  /** The state in which exec has just been called. */
  function Call(s: State, id: nat, a: Action, result: Result): State {
    Record(s.(executor := AfterAction(s.executor, a)), Called(id, Attempt(a, s.executor, result)))
  }

  /** The state after one call of exec and the events that are processed behind it. */
  function Processed(s: State, id: nat, run: Run, a: Action, i: nat, k: nat): State
    decreases run, 0, 0
  {
    var called := Call(s, id, a, ResultOf(a, AnswerAt(run, i, k)));
    var returned := if RunsEventLoop(a) && Listed(run, i, k) then Deliver(called, run.scripts[i].tries[k - 1].during)
                    else called;
    if Listed(run, i, k) then Deliver(returned, run.scripts[i].tries[k - 1].after) else RecordYield(returned)
  }

  /** The message box of a failed try, or the wait before the next one. */
  function Waited(s: State, run: Run, i: nat, k: nat): State
    decreases run, 0, 0
  {
    if Listed(run, i, k) then Deliver(s, run.scripts[i].tries[k - 1].waiting) else RecordYield(s)
  }

  function TriesFrom(s: State, id: nat, run: Run, a: Action, i: nat, k: nat): TriedState
    requires 1 <= k <= MAX_RETRIES
    decreases run, 1, MAX_RETRIES - k
  {
    var result := ResultOf(a, AnswerAt(run, i, k));
    var processed := Processed(s, id, run, a, i, k);
    if result.Ok? then TriedState(processed, true)
    else
      var waited := Waited(processed, run, i, k);
      if result.Failed? || k == MAX_RETRIES then TriedState(waited, false)
      else TriesFrom(waited, id, run, a, i, k + 1)
  }

  const INITIAL: State := State(false, false, 0, [], ExecutorState(25, Normal), 0, 0, 0, 0, [])
}
