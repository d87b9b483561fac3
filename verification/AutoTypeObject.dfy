/** The AutoType class. Each method is tied to the function of the session that says
    what it does to the object's state. */
module AutoTypeObject {
  import opened Actions
  import opened Compiler
  import opened Execution
  import Compilation
  import opened Session

  class AutoType {
    // m_inAutoType and m_inGlobalAutoTypeDialog: true while the mutex is locked
    var inAutoType: bool
    var inGlobalAutoTypeDialog: bool
    var windowForGlobal: int
    var windowTitleForGlobal: string
    const executor: Executor

    // open selection dialogs, activations in the event queue, calls that have not returned
    var dialogs: int
    var queued: int
    var live: int
    var nextId: nat
    ghost var log: seq<Mark>

    ghost function Abs(): State
      reads this, executor
    {
      State(inAutoType, inGlobalAutoTypeDialog, windowForGlobal, windowTitleForGlobal,
            executor.State(), dialogs, queued, live, nextId, log)
    }

    constructor ()
      ensures Abs() == INITIAL
      ensures fresh(executor)
    {
      inAutoType, inGlobalAutoTypeDialog := false, false;
      windowForGlobal, windowTitleForGlobal := 0, [];
      executor := new Executor();
      dialogs, queued, live, nextId, log := 0, 0, 0, 0, [];
    }

    ghost method Note(mark: Mark)
      modifies this`log
      ensures Abs() == Record(old(Abs()), mark)
    {
      log := log + [mark];
    }

    /** The slot of every autotypeFinished signal. */
    method ResetAutoTypeState()
      modifies this
      ensures Abs() == Reset(old(Abs()))
    {
      windowForGlobal := 0;
      windowTitleForGlobal := [];
      // tryLock, then unlock: the mutex ends up free whether or not it was held
      inGlobalAutoTypeDialog := true;
      inGlobalAutoTypeDialog := false;
    }

    /** The signal when no execution sends it, and its slot. */
    method EmitByDialog()
      modifies this
      ensures Abs() == DialogSignal(old(Abs()))
    {
      Note(FinishedByDialog);
      ResetAutoTypeState();
    }

    /** QCoreApplication::processEvents, Tools::wait and nested dialogs */
    method ProcessEvents(es: seq<Event>)
      modifies this, executor
      ensures Abs() == Deliver(old(Abs()), es)
      decreases es, 0
    {
      Note(Yielded(SnapshotOf(Abs())));
      if es != [] {
        Handle(es[0]);
        ProcessEvents(es[1..]);
      }
    }

    method RejectDialog(shown: bool)
      modifies this
      ensures Abs() == Reject(old(Abs()), shown)
    {
      if dialogs > 0 {
        dialogs := dialogs - 1;
        Note(DialogGone);
        if shown {
          EmitByDialog();
        }
        EmitByDialog();
      }
    }

    method Handle(e: Event)
      modifies this, executor
      ensures Abs() == Dispatch(old(Abs()), e)
      decreases e, 1
    {
      match e
      case PerformAutoType(run) =>
        ExecuteAutoTypeActions(run, 0, Normal);
      case StartGlobal(ownWindowActive, window, title) =>
        if !ownWindowActive {
          windowForGlobal := window;
          windowTitleForGlobal := title;
          Note(Started(window, title));
        }
      case PerformGlobal(hasMainWindow, alwaysAsk, matches, run) =>
        PerformGlobalAutoType(hasMainWindow, alwaysAsk, matches, run);
      case DialogRejected(shown) =>
        RejectDialog(shown);
      case DialogHidden =>
        if dialogs > 0 {
          EmitByDialog();
        }
      case DialogActivated =>
        if dialogs > 0 {
          dialogs := dialogs - 1;
          queued := queued + 1;
          Note(Chosen);
        }
      case ActivationDelivered(run, virtualMode) =>
        DeliverActivation(run, virtualMode);
    }

    /** The slot of matchActivated, once the queue delivers it. */
    method DeliverActivation(run: Run, virtualMode: bool)
      modifies this, executor
      ensures Abs() == DeliverChoice(old(Abs()), run, virtualMode)
      decreases run, 6
    {
      hide Execute;
      if queued > 0 {
        queued := queued - 1;
        Note(Delivered);
        ExecuteAutoTypeActions(run, windowForGlobal, if virtualMode then Virtual else Normal);
      }
    }

    /** matches counts the entries that match a window title that is not empty. */
    method PerformGlobalAutoType(hasMainWindow: bool, alwaysAsk: bool, matches: nat, run: Run)
      modifies this, executor
      ensures Abs() == Global(old(Abs()), hasMainWindow, alwaysAsk, matches, run)
      decreases run, 6
    {
      if inGlobalAutoTypeDialog {
        return;
      }
      inGlobalAutoTypeDialog := true;
      var matchList := if windowTitleForGlobal == [] then 0 else matches;
      var opens := hasMainWindow && (alwaysAsk || matchList > 1 || matchList == 0 || windowTitleForGlobal == []);
      Note(TookDialog(opens, dialogs, queued));
      if opens {
        dialogs := dialogs + 1;
      } else if matchList > 0 {
        ExecuteAutoTypeActions(run, windowForGlobal, Normal);
      } else {
        EmitByDialog();
      }
    }

    method ExecuteAutoTypeActions(run: Run, window: int, mode: Mode)
      modifies this, executor
      ensures Abs() == Execute(old(Abs()), run, window, mode)
      decreases run, 5
    {
      var id := nextId;
      live, nextId := live + 1, nextId + 1;
      ProcessEvents(run.parsing);
      var actions, error := Compile(run);
      ghost var outcome := Parse(run.sequence, run.entry, run.host, false);
      Conclude(id, actions, error, outcome, run, window, mode);
    }

    /** What executeAutoTypeActions goes by: the error, and the list if there is none. */
    static ghost predicate Reports(outcome: Outcome, actions: seq<Action>, error: Error) {
      match outcome
      case Rejected(e) => error == e != NoError
      case Parsed(a) => error == NoError && actions == a
    }

    static method Compile(run: Run) returns (actions: seq<Action>, error: Error)
      ensures Reports(Parse(run.sequence, run.entry, run.host, false), actions, error)
    {
      actions, error := ParseSequence(run.sequence, run.entry, run.host, false);
      Compilation.AllOrNothing(run.sequence, run.entry, run.host, false);
    }

    /** The part of executeAutoTypeActions behind parseSequence. */
    method Conclude(id: nat, actions: seq<Action>, error: Error, ghost outcome: Outcome,
                    run: Run, window: int, mode: Mode)
      requires Reports(outcome, actions, error)
      modifies this, executor
      ensures Abs() == AfterParse(old(Abs()), id, outcome, run, window, mode)
      decreases run, 4
    {
      if error != NoError {
        ProcessEvents(run.errorBox);
        EmitFinished(id);
        return;
      }
      if inAutoType {
        live := live - 1;
        return;
      }
      inAutoType := true;
      Note(Took(id));
      RunLocked(id, run, actions, window, mode);
      EmitFinished(id);
    }

    /** The signal, its slot, and the return of the call. */
    method EmitFinished(id: nat)
      modifies this
      ensures Abs() == Leave(old(Abs()), id)
    {
      Note(Finished(id));
      ResetAutoTypeState();
      live := live - 1;
    }

    /** From the successful tryLock to the unlock. */
    method RunLocked(id: nat, run: Run, actions: seq<Action>, window: int, mode: Mode)
      modifies this, executor
      ensures Abs() == Locked(old(Abs()), id, run, actions, window, mode)
      decreases run, 3
    {
      if window != 0 {
        ProcessEvents(run.raising);
      }
      executor.mode := mode;
      Note(ModeWritten(id, mode));
      ProcessEvents(run.settling);
      var target := if window == 0 then run.foreground else window;
      PerformActions(id, run, actions, target);
      inAutoType := false;
      Note(Gave(id));
    }

    method PerformActions(id: nat, run: Run, actions: seq<Action>, window: int)
      modifies this, executor
      ensures Abs() == ActionsFrom(old(Abs()), id, run, actions, 0, window)
      decreases run, 2
    {
      var i := 0;
      while i < |actions|
        invariant i <= |actions|
        invariant ActionsFrom(Abs(), id, run, actions, i, window)
               == ActionsFrom(old(Abs()), id, run, actions, 0, window)
      {
        // the user has gone to another window
        if WindowAt(run, i) != window {
          break;
        }
        var failed := PerformAction(id, run, actions[i], i);
        if failed {
          break;
        }
        i := i + 1;
      }
    }

    /** The retry loop around one action. */
    method PerformAction(id: nat, run: Run, action: Action, i: nat) returns (failed: bool)
      modifies this, executor
      ensures TriesFrom(old(Abs()), id, run, action, i, 1) == TriedState(Abs(), !failed)
      decreases run, 1
    {
      failed := false;
      var k := 1;
      while k <= MAX_RETRIES
        invariant 1 <= k <= MAX_RETRIES
        invariant !failed
        invariant TriesFrom(Abs(), id, run, action, i, k) == TriesFrom(old(Abs()), id, run, action, i, 1)
        decreases MAX_RETRIES - k
      {
        var result := ExecOnce(id, run, action, i, k);
        if result.Ok? {
          break;
        }
        WaitOrReport(run, i, k);
        if !result.Retry? || k == MAX_RETRIES {
          failed := true;
          break;
        }
        k := k + 1;
      }
    }

    /** One call of exec, and the events processed behind it. */
    method ExecOnce(id: nat, run: Run, action: Action, i: nat, k: nat) returns (result: Result)
      modifies this, executor
      ensures Abs() == Processed(old(Abs()), id, run, action, i, k)
      ensures result == ResultOf(action, AnswerAt(run, i, k))
      decreases run, 0
    {
      ghost var before := executor.State();
      result := executor.Exec(action, AnswerAt(run, i, k));
      Note(Called(id, Attempt(action, before, result)));
      if RunsEventLoop(action) && Listed(run, i, k) {
        ProcessEvents(run.scripts[i].tries[k - 1].during);
      }
      if Listed(run, i, k) {
        ProcessEvents(run.scripts[i].tries[k - 1].after);
      } else {
        Note(Yielded(SnapshotOf(Abs())));
      }
    }

    method WaitOrReport(run: Run, i: nat, k: nat)
      modifies this, executor
      ensures Abs() == Waited(old(Abs()), run, i, k)
      decreases run, 0
    {
      if Listed(run, i, k) {
        ProcessEvents(run.scripts[i].tries[k - 1].waiting);
      } else {
        Note(Yielded(SnapshotOf(Abs())));
      }
    }
  }
}
