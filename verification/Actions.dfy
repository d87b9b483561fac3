/** The compiled actions and the executor they act on. */
module Actions {

  datatype Modifiers = Modifiers(shift: bool, control: bool, alt: bool, meta: bool)

  const NO_MODIFIERS: Modifiers := Modifiers(false, false, false, false)

  /** Qt::Key. The value of a printable key is the code of its character. */
  datatype Key = Unknown | Printable(c: char) | Named(name: string)

  datatype Mode = Normal | Virtual

  /** The AutoTypeAction classes. Their fields never change. A key action holds either
      a character (and Key_unknown) or a key (and the null character). */
  datatype Action =
    | Begin
    | Type(character: char, key: Key, modifiers: Modifiers)
    | Delay(delayMs: int, setExecDelay: bool)
    | ClearField
    | SetMode(mode: Mode)

  function TypeCharacter(c: char, modifiers: Modifiers): Action {
    Type(c, Unknown, modifiers)
  }

  function TypeKey(key: Key, modifiers: Modifiers): Action {
    Type('\0', key, modifiers)
  }

  /** The text that an action types. */
  function Glyph(a: Action): string {
    if !a.Type? then []
    else
      match a.key
      case Unknown => [a.character]
      case Printable(c) => [c]
      case Named(_) => []
  }

  /** AutoTypeAction::Result, without its message. */
  datatype Result = Ok | Retry | Failed

  // ---------------------------------------------------------------------
  // Executing one action
  // ---------------------------------------------------------------------

  datatype ExecutorState = ExecutorState(execDelayMs: int, mode: Mode)

  /** Only delay and mode actions write to the executor. */
  function AfterAction(e: ExecutorState, a: Action): ExecutorState {
    match a
    case Delay(ms, true) => e.(execDelayMs := ms)
    case SetMode(m) => e.(mode := m)
    case _ => e
  }

  /** Whether the platform decides about the result. */
  predicate AsksPlatform(a: Action) {
    a.Begin? || a.Type? || a.ClearField?
  }

  function ResultOf(a: Action, platform: Result): Result {
    if AsksPlatform(a) then platform else Ok
  }

  /** Whether the event loop runs while the action does. */
  predicate RunsEventLoop(a: Action) {
    AsksPlatform(a) || (a.Delay? && !a.setExecDelay)
  }

  class Executor {
    var execDelayMs: int
    var mode: Mode

    function State(): ExecutorState
      reads this
    {
      ExecutorState(execDelayMs, mode)
    }

    constructor ()
      ensures State() == ExecutorState(25, Normal)
    {
      execDelayMs := 25;
      mode := Normal;
    }

    /** AutoTypeAction::exec; platform is what execBegin, execType or execClearField answers. */
    method Exec(action: Action, platform: Result) returns (result: Result)
      modifies this
      ensures State() == AfterAction(old(State()), action)
      ensures result == ResultOf(action, platform)
    {
      match action
      case Begin => result := platform;
      case Type(_, _, _) => result := platform;
      case ClearField => result := platform;
      case Delay(ms, setExecDelay) =>
        if setExecDelay {
          execDelayMs := ms;
        }
        result := Ok;
      case SetMode(m) =>
        mode := m;
        result := Ok;
    }
  }
}
