/** Running a compiled list: the window guard, the retries, and what is left of the
    list when something fails. */
module Execution {
  import Text
  import opened Actions

  const MAX_RETRIES: nat := 5

  /** What a run depends on besides the list: the active window when the i-th action is
      about to start, and what the platform answers the k-th time it is tried. */
  datatype Platform = Platform(activeWindow: nat -> int, answer: (nat, nat) -> Result)

  /** One call of exec, with the executor as it found it. */
  datatype Attempt = Attempt(action: Action, before: ExecutorState, result: Result)

  datatype Tried = Tried(attempts: seq<Attempt>, executor: ExecutorState, done: bool, retryWaits: nat)

  /** The tries of the i-th action from the k-th one on. */
  function TryFrom(a: Action, i: nat, k: nat, p: Platform, e: ExecutorState): Tried
    requires 1 <= k <= MAX_RETRIES
    decreases MAX_RETRIES - k
  {
    var result := ResultOf(a, p.answer(i, k));
    var attempt := Attempt(a, e, result);
    if result.Ok? then Tried([attempt], AfterAction(e, a), true, 0)
    else if result.Failed? || k == MAX_RETRIES then Tried([attempt], AfterAction(e, a), false, 0)
    else
      var later := TryFrom(a, i, k + 1, p, AfterAction(e, a));
      later.(attempts := [attempt] + later.attempts, retryWaits := later.retryWaits + 1)
  }

  datatype Ran = Ran(attempts: seq<Attempt>, executor: ExecutorState, completed: nat, retryWaits: nat)

  /** The loop over the actions, from the i-th one on. */
  function RunFrom(actions: seq<Action>, i: nat, window: int, p: Platform, e: ExecutorState): Ran
    requires i <= |actions|
    decreases |actions| - i
  {
    if i == |actions| || p.activeWindow(i) != window then Ran([], e, i, 0)
    else
      var tried := TryFrom(actions[i], i, 1, p, e);
      if !tried.done then Ran(tried.attempts, tried.executor, i, tried.retryWaits)
      else
        Join(tried, RunFrom(actions, i + 1, window, p, tried.executor))
  }

  function Join(tried: Tried, later: Ran): Ran {
    later.(attempts := tried.attempts + later.attempts, retryWaits := tried.retryWaits + later.retryWaits)
  }

  // ---------------------------------------------------------------------
  // Execution is a prefix
  // ---------------------------------------------------------------------

  function Successes(attempts: seq<Attempt>): seq<Action> {
    if attempts == [] then []
    else (if attempts[0].result.Ok? then [attempts[0].action] else []) + Successes(attempts[1..])
  }

  lemma SuccessesCons(first: Attempt, rest: seq<Attempt>)
    ensures Successes([first] + rest) == Successes([first]) + Successes(rest)
  {
    assert ([first] + rest)[1..] == rest && [first][1..] == [];
  }

  lemma {:induction false} SuccessesConcat(a: seq<Attempt>, b: seq<Attempt>)
    ensures Successes(a + b) == Successes(a) + Successes(b)
  {
    if a == [] {
      assert a + b == b;
    } else {
      SuccessesConcat(a[1..], b);
      SuccessesCons(a[0], a[1..]);
      SuccessesCons(a[0], a[1..] + b);
      assert a == [a[0]] + a[1..] && a + b == [a[0]] + (a[1..] + b);
      Text.Regroup(Successes([a[0]]), Successes(a[1..]), Successes(b));
    }
  }

  /** The i-th action goes through: the platform answers Ok after nothing but retries, or is not
      asked, since delays and mode switches always succeed. */
  ghost predicate Succeeds(a: Action, i: nat, k: nat, p: Platform)
    requires k >= 1
  {
    exists n :: SucceedsAt(a, i, k, n, p)
  }

  ghost predicate SucceedsAt(a: Action, i: nat, k: nat, n: nat, p: Platform)
    requires k >= 1
  {
    && k <= n <= 5
    && (if a.Delay? || a.SetMode? then n == k
        else p.answer(i, n).Ok? && forall j :: k <= j < n ==> p.answer(i, j).Retry?)
  }

  /** The tries of the i-th action from the k-th one on: all of that action, answered by the
      platform in order, and each but the last asking for another. */
  ghost predicate TriesOf(attempts: seq<Attempt>, a: Action, i: nat, k: nat, p: Platform) {
    && 0 < |attempts| <= 5 - k + 1
    && (forall j :: 0 <= j < |attempts| ==>
          && attempts[j].action == a
          && attempts[j].result == if a.Delay? || a.SetMode? then Ok else p.answer(i, k + j))
    && (forall j :: 0 <= j < |attempts| - 1 ==> attempts[j].result.Retry?)
  }

  lemma TriesCons(first: Attempt, later: seq<Attempt>, a: Action, i: nat, k: nat, p: Platform)
    requires first.action == a && first.result == ResultOf(a, p.answer(i, k)) && first.result.Retry?
    requires TriesOf(later, a, i, k + 1, p)
    ensures TriesOf([first] + later, a, i, k, p)
  {
    var all := [first] + later;
    forall j | 0 <= j < |all|
      ensures all[j].action == a && all[j].result == if a.Delay? || a.SetMode? then Ok else p.answer(i, k + j)
    {
      if j > 0 {
        assert all[j] == later[j - 1] && k + j == k + 1 + (j - 1);
      }
    }
  }

  /** An action is done if its last try succeeds, and given up after a failure or the last try. */
  lemma {:induction false} TryShape(a: Action, i: nat, k: nat, p: Platform, e: ExecutorState)
    requires 1 <= k <= MAX_RETRIES
    ensures var t := TryFrom(a, i, k, p, e);
            && TriesOf(t.attempts, a, i, k, p)
            && t.retryWaits == |t.attempts| - 1
            && (t.done <==> t.attempts[|t.attempts| - 1].result.Ok?)
            && (!t.done ==> t.attempts[|t.attempts| - 1].result.Failed? || |t.attempts| == MAX_RETRIES - k + 1)
    decreases MAX_RETRIES - k
  {
    var result := ResultOf(a, p.answer(i, k));
    if result.Retry? && k < MAX_RETRIES {
      TryShape(a, i, k + 1, p, AfterAction(e, a));
      TriesCons(Attempt(a, e, result), TryFrom(a, i, k + 1, p, AfterAction(e, a)).attempts, a, i, k, p);
    }
  }

  lemma {:induction false} TrySuccesses(a: Action, i: nat, k: nat, p: Platform, e: ExecutorState)
    requires 1 <= k <= MAX_RETRIES
    ensures var t := TryFrom(a, i, k, p, e);
            Successes(t.attempts) == if t.done then [a] else []
    decreases MAX_RETRIES - k
  {
    var result := ResultOf(a, p.answer(i, k));
    if result.Retry? && k < MAX_RETRIES {
      TrySuccesses(a, i, k + 1, p, AfterAction(e, a));
      var later := TryFrom(a, i, k + 1, p, AfterAction(e, a));
      assert ([Attempt(a, e, result)] + later.attempts)[1..] == later.attempts;
    }
  }

  lemma {:induction false} TryDoneIff(a: Action, i: nat, k: nat, p: Platform, e: ExecutorState)
    requires 1 <= k <= MAX_RETRIES
    ensures TryFrom(a, i, k, p, e).done <==> Succeeds(a, i, k, p)
    decreases MAX_RETRIES - k
  {
    var result := ResultOf(a, p.answer(i, k));
    if result.Ok? {
      assert SucceedsAt(a, i, k, k, p);
    } else if result.Retry? && k < MAX_RETRIES {
      TryDoneIff(a, i, k + 1, p, AfterAction(e, a));
      if Succeeds(a, i, k + 1, p) {
        var n :| SucceedsAt(a, i, k + 1, n, p);
        assert SucceedsAt(a, i, k, n, p);
      }
      if Succeeds(a, i, k, p) {
        var n :| SucceedsAt(a, i, k, n, p);
        assert SucceedsAt(a, i, k + 1, n, p);
      }
    }
  }

  /** The tries of the actions from the i-th one on, one block for each: the window was unchanged
      before each of them, and it succeeded within its tries after nothing but retries. */
  ghost predicate Completed(blocks: seq<seq<Attempt>>, actions: seq<Action>, i: nat, window: int, p: Platform)
    requires i + |blocks| <= |actions|
  {
    forall k :: 0 <= k < |blocks| ==> CompletedAt(blocks[k], actions[i + k], i + k, window, p)
  }

  ghost predicate CompletedAt(block: seq<Attempt>, a: Action, i: nat, window: int, p: Platform) {
    p.activeWindow(i) == window && TriesOf(block, a, i, 1, p) && block[|block| - 1].result.Ok?
  }

  /** The tries of the action at which a run ended: none if the list was completed or the
      window had changed, otherwise retries up to a failure or to the last try. */
  ghost predicate Leftover(rest: seq<Attempt>, actions: seq<Action>, completed: nat, window: int, p: Platform) {
    if completed >= |actions| || p.activeWindow(completed) != window then rest == []
    else
      && TriesOf(rest, actions[completed], completed, 1, p)
      && !rest[|rest| - 1].result.Ok?
      && (rest[|rest| - 1].result.Failed? || |rest| == 5)
  }

  function Flat(blocks: seq<seq<Attempt>>): seq<Attempt> {
    if blocks == [] then [] else blocks[0] + Flat(blocks[1..])
  }

  /** The calls of a run: the tries of each completed action in turn, and behind them nothing
      but the tries of the action that ended it. */
  ghost predicate Explains(r: Ran, blocks: seq<seq<Attempt>>, rest: seq<Attempt>,
                           actions: seq<Action>, i: nat, window: int, p: Platform) {
    && i <= r.completed <= |actions|
    && |blocks| == r.completed - i
    && r.attempts == Flat(blocks) + rest
    && Completed(blocks, actions, i, window, p)
    && Leftover(rest, actions, r.completed, window, p)
  }

  lemma FlatCons(block: seq<Attempt>, blocks: seq<seq<Attempt>>, rest: seq<Attempt>)
    ensures Flat([block] + blocks) + rest == block + (Flat(blocks) + rest)
  {
    assert ([block] + blocks)[1..] == blocks;
    Text.Regroup(block, Flat(blocks), rest);
  }

  lemma CompletedCons(block: seq<Attempt>, blocks: seq<seq<Attempt>>,
                      actions: seq<Action>, i: nat, window: int, p: Platform)
    requires i + 1 + |blocks| <= |actions|
    requires CompletedAt(block, actions[i], i, window, p)
    requires Completed(blocks, actions, i + 1, window, p)
    ensures Completed([block] + blocks, actions, i, window, p)
  {
    var all := [block] + blocks;
    forall k | 0 <= k < |all|
      ensures CompletedAt(all[k], actions[i + k], i + k, window, p)
    {
      if k > 0 {
        assert all[k] == blocks[k - 1] && i + k == i + 1 + (k - 1);
      }
    }
  }

  /** A run that ends before its i-th action. */
  lemma RunEnds(actions: seq<Action>, i: nat, window: int, p: Platform, e: ExecutorState)
    requires i <= |actions| && (i == |actions| || p.activeWindow(i) != window)
    ensures Explains(RunFrom(actions, i, window, p, e), [], [], actions, i, window, p)
  {
  }

  /** A run that ends with the tries of its i-th action. */
  lemma TriesFail(actions: seq<Action>, i: nat, window: int, p: Platform, e: ExecutorState)
    requires i < |actions| && p.activeWindow(i) == window
    requires !TryFrom(actions[i], i, 1, p, e).done
    ensures Explains(RunFrom(actions, i, window, p, e), [], TryFrom(actions[i], i, 1, p, e).attempts,
                     actions, i, window, p)
  {
    TryShape(actions[i], i, 1, p, e);
    assert Flat([]) + TryFrom(actions[i], i, 1, p, e).attempts == TryFrom(actions[i], i, 1, p, e).attempts;
  }

  /** A run that goes on behind its i-th action. */
  lemma TriesSucceed(t: Tried, later: Ran, blocks: seq<seq<Attempt>>, rest: seq<Attempt>,
                     actions: seq<Action>, i: nat, window: int, p: Platform)
    requires i < |actions| && CompletedAt(t.attempts, actions[i], i, window, p)
    requires Explains(later, blocks, rest, actions, i + 1, window, p)
    ensures Explains(Join(t, later), [t.attempts] + blocks, rest, actions, i, window, p)
  {
    FlatCons(t.attempts, blocks, rest);
    CompletedCons(t.attempts, blocks, actions, i, window, p);
  }

  /** Execution is a prefix. The calls of a run are the tries of a first part of the list, action by
      action and each with the window unchanged, at most five of them, all answered with Retry but
      the last, which is Ok; behind them come only the tries of the action that ended the run, if
      its window was unchanged. Nothing runs behind the first failure or change of window. */
  lemma {:induction false} ExecutionIsPrefix(actions: seq<Action>, i: nat, window: int, p: Platform, e: ExecutorState)
    returns (blocks: seq<seq<Attempt>>, rest: seq<Attempt>)
    requires i <= |actions|
    ensures Explains(RunFrom(actions, i, window, p, e), blocks, rest, actions, i, window, p)
    decreases |actions| - i
  {
    blocks, rest := [], [];
    if i == |actions| || p.activeWindow(i) != window {
      RunEnds(actions, i, window, p, e);
    } else {
      var t := TryFrom(actions[i], i, 1, p, e);
      TryShape(actions[i], i, 1, p, e);
      if t.done {
        blocks, rest := ExecutionIsPrefix(actions, i + 1, window, p, t.executor);
        TriesSucceed(t, RunFrom(actions, i + 1, window, p, t.executor), blocks, rest, actions, i, window, p);
        blocks := [t.attempts] + blocks;
      } else {
        TriesFail(actions, i, window, p, e);
        rest := t.attempts;
      }
    }
  }

  lemma Slice(actions: seq<Action>, i: nat, n: nat)
    requires i < n <= |actions|
    ensures [actions[i]] + actions[i + 1..n] == actions[i..n]
  {
  }

  /** The successful calls of a run are the completed part of the list, in order. */
  lemma {:induction false} SuccessesArePrefix(actions: seq<Action>, i: nat, window: int, p: Platform, e: ExecutorState)
    requires i <= |actions|
    ensures var r := RunFrom(actions, i, window, p, e);
            i <= r.completed <= |actions| && Successes(r.attempts) == actions[i..r.completed]
    decreases |actions| - i
  {
    if i < |actions| && p.activeWindow(i) == window {
      var t := TryFrom(actions[i], i, 1, p, e);
      TrySuccesses(actions[i], i, 1, p, e);
      if t.done {
        var later := RunFrom(actions, i + 1, window, p, t.executor);
        SuccessesArePrefix(actions, i + 1, window, p, t.executor);
        SuccessesStep(t.attempts, later.attempts, actions, i, later.completed);
      } else {
        assert actions[i..i] == [];
      }
    } else {
      assert actions[i..i] == [];
    }
  }

  lemma SuccessesStep(tries: seq<Attempt>, later: seq<Attempt>, actions: seq<Action>, i: nat, n: nat)
    requires i < n <= |actions|
    requires Successes(tries) == [actions[i]] && Successes(later) == actions[i + 1..n]
    ensures Successes(tries + later) == actions[i..n]
  {
    SuccessesConcat(tries, later);
    Slice(actions, i, n);
  }

  /** Every call finds the executor as the call before it left it. */
  predicate Threaded(attempts: seq<Attempt>, first: ExecutorState, last: ExecutorState) {
    if attempts == [] then first == last
    else
      && attempts[0].before == first
      && Threaded(attempts[1..], AfterAction(first, attempts[0].action), last)
  }

  lemma {:induction false} ThreadedConcat(a: seq<Attempt>, b: seq<Attempt>,
                                          first: ExecutorState, middle: ExecutorState, last: ExecutorState)
    requires Threaded(a, first, middle) && Threaded(b, middle, last)
    ensures Threaded(a + b, first, last)
  {
    if a == [] {
      assert a + b == b;
    } else {
      assert (a + b)[0] == a[0] && (a + b)[1..] == a[1..] + b;
      ThreadedConcat(a[1..], b, AfterAction(first, a[0].action), middle, last);
    }
  }

  lemma {:induction false} TriesThread(a: Action, i: nat, k: nat, p: Platform, e: ExecutorState)
    requires 1 <= k <= MAX_RETRIES
    ensures Threaded(TryFrom(a, i, k, p, e).attempts, e, TryFrom(a, i, k, p, e).executor)
    decreases MAX_RETRIES - k
  {
    var result := ResultOf(a, p.answer(i, k));
    var attempt := Attempt(a, e, result);
    assert [attempt][1..] == [];
    if result.Retry? && k < MAX_RETRIES {
      var later := TryFrom(a, i, k + 1, p, AfterAction(e, a));
      TriesThread(a, i, k + 1, p, AfterAction(e, a));
      ThreadedConcat([attempt], later.attempts, e, AfterAction(e, a), later.executor);
    }
  }

  lemma {:induction false} RunThreads(actions: seq<Action>, i: nat, window: int, p: Platform, e: ExecutorState)
    requires i <= |actions|
    ensures Threaded(RunFrom(actions, i, window, p, e).attempts, e, RunFrom(actions, i, window, p, e).executor)
    decreases |actions| - i
  {
    if i < |actions| && p.activeWindow(i) == window {
      var t := TryFrom(actions[i], i, 1, p, e);
      TriesThread(actions[i], i, 1, p, e);
      if t.done {
        var later := RunFrom(actions, i + 1, window, p, t.executor);
        RunThreads(actions, i + 1, window, p, t.executor);
        ThreadedConcat(t.attempts, later.attempts, e, t.executor, later.executor);
      }
    }
  }

  /** The j-th call is the last one that sets the key delay; or the mode. */
  ghost predicate LastDelay(attempts: seq<Attempt>, j: nat) {
    && j < |attempts| && SetsDelay(attempts[j].action)
    && forall i :: j < i < |attempts| ==> !SetsDelay(attempts[i].action)
  }

  predicate SetsDelay(a: Action) {
    a.Delay? && a.setExecDelay
  }

  ghost predicate LastMode(attempts: seq<Attempt>, j: nat) {
    && j < |attempts| && attempts[j].action.SetMode?
    && forall i :: j < i < |attempts| ==> !attempts[i].action.SetMode?
  }

  /** Calls that set no key delay leave it alone. */
  lemma {:induction false} DelayStays(attempts: seq<Attempt>, first: ExecutorState, last: ExecutorState)
    requires Threaded(attempts, first, last)
    requires forall j :: 0 <= j < |attempts| ==> !SetsDelay(attempts[j].action)
    ensures last.execDelayMs == first.execDelayMs
  {
    if attempts != [] {
      assert !SetsDelay(attempts[0].action);
      DelayStays(attempts[1..], AfterAction(first, attempts[0].action), last);
    }
  }

  /** After any calls the key delay is the one that was set last. */
  lemma {:induction false} LastDelayWins(attempts: seq<Attempt>, j: nat, first: ExecutorState, last: ExecutorState)
    requires Threaded(attempts, first, last) && LastDelay(attempts, j)
    ensures last.execDelayMs == attempts[j].action.delayMs
  {
    var later := attempts[1..];
    assert forall i :: 0 <= i < |later| ==> later[i] == attempts[i + 1];
    if j == 0 {
      DelayStays(later, AfterAction(first, attempts[0].action), last);
    } else {
      LastDelayWins(later, j - 1, AfterAction(first, attempts[0].action), last);
    }
  }

  /** Calls that set no mode leave it alone. */
  lemma {:induction false} ModeStays(attempts: seq<Attempt>, first: ExecutorState, last: ExecutorState)
    requires Threaded(attempts, first, last)
    requires forall j :: 0 <= j < |attempts| ==> !attempts[j].action.SetMode?
    ensures last.mode == first.mode
  {
    if attempts != [] {
      assert !attempts[0].action.SetMode?;
      ModeStays(attempts[1..], AfterAction(first, attempts[0].action), last);
    }
  }

  /** After any calls the mode is the one that was set last. */
  lemma {:induction false} LastModeWins(attempts: seq<Attempt>, j: nat, first: ExecutorState, last: ExecutorState)
    requires Threaded(attempts, first, last) && LastMode(attempts, j)
    ensures last.mode == attempts[j].action.mode
  {
    var later := attempts[1..];
    assert forall i :: 0 <= i < |later| ==> later[i] == attempts[i + 1];
    if j == 0 {
      ModeStays(later, AfterAction(first, attempts[0].action), last);
    } else {
      LastModeWins(later, j - 1, AfterAction(first, attempts[0].action), last);
    }
  }

  /** At most five calls of exec and four retry waits for each action. */
  lemma {:induction false} EffortBound(actions: seq<Action>, i: nat, window: int, p: Platform, e: ExecutorState)
    requires i <= |actions|
    ensures var r := RunFrom(actions, i, window, p, e);
            && |r.attempts| <= 5 * (|actions| - i)
            && 100 * r.retryWaits <= 400 * (|actions| - i)
    decreases |actions| - i
  {
    if i < |actions| && p.activeWindow(i) == window {
      var t := TryFrom(actions[i], i, 1, p, e);
      TryShape(actions[i], i, 1, p, e);
      if t.done {
        EffortBound(actions, i + 1, window, p, t.executor);
      }
    }
  }

  /** A run completes exactly if the window never changes and every action succeeds in time. */
  lemma {:induction false} CompletesIff(actions: seq<Action>, i: nat, window: int, p: Platform, e: ExecutorState)
    requires i <= |actions|
    ensures RunFrom(actions, i, window, p, e).completed == |actions|
       <==> forall j :: i <= j < |actions| ==> p.activeWindow(j) == window && Succeeds(actions[j], j, 1, p)
    decreases |actions| - i
  {
    if i < |actions| {
      TryDoneIff(actions[i], i, 1, p, e);
      if p.activeWindow(i) == window {
        CompletesIff(actions, i + 1, window, p, TryFrom(actions[i], i, 1, p, e).executor);
      }
    }
  }

  // ---------------------------------------------------------------------
  // Runs do not leak into each other
  // ---------------------------------------------------------------------

  /** Two lists of attempts that differ at most in the executor they found. */
  ghost predicate SameAttempts(a: seq<Attempt>, b: seq<Attempt>) {
    |a| == |b| && forall j :: 0 <= j < |a| ==> a[j].action == b[j].action && a[j].result == b[j].result
  }

  lemma SameConcat(a: seq<Attempt>, a': seq<Attempt>, b: seq<Attempt>, b': seq<Attempt>)
    requires SameAttempts(a, a') && SameAttempts(b, b')
    ensures SameAttempts(a + b, a' + b')
  {
  }

  /** The platform's answers, not the executor, decide how an action fares. */
  lemma {:induction false} TriesAlike(a: Action, i: nat, k: nat, p: Platform, e: ExecutorState, e': ExecutorState)
    requires 1 <= k <= MAX_RETRIES
    ensures var t, t' := TryFrom(a, i, k, p, e), TryFrom(a, i, k, p, e');
            SameAttempts(t.attempts, t'.attempts) && t.done == t'.done && t.retryWaits == t'.retryWaits
    decreases MAX_RETRIES - k
  {
    var result := ResultOf(a, p.answer(i, k));
    if result.Retry? && k < MAX_RETRIES {
      TriesAlike(a, i, k + 1, p, AfterAction(e, a), AfterAction(e', a));
      SameConcat([Attempt(a, e, result)], [Attempt(a, e', result)],
                 TryFrom(a, i, k + 1, p, AfterAction(e, a)).attempts,
                 TryFrom(a, i, k + 1, p, AfterAction(e', a)).attempts);
    }
  }

  /** An action that the platform decides about leaves the executor alone; any other
      action needs one try. */
  lemma {:induction false} TryExecutor(a: Action, i: nat, k: nat, p: Platform, e: ExecutorState)
    requires 1 <= k <= MAX_RETRIES
    ensures TryFrom(a, i, k, p, e).executor == AfterAction(e, a)
    decreases MAX_RETRIES - k
  {
    if ResultOf(a, p.answer(i, k)).Retry? && k < MAX_RETRIES {
      TryExecutor(a, i, k + 1, p, AfterAction(e, a));
    }
  }

  /** How a compiled list begins. */
  ghost predicate BeginsWithDelay(actions: seq<Action>) {
    |actions| >= 2 && actions[0] == Begin && actions[1].Delay? && actions[1].setExecDelay
  }

  /** What a run does behind its first two actions, and what it leaves behind, is the same
      whatever an earlier run has left in the executor. The mode is overwritten when a run
      starts, the key delay by its second action. */
  lemma RunsDoNotLeak(actions: seq<Action>, window: int, p: Platform, mode: Mode, e: ExecutorState, e': ExecutorState)
    requires BeginsWithDelay(actions)
    ensures var r := RunFrom(actions, 0, window, p, e.(mode := mode));
            var r' := RunFrom(actions, 0, window, p, e'.(mode := mode));
            && SameAttempts(r.attempts, r'.attempts)
            && r.completed == r'.completed && r.retryWaits == r'.retryWaits
            && (r.completed >= 2 ==>
                  && r.executor == r'.executor
                  && exists n :: 0 < n <= |r.attempts| && n <= MAX_RETRIES + 1 &&
                       r.attempts[n - 1].action == actions[1] && r.attempts[n..] == r'.attempts[n..])
  {
    var s, s' := e.(mode := mode), e'.(mode := mode);
    RunsAlike(actions, 0, window, p, s, s');
    var r, r' := RunFrom(actions, 0, window, p, s), RunFrom(actions, 0, window, p, s');
    if r.completed >= 2 {
      var n := LeaksEnd(actions, window, p, s, s');
    }
  }

  lemma {:induction false} RunsAlike(actions: seq<Action>, i: nat, window: int, p: Platform,
                                     e: ExecutorState, e': ExecutorState)
    requires i <= |actions|
    ensures var r, r' := RunFrom(actions, i, window, p, e), RunFrom(actions, i, window, p, e');
            && SameAttempts(r.attempts, r'.attempts)
            && r.completed == r'.completed && r.retryWaits == r'.retryWaits
    decreases |actions| - i
  {
    if i < |actions| && p.activeWindow(i) == window {
      var t, t' := TryFrom(actions[i], i, 1, p, e), TryFrom(actions[i], i, 1, p, e');
      TriesAlike(actions[i], i, 1, p, e, e');
      if t.done {
        RunsAlike(actions, i + 1, window, p, t.executor, t'.executor);
        SameConcat(t.attempts, t'.attempts, RunFrom(actions, i + 1, window, p, t.executor).attempts,
                   RunFrom(actions, i + 1, window, p, t'.executor).attempts);
      }
    }
  }

  /** Where the second action has been done, the two runs become one. */
  lemma LeaksEnd(actions: seq<Action>, window: int, p: Platform, e: ExecutorState, e': ExecutorState) returns (n: nat)
    requires BeginsWithDelay(actions)
    requires e.mode == e'.mode
    requires RunFrom(actions, 0, window, p, e).completed >= 2
    ensures var r, r' := RunFrom(actions, 0, window, p, e), RunFrom(actions, 0, window, p, e');
            && r.executor == r'.executor
            && |r.attempts| == |r'.attempts|
            && 0 < n <= |r.attempts| && n <= MAX_RETRIES + 1
            && r.attempts[n - 1].action == actions[1]
            && r.attempts[n..] == r'.attempts[n..]
  {
    var t, t' := TryFrom(actions[0], 0, 1, p, e), TryFrom(actions[0], 0, 1, p, e');
    TriesAlike(actions[0], 0, 1, p, e, e');
    TryShape(actions[0], 0, 1, p, e);
    TryExecutor(actions[0], 0, 1, p, e);
    TryExecutor(actions[0], 0, 1, p, e');
    n := |t.attempts| + 1;
    SecondAction(actions, window, p, e);
    SecondAction(actions, window, p, e');
    var later := RunFrom(actions, 2, window, p, AfterAction(e, actions[1]));
    assert (t.attempts + ([Attempt(actions[1], e, Ok)] + later.attempts))[n..] == later.attempts;
    assert (t'.attempts + ([Attempt(actions[1], e', Ok)] + later.attempts))[n..] == later.attempts;
  }

  lemma SecondAction(actions: seq<Action>, window: int, p: Platform, e: ExecutorState)
    requires BeginsWithDelay(actions)
    requires p.activeWindow(0) == p.activeWindow(1) == window
    requires TryFrom(actions[0], 0, 1, p, e).done
    ensures var r := RunFrom(actions, 0, window, p, e);
            var later := RunFrom(actions, 2, window, p, AfterAction(e, actions[1]));
            && r.attempts == TryFrom(actions[0], 0, 1, p, e).attempts + ([Attempt(actions[1], e, Ok)] + later.attempts)
            && r.executor == later.executor
  {
    TryExecutor(actions[0], 0, 1, p, e);
    assert TryFrom(actions[1], 1, 1, p, e) == Tried([Attempt(actions[1], e, Ok)], AfterAction(e, actions[1]), true, 0);
  }
}
