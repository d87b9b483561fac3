/** The remembered-branch protocol of the release tool: every checkout goes through one
    function that records where the first of them started, and the clean-up goes back there. */
module BranchCheckout {

  datatype Head = OnBranch(name: string) | Detached(commit: string)

  datatype Repository = Repository(head: Head, branches: set<string>)

  /** _GIT_ORIG_BRANCH_CWD */
  datatype Origin = Unset | Recorded(branch: string, cwd: string)

  /** The repositories by their directory, and the module's global. */
  datatype State = State(repositories: map<string, Repository>, origin: Origin)

  /** What the two git commands of one call do: whether rev-parse and checkout exit with zero,
      and the commit that the reference stands for if it is not a branch. */
  datatype Git = Git(revParse: bool, checkout: bool, commit: string)

  datatype Event = Checkout(ref: string, cwd: string, git: Git) | Cleanup(git: Git)

  // Git refuses a branch of this name.
  const HEAD: string := "HEAD"

  ghost predicate Sound(r: Repository) {
    HEAD !in r.branches && (r.head.OnBranch? ==> r.head.name in r.branches)
  }

  ghost predicate Valid(s: State) {
    forall cwd :: cwd in s.repositories ==> Sound(s.repositories[cwd])
  }

  /** git rev-parse --abbrev-ref HEAD */
  function Abbreviated(head: Head): string {
    if head.OnBranch? then head.name else HEAD
  }

  /** git checkout: to a branch of that name, else to the commit; HEAD stays where it is. */
  function Switched(r: Repository, ref: string, commit: string): Repository {
    if ref == HEAD then r
    else r.(head := if ref in r.branches then OnBranch(ref) else Detached(commit))
  }

  function AfterRecording(s: State, cwd: string, git: Git): State {
    if s.origin.Unset? && cwd in s.repositories && git.revParse then
      s.(origin := Recorded(Abbreviated(s.repositories[cwd].head), cwd))
    else s
  }

  predicate Succeeds(s: State, cwd: string, git: Git) {
    cwd in s.repositories && (s.origin.Unset? ==> git.revParse) && git.checkout
  }

  function AfterCheckout(s: State, ref: string, cwd: string, git: Git): State {
    var recorded := AfterRecording(s, cwd, git);
    if Succeeds(s, cwd, git) then
      recorded.(repositories := s.repositories[cwd := Switched(s.repositories[cwd], ref, git.commit)])
    else recorded
  }

  function AfterCleanup(s: State, git: Git): State {
    if s.origin.Unset? then s else AfterCheckout(s, s.origin.branch, s.origin.cwd, git)
  }

  predicate CleanupSucceeds(s: State, git: Git) {
    s.origin.Unset? || Succeeds(s, s.origin.cwd, git)
  }

  class ReleaseTool {
    var repositories: map<string, Repository>
    var origin: Origin

    ghost function Abs(): State
      reads this
    {
      State(repositories, origin)
    }

    constructor (repositories: map<string, Repository>)
      ensures Abs() == State(repositories, Unset)
    {
      this.repositories := repositories;
      origin := Unset;
    }

    /** _git_get_branch */
    method GetBranch(cwd: string, git: Git) returns (ok: bool, branch: string)
      ensures ok == (cwd in repositories && git.revParse)
      ensures ok ==> branch == Abbreviated(repositories[cwd].head)
    {
      ok, branch := cwd in repositories && git.revParse, [];
      if ok {
        branch := Abbreviated(repositories[cwd].head);
      }
    }

    /** _git_checkout; ok is false if it raises an Error */
    method GitCheckout(ref: string, cwd: string, git: Git) returns (ok: bool)
      modifies this
      ensures Abs() == AfterCheckout(old(Abs()), ref, cwd, git)
      ensures ok == Succeeds(old(Abs()), cwd, git)
    {
      if origin.Unset? {
        var known, branch := GetBranch(cwd, git);
        if !known {
          return false;
        }
        origin := Recorded(branch, cwd);
      }
      if cwd !in repositories || !git.checkout {
        return false;
      }
      repositories := repositories[cwd := Switched(repositories[cwd], ref, git.commit)];
      return true;
    }

    /** _cleanup; the status is the one that the exit code is combined with */
    method CleanUp(git: Git) returns (status: int)
      modifies this
      ensures Abs() == AfterCleanup(old(Abs()), git)
      ensures status == if CleanupSucceeds(old(Abs()), git) then 0 else 1
    {
      if !origin.Unset? {
        var ok := GitCheckout(origin.branch, origin.cwd, git);
        if !ok {
          return 1;
        }
      }
      return 0;
    }
  }

  // ---------------------------------------------------------------------
  // Runs
  // ---------------------------------------------------------------------

  function Step(s: State, e: Event): State {
    match e
    case Checkout(ref, cwd, git) => AfterCheckout(s, ref, cwd, git)
    case Cleanup(git) => AfterCleanup(s, git)
  }

  function Run(s: State, es: seq<Event>): State
    decreases |es|
  {
    if es == [] then s else Run(Step(s, es[0]), es[1..])
  }

  function HeadOf(s: State, cwd: string): Head
    requires cwd in s.repositories
  {
    s.repositories[cwd].head
  }

  ghost predicate SameRepositories(s: State, t: State) {
    && t.repositories.Keys == s.repositories.Keys
    && forall cwd :: cwd in s.repositories ==> t.repositories[cwd].branches == s.repositories[cwd].branches
  }

  /** What holds after any run from a state in which nothing is recorded: until something is
      recorded nothing has moved, and what is recorded is where the run started. */
  ghost predicate Remembers(start: State, s: State) {
    && Valid(s) && SameRepositories(start, s)
    && (s.origin.Unset? ==> s.repositories == start.repositories)
    && (s.origin.Recorded? ==>
          && s.origin.cwd in start.repositories
          && s.origin.branch == Abbreviated(HeadOf(start, s.origin.cwd)))
  }

  lemma SwitchedIsSound(r: Repository, ref: string, commit: string)
    requires Sound(r)
    ensures Sound(Switched(r, ref, commit)) && Switched(r, ref, commit).branches == r.branches
  {
  }

  lemma CheckoutRemembers(start: State, s: State, ref: string, cwd: string, git: Git)
    requires Remembers(start, s)
    ensures Remembers(start, AfterCheckout(s, ref, cwd, git))
  {
    if cwd in s.repositories {
      SwitchedIsSound(s.repositories[cwd], ref, git.commit);
    }
  }

  lemma {:induction false} RunRemembers(start: State, s: State, es: seq<Event>)
    requires Remembers(start, s)
    ensures Remembers(start, Run(s, es))
    decreases |es|
  {
    if es != [] {
      match es[0] {
        case Checkout(ref, cwd, git) => CheckoutRemembers(start, s, ref, cwd, git);
        case Cleanup(git) =>
          if !s.origin.Unset? {
            CheckoutRemembers(start, s, s.origin.branch, s.origin.cwd, git);
          }
      }
      RunRemembers(start, Step(s, es[0]), es[1..]);
    }
  }

  /** The global is written at most once, whatever checkouts and clean-ups follow. */
  lemma {:induction false} RecordedOnce(s: State, es: seq<Event>)
    requires s.origin.Recorded?
    ensures Run(s, es).origin == s.origin
    decreases |es|
  {
    if es != [] {
      RecordedOnce(Step(s, es[0]), es[1..]);
    }
  }

  /** Whatever succeeds or fails, what is recorded is the branch that was checked out at the
      start of the run; while nothing is recorded nothing has changed. */
  lemma RecordsTheStart(start: State, es: seq<Event>)
    requires Valid(start) && start.origin.Unset?
    ensures var s := Run(start, es);
            && (s.origin.Unset? ==> s == start)
            && (s.origin.Recorded? ==>
                  && s.origin.cwd in start.repositories
                  && s.origin.branch == (if HeadOf(start, s.origin.cwd).OnBranch?
                                         then HeadOf(start, s.origin.cwd).name else "HEAD"))
  {
    RunRemembers(start, start, es);
  }

  /** A call that can name the branch of its repository. */
  predicate CanRecord(start: State, e: Event) {
    e.Checkout? && e.cwd in start.repositories && e.git.revParse
  }

  ghost predicate SomeCanRecord(start: State, es: seq<Event>) {
    exists k :: 0 <= k < |es| && CanRecord(start, es[k])
  }

  lemma SomeCons(start: State, es: seq<Event>)
    requires es != []
    ensures SomeCanRecord(start, es) <==> CanRecord(start, es[0]) || SomeCanRecord(start, es[1..])
  {
    if k :| 0 <= k < |es[1..]| && CanRecord(start, es[1..][k]) {
      assert CanRecord(start, es[k + 1]);
    }
    if k :| 0 < k < |es| && CanRecord(start, es[k]) {
      assert CanRecord(start, es[1..][k - 1]);
    }
  }

  lemma NothingRecorded(start: State, s: State, e: Event)
    requires SameRepositories(start, s) && s.origin.Unset?
    ensures CanRecord(start, e) ==> Step(s, e).origin.Recorded? && Step(s, e).origin.cwd == e.cwd
    ensures !CanRecord(start, e) ==> Step(s, e) == s
  {
  }

  /** Something is recorded exactly if some call of the run could name the branch; it is the
      repository of the first such call. */
  lemma {:induction false} RecordedIff(start: State, s: State, es: seq<Event>)
    requires SameRepositories(start, s) && s.origin.Unset?
    ensures Run(s, es).origin.Recorded? <==> SomeCanRecord(start, es)
    ensures forall k :: 0 <= k < |es| && CanRecord(start, es[k]) && !SomeCanRecord(start, es[..k]) ==>
              Run(s, es).origin.cwd == es[k].cwd
    decreases |es|
  {
    if es != [] {
      NothingRecorded(start, s, es[0]);
      SomeCons(start, es);
      if CanRecord(start, es[0]) {
        RecordedOnce(Step(s, es[0]), es[1..]);
        forall k | 0 < k < |es|
          ensures SomeCanRecord(start, es[..k])
        {
          assert es[..k][0] == es[0];
        }
      } else {
        RecordedIff(start, s, es[1..]);
        forall k | 0 < k < |es| && CanRecord(start, es[k]) && !SomeCanRecord(start, es[..k])
          ensures Run(s, es).origin.cwd == es[k].cwd
        {
          assert es[..k][1..] == es[1..][..k - 1];
          SomeCons(start, es[..k]);
          assert es[1..][k - 1] == es[k];
        }
      }
    }
  }

  /** What a checkout does after any run. It succeeds exactly if git performs it and the branch could
      be named, now or before. Then HEAD is on the branch of that name, or at the commit if there is
      no such branch, or where it was if the name is HEAD; else nothing moves. The other
      repositories stay as they were. */
  lemma CheckoutMoves(start: State, es: seq<Event>, ref: string, cwd: string, git: Git)
    requires Valid(start) && start.origin.Unset? && cwd in start.repositories
    ensures var before := Run(start, es);
            var after := Step(before, Checkout(ref, cwd, git));
            var ok := git.checkout && (git.revParse || SomeCanRecord(start, es));
            && (Succeeds(before, cwd, git) <==> ok)
            && after.repositories.Keys == before.repositories.Keys == start.repositories.Keys
            && HeadOf(after, cwd) == (if !ok || ref == "HEAD" then HeadOf(before, cwd)
                                      else if ref in start.repositories[cwd].branches then OnBranch(ref)
                                      else Detached(git.commit))
            && forall other :: other in start.repositories && other != cwd ==>
                 after.repositories[other] == before.repositories[other]
  {
    RunRemembers(start, start, es);
    RecordedIff(start, start, es);
  }

  // ---------------------------------------------------------------------
  // Restoration
  // ---------------------------------------------------------------------

  /** One clean-up after any run: the repository that was recorded is back where it started
      exactly if it never left, or the clean-up's own checkout succeeds and the start was a
      branch. The other repositories stay where the run left them. */
  lemma CleanupRestoresIff(start: State, es: seq<Event>, git: Git)
    requires Valid(start) && start.origin.Unset?
    ensures var before, after := Run(start, es), AfterCleanup(Run(start, es), git);
            && after.origin == before.origin
            && after.repositories.Keys == start.repositories.Keys == before.repositories.Keys
            && (before.origin.Unset? ==> after == start)
            && (CleanupSucceeds(before, git) <==> before.origin.Unset? || git.checkout)
            && forall cwd :: cwd in start.repositories ==>
                 (HeadOf(after, cwd) == HeadOf(start, cwd) <==>
                    || HeadOf(before, cwd) == HeadOf(start, cwd)
                    || (&& before.origin.Recorded? && before.origin.cwd == cwd
                        && HeadOf(start, cwd).OnBranch? && git.checkout))
  {
    RunRemembers(start, start, es);
    var before := Run(start, es);
    if before.origin.Recorded? {
      BranchesStayNamed(start, before, before.origin.cwd);
    }
  }

  /** The recorded name is still that of a branch, or HEAD. */
  lemma BranchesStayNamed(start: State, s: State, cwd: string)
    requires Valid(start) && Remembers(start, s) && cwd in start.repositories
    ensures cwd in s.repositories
    ensures HeadOf(start, cwd).OnBranch? ==>
              HeadOf(start, cwd).name != HEAD && HeadOf(start, cwd).name in s.repositories[cwd].branches
  {
    assert Sound(start.repositories[cwd]);
  }

  ghost predicate Within(es: seq<Event>, cwd: string) {
    forall k :: 0 <= k < |es| && es[k].Checkout? ==> es[k].cwd == cwd
  }

  lemma {:induction false} OthersStay(s: State, es: seq<Event>, cwd: string)
    requires Within(es, cwd) && (s.origin.Recorded? ==> s.origin.cwd == cwd)
    ensures Run(s, es).repositories - {cwd} == s.repositories - {cwd}
    ensures Run(s, es).origin.Recorded? ==> Run(s, es).origin.cwd == cwd
    decreases |es|
  {
    if es != [] {
      var t := Step(s, es[0]);
      assert t.repositories - {cwd} == s.repositories - {cwd};
      assert Within(es[1..], cwd) by {
        forall k | 0 <= k < |es[1..]| && es[1..][k].Checkout?
          ensures es[1..][k].cwd == cwd
        {
          assert es[1..][k] == es[k + 1];
        }
      }
      OthersStay(t, es[1..], cwd);
    }
  }

  /** A run within one repository that starts on a branch: after a clean-up that returns 0
      every repository has the HEAD it had at the start. */
  lemma CleanupRestores(start: State, es: seq<Event>, cwd: string, git: Git)
    requires Valid(start) && start.origin.Unset?
    requires cwd in start.repositories && HeadOf(start, cwd).OnBranch? && Within(es, cwd)
    requires CleanupSucceeds(Run(start, es), git)
    ensures AfterCleanup(Run(start, es), git).repositories == start.repositories
  {
    var before := Run(start, es);
    var after := AfterCleanup(before, git);
    RunRemembers(start, start, es);
    OthersStay(start, es, cwd);
    CleanupRestoresIff(start, es, git);
    if before.origin.Recorded? {
      BranchesStayNamed(start, before, cwd);
      forall c | c in start.repositories
        ensures after.repositories[c] == start.repositories[c]
      {
        if c != cwd {
          assert c in start.repositories - {cwd};
          assert before.repositories[c] == start.repositories[c];
        }
      }
    }
  }

  /** The signal handler cleans up and then the finally block does: once a clean-up has
      returned 0, another one changes nothing, whether or not git lets it. */
  lemma SecondCleanupChangesNothing(start: State, es: seq<Event>, first: Git, second: Git)
    requires Valid(start) && start.origin.Unset?
    requires CleanupSucceeds(Run(start, es), first)
    ensures var once := AfterCleanup(Run(start, es), first);
            AfterCleanup(once, second) == once
  {
    RunRemembers(start, start, es);
    var before := Run(start, es);
    var once := AfterCleanup(before, first);
    if before.origin.Recorded? {
      BranchesStayNamed(start, before, before.origin.cwd);
      var cwd := before.origin.cwd;
      assert Switched(once.repositories[cwd], before.origin.branch, second.commit) == once.repositories[cwd];
      assert once.repositories[cwd := once.repositories[cwd]] == once.repositories;
    }
  }

  /** Two clean-ups, the first of which fails: the second makes up for it. */
  lemma EitherCleanupRestores(start: State, es: seq<Event>, first: Git, second: Git)
    requires Valid(start) && start.origin.Unset?
    ensures var before := Run(start, es);
            var after := AfterCleanup(AfterCleanup(before, first), second);
            before.origin.Recorded? ==>
              && before.origin.cwd in start.repositories && before.origin.cwd in before.repositories
              && before.origin.cwd in after.repositories
              && (HeadOf(after, before.origin.cwd) == HeadOf(start, before.origin.cwd) <==>
                    || HeadOf(before, before.origin.cwd) == HeadOf(start, before.origin.cwd)
                    || (&& HeadOf(start, before.origin.cwd).OnBranch?
                        && (CleanupSucceeds(before, first) || CleanupSucceeds(AfterCleanup(before, first), second))))
  {
    RunRemembers(start, start, es);
    var before := Run(start, es);
    if before.origin.Recorded? {
      BranchesStayNamed(start, before, before.origin.cwd);
    }
  }

  /** The two ways in which a run in one repository does not end where it started: a clean-up
      whose own checkout fails, and a detached start even if the clean-up succeeds. */
  lemma RestorationCanFail(cwd: string, commit: string)
    ensures var start := State(map[cwd := Repository(OnBranch("develop"), {"develop"})], Unset);
            var away := Checkout("2.7.10", cwd, Git(true, true, commit));
            && Valid(start)
            && AfterCleanup(Run(start, [away]), Git(true, false, [])).repositories
               == map[cwd := Repository(Detached(commit), {"develop"})]
    ensures var start := State(map[cwd := Repository(Detached(commit), {"develop"})], Unset);
            var away := Checkout("develop", cwd, Git(true, true, []));
            && Valid(start) && CleanupSucceeds(Run(start, [away]), Git(true, true, []))
            && AfterCleanup(Run(start, [away]), Git(true, true, [])).repositories
               == map[cwd := Repository(OnBranch("develop"), {"develop"})]
  {
    assert [Checkout("2.7.10", cwd, Git(true, true, commit))][1..] == [];
    assert [Checkout("develop", cwd, Git(true, true, []))][1..] == [];
    assert |"2.7.10"| == 6 && |"develop"| == 7 && |HEAD| == 4;
  }
}
