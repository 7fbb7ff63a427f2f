/**
 * Building the key locator once (src/core/locator.rs, `key_locator`): a write-once cell read without a lock, a build
 * mutex, and a second look at the cell under it, as interleaved steps of any number of threads.
 */
module SingleFlight {
  import opened KeyBlocks
  import opened Wrappers

  /** What a call ends with: a locator, identified by the build that made it, or an error. */
  datatype Outcome = Success(build: nat) | Failure(error: Error)

  /** Where a caller stands. */
  datatype Thread =
    | Idle
    /** Before the first look at the cell. */
    | Looking
    | Waiting
    /** Holding the mutex, before the second look. */
    | Locked
    | Building
    /** The build has ended; the cell is not set yet. */
    | Publishing(outcome: Outcome)
    /** About to release the mutex and return. */
    | Releasing(outcome: Outcome)

  datatype State = State(
    cell: Option<Outcome>,
    holder: Option<nat>,
    threads: seq<Thread>,
    builds: nat,
    /** What calls have returned, oldest first. */
    returned: seq<Outcome>)

  datatype Action = Call | FirstLook | Lock | SecondLook | BuildOk | BuildFail(error: Error) | Publish(captured: bool) | Release

  predicate InCriticalSection(t: Thread) {
    t.Locked? || t.Building? || t.Publishing? || t.Releasing?
  }

  ghost predicate Enabled(s: State, i: nat, a: Action) {
    i < |s.threads| &&
    match a
    case Call => s.threads[i].Idle?
    case FirstLook => s.threads[i].Looking?
    case Lock => s.threads[i].Waiting? && s.holder == None
    case SecondLook => s.threads[i].Locked?
    case BuildOk => s.threads[i].Building?
    case BuildFail(error) => s.threads[i].Building?
    case Publish(captured) => s.threads[i].Publishing? && (captured ==> PublishedOutcome(s.threads[i].outcome))
                              && (AlwaysPublished(s.threads[i].outcome) ==> captured)
    case Release => s.threads[i].Releasing?
  }

  /** A success is always published, a failure only if it is deterministic. */
  predicate PublishedOutcome(outcome: Outcome) {
    outcome.Failure? ==> Capturable(outcome.error)
  }

  /** Only a failure whose message must be copied may find no memory to be kept in. */
  predicate AlwaysPublished(outcome: Outcome) {
    outcome.Failure? ==> AlwaysCaptured(outcome.error)
  }

  function WithThread(s: State, i: nat, t: Thread): State
    requires i < |s.threads|
  {
    s.(threads := s.threads[i := t])
  }

  /** The cell can be set once; later attempts are ignored. */
  function SetOnce(cell: Option<Outcome>, outcome: Outcome): Option<Outcome> {
    if cell == None then Some(outcome) else cell
  }

  ghost function Apply(s: State, i: nat, a: Action): State
    requires Enabled(s, i, a)
  {
    match a
    case Call => WithThread(s, i, Looking)
    case FirstLook =>
      if s.cell.Some? then WithThread(s, i, Idle).(returned := s.returned + [s.cell.value])
      else WithThread(s, i, Waiting)
    case Lock => WithThread(s, i, Locked).(holder := Some(i))
    case SecondLook =>
      if s.cell.Some? then WithThread(s, i, Releasing(s.cell.value)) else WithThread(s, i, Building)
    case BuildOk => WithThread(s, i, Publishing(Success(s.builds))).(builds := s.builds + 1)
    case BuildFail(error) => WithThread(s, i, Publishing(Failure(error)))
    case Publish(captured) =>
      WithThread(s, i, Releasing(s.threads[i].outcome)).(cell :=
        if captured then SetOnce(s.cell, s.threads[i].outcome) else s.cell)
    case Release =>
      WithThread(s, i, Idle).(holder := None, returned := s.returned + [s.threads[i].outcome])
  }

  ghost predicate Step(s: State, i: nat, a: Action, s': State) {
    Enabled(s, i, a) && s' == Apply(s, i, a)
  }

  // ----- the invariant -----

  /** Only the holder of the mutex is past the lock. */
  ghost predicate Exclusive(s: State) {
    && (forall i | 0 <= i < |s.threads| && InCriticalSection(s.threads[i]) :: s.holder == Some(i))
    && (s.holder.Some? ==> s.holder.value < |s.threads| && InCriticalSection(s.threads[s.holder.value]))
  }

  /** Whoever builds or is about to publish does so while the cell is still empty. */
  ghost predicate BuildsFirst(s: State) {
    forall i | 0 <= i < |s.threads| && (s.threads[i].Building? || s.threads[i].Publishing?) :: s.cell == None
  }

  /** Every locator handed out, or about to be, is the published one; published failures are deterministic. */
  ghost predicate OneLocator(s: State) {
    && (forall k | 0 <= k < |s.returned| && s.returned[k].Success? :: s.cell == Some(s.returned[k]))
    && (forall i | 0 <= i < |s.threads| && s.threads[i].Releasing? && s.threads[i].outcome.Success? ::
          s.cell == Some(s.threads[i].outcome))
    && (s.cell.Some? ==> PublishedOutcome(s.cell.value))
  }

  /** Whoever is about to return carries this outcome. */
  ghost predicate Carries(s: State, outcome: Outcome) {
    forall i | 0 <= i < |s.threads| && s.threads[i].Releasing? :: s.threads[i].outcome == outcome
  }

  /** Once an outcome is published, nobody is about to return another one. */
  ghost predicate CellIsCarried(s: State) {
    s.cell.Some? ==> Carries(s, s.cell.value)
  }

  ghost predicate HasSucceeded(s: State) {
    (s.cell.Some? && s.cell.value.Success?) ||
    exists i :: 0 <= i < |s.threads| && s.threads[i].Publishing? && s.threads[i].outcome.Success?
  }

  /** The build that succeeded was the only one to. */
  ghost predicate OneSuccess(s: State) {
    s.builds <= 1 && (s.builds == 1 ==> HasSucceeded(s))
  }

  ghost predicate Inv(s: State) {
    Exclusive(s) && BuildsFirst(s) && OneLocator(s) && OneSuccess(s) && CellIsCarried(s)
  }

  ghost predicate Initial(s: State) {
    && s.cell == None && s.holder == None && s.builds == 0 && s.returned == []
    && forall i | 0 <= i < |s.threads| :: s.threads[i].Idle?
  }

  lemma StepKeepsExclusive(s: State, i: nat, a: Action, s': State)
    requires Inv(s) && Step(s, i, a, s')
    ensures Exclusive(s')
  {
  }

  lemma StepKeepsBuildsFirst(s: State, i: nat, a: Action, s': State)
    requires Inv(s) && Step(s, i, a, s')
    ensures BuildsFirst(s')
  {
    forall k | 0 <= k < |s'.threads| && (s'.threads[k].Building? || s'.threads[k].Publishing?)
      ensures s'.cell == None
    {
      if k != i {
        assert s.threads[k] == s'.threads[k];
        assert s.holder == Some(k);
      }
    }
  }

  lemma StepKeepsOneLocator(s: State, i: nat, a: Action, s': State)
    requires Inv(s) && Step(s, i, a, s')
    ensures OneLocator(s')
  {
    if s.cell.Some? {
      assert s'.cell == s.cell;
    }
  }

  lemma StepKeepsOneSuccess(s: State, i: nat, a: Action, s': State)
    requires Inv(s) && Step(s, i, a, s')
    ensures OneSuccess(s')
  {
    if s.builds == 1 && s.cell == None {
      var k :| 0 <= k < |s.threads| && s.threads[k].Publishing? && s.threads[k].outcome.Success?;
      assert s.holder == Some(k);
      if k != i {
        assert s'.threads[k] == s.threads[k];
      }
    }
    if a.BuildOk? {
      assert s.holder == Some(i);
      assert s'.threads[i].Publishing?;
    }
  }

  lemma StepKeepsCellCarried(s: State, i: nat, a: Action, s': State)
    requires Inv(s) && Step(s, i, a, s')
    ensures CellIsCarried(s')
  {
  }

  lemma StepKeepsInv(s: State, i: nat, a: Action, s': State)
    requires Inv(s) && Step(s, i, a, s')
    ensures Inv(s')
    ensures s.cell.Some? ==> s'.cell == s.cell
    ensures s.returned <= s'.returned
  {
    StepKeepsExclusive(s, i, a, s');
    StepKeepsBuildsFirst(s, i, a, s');
    StepKeepsOneLocator(s, i, a, s');
    StepKeepsOneSuccess(s, i, a, s');
    StepKeepsCellCarried(s, i, a, s');
  }

  // ----- whole runs -----

  ghost predicate Follows(s: State, s': State) {
    exists i: nat, a: Action :: Step(s, i, a, s')
  }

  /** Any interleaving of any number of callers. */
  ghost predicate IsRun(run: seq<State>) {
    && run != [] && Initial(run[0])
    && forall k | 0 <= k < |run| - 1 :: Follows(run[k], run[k + 1])
  }

  lemma {:induction false} RunKeepsInv(run: seq<State>, k: nat)
    requires IsRun(run) && k < |run|
    ensures Inv(run[k])
  {
    if k > 0 {
      RunKeepsInv(run, k - 1);
      assert Follows(run[k - 1], run[k]);
      var i: nat, a: Action :| Step(run[k - 1], i, a, run[k]);
      StepKeepsInv(run[k - 1], i, a, run[k]);
    }
  }

  /** At most one thread builds at a time. */
  lemma OneBuilder(run: seq<State>, k: nat, i: nat, j: nat)
    requires IsRun(run) && k < |run| && i < |run[k].threads| && j < |run[k].threads|
    requires run[k].threads[i].Building? && run[k].threads[j].Building?
    ensures i == j
  {
    RunKeepsInv(run, k);
  }

  /** What is published never changes. */
  lemma {:induction false} PublishedForever(run: seq<State>, j: nat, k: nat)
    requires IsRun(run) && j <= k < |run| && run[j].cell.Some?
    ensures run[k].cell == run[j].cell
    decreases k
  {
    if j < k {
      PublishedForever(run, j, k - 1);
      RunKeepsInv(run, k - 1);
      assert Follows(run[k - 1], run[k]);
      var i: nat, a: Action :| Step(run[k - 1], i, a, run[k]);
      StepKeepsInv(run[k - 1], i, a, run[k]);
    }
  }

  /** All callers that get a locator get the same one, over the whole run. */
  lemma SameLocator(run: seq<State>, k: nat, x: nat, y: nat)
    requires IsRun(run) && k < |run| && x < |run[k].returned| && y < |run[k].returned|
    requires run[k].returned[x].Success? && run[k].returned[y].Success?
    ensures run[k].returned[x] == run[k].returned[y]
  {
    RunKeepsInv(run, k);
  }

  /** A failure becomes permanent only if it is deterministic, and no caller ever gets a locator then. */
  lemma PermanentFailures(run: seq<State>, k: nat)
    requires IsRun(run) && k < |run| && run[k].cell.Some? && run[k].cell.value.Failure?
    ensures Capturable(run[k].cell.value.error)
    ensures forall x | 0 <= x < |run[k].returned| :: run[k].returned[x].Failure?
  {
    RunKeepsInv(run, k);
  }

  lemma StepReturnsPublished(s: State, i: nat, a: Action, s': State, outcome: Outcome)
    requires Inv(s) && Step(s, i, a, s') && s.cell == Some(outcome)
    ensures s'.cell == Some(outcome)
    ensures s'.returned == s.returned || s'.returned == s.returned + [outcome]
  {
  }

  /** Once an outcome is published, every later call returns it. */
  lemma {:induction false} PublishedIsReturned(run: seq<State>, j: nat, k: nat, outcome: Outcome, x: nat)
    requires IsRun(run) && j <= k < |run| && run[j].cell == Some(outcome)
    ensures run[k].cell == Some(outcome)
    ensures |run[j].returned| <= x < |run[k].returned| ==> run[k].returned[x] == outcome
    decreases k
  {
    if j < k {
      PublishedIsReturned(run, j, k - 1, outcome, x);
      RunKeepsInv(run, k - 1);
      assert Follows(run[k - 1], run[k]);
      var i: nat, a: Action :| Step(run[k - 1], i, a, run[k]);
      StepReturnsPublished(run[k - 1], i, a, run[k], outcome);
    }
  }
}
