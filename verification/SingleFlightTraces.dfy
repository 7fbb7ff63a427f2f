/**
 * Runs of the single-flight locator with the steps they take (src/core/locator.rs, `key_locator`; src/core/mod.rs,
 * `CachedFailure::capture`): where every outcome comes from, which failures last, and when nothing is built any more.
 */
module SingleFlightTraces {
  import opened KeyBlocks
  import opened SingleFlight
  import opened Wrappers

  /** Thread `thread` takes a step. */
  datatype Event = Event(thread: nat, action: Action)

  /** The run takes exactly these steps. */
  ghost predicate IsTrace(run: seq<State>, events: seq<Event>) {
    && |run| == |events| + 1 && Initial(run[0])
    && forall k | 0 <= k < |events| :: Step(run[k], events[k].thread, events[k].action, run[k + 1])
  }

  lemma TraceIsRun(run: seq<State>, events: seq<Event>)
    requires IsTrace(run, events)
    ensures IsRun(run)
  {
    forall k | 0 <= k < |run| - 1
      ensures Follows(run[k], run[k + 1])
    {
      assert Step(run[k], events[k].thread, events[k].action, run[k + 1]);
    }
  }

  lemma {:induction false} RunHasTrace(run: seq<State>) returns (events: seq<Event>)
    requires IsRun(run)
    ensures IsTrace(run, events)
  {
    var last := |run| - 1;
    if last == 0 {
      events := [];
    } else {
      var before := run[..last];
      assert forall k | 0 <= k < last :: before[k] == run[k];
      assert IsRun(before) by {
        forall k | 0 <= k < |before| - 1
          ensures Follows(before[k], before[k + 1])
        {
          assert Follows(run[k], run[k + 1]);
        }
      }
      var earlier := RunHasTrace(before);
      assert Follows(run[last - 1], run[last - 1 + 1]);
      var i: nat, a: Action :| Step(run[last - 1], i, a, run[last]);
      events := earlier + [Event(i, a)];
    }
  }

  // ----- where outcomes come from -----

  /** Among the first `n` steps thread `thread` ended a build with this outcome. */
  ghost predicate EndedBuild(events: seq<Event>, n: nat, thread: nat, outcome: Outcome) {
    exists j: nat :: EndsBuildAt(events, n, j, thread, outcome)
  }

  ghost predicate EndsBuildAt(events: seq<Event>, n: nat, j: nat, thread: nat, outcome: Outcome) {
    j < n && j < |events| && events[j].thread == thread &&
    match outcome
    case Success(_) => events[j].action == BuildOk
    case Failure(error) => events[j].action == BuildFail(error)
  }

  /** Some build really ended with this outcome. */
  ghost predicate Happened(events: seq<Event>, n: nat, outcome: Outcome) {
    exists thread: nat :: EndedBuild(events, n, thread, outcome)
  }

  /** A thread about to publish does so for its own build; one about to return has its own outcome or the published one. */
  ghost predicate ThreadExplained(s: State, events: seq<Event>, n: nat, i: nat)
    requires i < |s.threads|
  {
    match s.threads[i]
    case Publishing(outcome) => EndedBuild(events, n, i, outcome)
    case Releasing(outcome) => EndedBuild(events, n, i, outcome) || s.cell == Some(outcome)
    case _ => true
  }

  ghost predicate Explained(s: State, events: seq<Event>, n: nat) {
    && (s.cell.Some? ==> Happened(events, n, s.cell.value))
    && (forall x | 0 <= x < |s.returned| :: Happened(events, n, s.returned[x]))
    && ThreadsExplained(s, events, n)
  }

  ghost predicate ThreadsExplained(s: State, events: seq<Event>, n: nat) {
    forall i | 0 <= i < |s.threads| :: ThreadExplained(s, events, n, i)
  }

  lemma StillEnded(events: seq<Event>, n: nat, thread: nat, outcome: Outcome)
    requires EndedBuild(events, n, thread, outcome)
    ensures EndedBuild(events, n + 1, thread, outcome)
  {
    var j: nat :| EndsBuildAt(events, n, j, thread, outcome);
    assert EndsBuildAt(events, n + 1, j, thread, outcome);
  }

  lemma StillHappened(events: seq<Event>, n: nat, outcome: Outcome)
    requires Happened(events, n, outcome)
    ensures Happened(events, n + 1, outcome)
  {
    var thread: nat :| EndedBuild(events, n, thread, outcome);
    StillEnded(events, n, thread, outcome);
  }

  lemma ThreadsStayExplained(s: State, events: seq<Event>, n: nat, s': State, n': nat)
    requires Inv(s) && n < |events| && Step(s, events[n].thread, events[n].action, s') && Explained(s, events, n)
    requires n' == n + 1
    ensures ThreadsExplained(s', events, n')
  {
    forall i | 0 <= i < |s'.threads|
      ensures ThreadExplained(s', events, n', i)
    {
      assert ThreadExplained(s, events, n, i);
      ThreadStaysExplained(s, events, n, s', i);
    }
  }

  lemma ThreadStaysExplained(s: State, events: seq<Event>, n: nat, s': State, i: nat)
    requires Inv(s) && n < |events| && Step(s, events[n].thread, events[n].action, s')
    requires i < |s'.threads| == |s.threads| && ThreadExplained(s, events, n, i)
    ensures ThreadExplained(s', events, n + 1, i)
  {
    var e := events[n];
    if i == e.thread {
      match e.action
      case BuildOk =>
        assert EndsBuildAt(events, n + 1, n, i, s'.threads[i].outcome);
      case BuildFail(error) =>
        assert EndsBuildAt(events, n + 1, n, i, s'.threads[i].outcome);
      case Publish(captured) =>
        StillEnded(events, n, i, s.threads[i].outcome);
      case _ =>
    } else {
      assert s'.threads[i] == s.threads[i];
      if (s.threads[i].Publishing? || s.threads[i].Releasing?) && EndedBuild(events, n, i, s.threads[i].outcome) {
        StillEnded(events, n, i, s.threads[i].outcome);
      }
    }
  }

  lemma StepKeepsExplained(s: State, events: seq<Event>, n: nat, s': State)
    requires Inv(s) && n < |events| && Step(s, events[n].thread, events[n].action, s') && Explained(s, events, n)
    ensures Explained(s', events, n + 1)
  {
    var i := events[n].thread;
    ThreadsStayExplained(s, events, n, s', n + 1);
    assert ThreadExplained(s, events, n, i);
    if (s.threads[i].Publishing? || s.threads[i].Releasing?) && EndedBuild(events, n, i, s.threads[i].outcome) {
      assert Happened(events, n, s.threads[i].outcome);
      StillHappened(events, n, s.threads[i].outcome);
    }
    if s.cell.Some? {
      StillHappened(events, n, s.cell.value);
    }
    forall x | 0 <= x < |s'.returned|
      ensures Happened(events, n + 1, s'.returned[x])
    {
      if x < |s.returned| {
        assert s'.returned[x] == s.returned[x];
        StillHappened(events, n, s.returned[x]);
      }
    }
  }

  /**
   * Every outcome that is published or returned is that of a build of the run: a locator that was built, or the very
   * error a build ended with.
   */
  lemma {:induction false} OutcomesHappened(run: seq<State>, events: seq<Event>, n: nat)
    requires IsTrace(run, events) && n <= |events|
    ensures Explained(run[n], events, n)
  {
    if n > 0 {
      OutcomesHappened(run, events, n - 1);
      TraceIsRun(run, events);
      RunKeepsInv(run, n - 1);
      StepKeepsExplained(run[n - 1], events, n - 1, run[n - 1 + 1]);
    }
  }

  /** A call that returns a failure other than the published one returns the error its own build ended with. */
  lemma ReturnedFailureIsOwn(run: seq<State>, events: seq<Event>, n: nat, i: nat)
    requires IsTrace(run, events) && n < |events| && events[n] == Event(i, Release)
    ensures |run[n + 1].returned| == |run[n].returned| + 1
    ensures var outcome := run[n + 1].returned[|run[n].returned|];
            run[n].cell == Some(outcome) || EndedBuild(events, n, i, outcome)
  {
    OutcomesHappened(run, events, n);
    assert Step(run[n], events[n].thread, events[n].action, run[n + 1]);
    assert ThreadExplained(run[n], events, n, i);
  }

  // ----- which failures last -----

  /** Failures that another attempt may not meet. */
  predicate IsTransient(error: Error) {
    error == Io || error == AllocationFailed || error == Cancelled || error == SourceChanged ||
    error.KeyIndexRejected? || error == LimitExceeded(WorkingMemoryBytes)
  }

  lemma TransientIsNotKept(error: Error)
    ensures Capturable(error) <==> !IsTransient(error)
  {
  }

  /** While builds fail for transient reasons only, no failure is ever published. */
  lemma TransientFailuresDoNotLast(run: seq<State>, events: seq<Event>, n: nat)
    requires IsTrace(run, events) && n <= |events|
    requires forall j, error | 0 <= j < |events| && events[j].action == BuildFail(error) :: IsTransient(error)
    ensures run[n].cell.Some? ==> run[n].cell.value.Success?
  {
    OutcomesHappened(run, events, n);
    TraceIsRun(run, events);
    RunKeepsInv(run, n);
    if run[n].cell.Some? && run[n].cell.value.Failure? {
      var error := run[n].cell.value.error;
      var thread: nat :| EndedBuild(events, n, thread, run[n].cell.value);
      var j: nat :| EndsBuildAt(events, n, j, thread, run[n].cell.value);
      assert events[j].action == BuildFail(error);
      TransientIsNotKept(error);
    }
  }

  // ----- when nothing is built any more -----

  /** A result is there, or is about to be published for sure. */
  ghost predicate Settled(s: State) {
    s.cell.Some? || exists i :: 0 <= i < |s.threads| && SettlesAt(s, i)
  }

  ghost predicate SettlesAt(s: State, i: nat)
    requires i < |s.threads|
  {
    s.threads[i].Publishing? && AlwaysPublished(s.threads[i].outcome)
  }

  lemma SettledStays(s: State, i: nat, a: Action, s': State)
    requires Inv(s) && Step(s, i, a, s') && Settled(s)
    ensures Settled(s')
    ensures !a.BuildOk? && !a.BuildFail?
  {
    if s.cell.Some? {
      assert s'.cell == s.cell;
    } else {
      var k :| 0 <= k < |s.threads| && SettlesAt(s, k);
      assert s.holder == Some(k);
      if k != i {
        assert s'.threads[k] == s.threads[k];
        assert SettlesAt(s', k);
      }
    }
  }

  lemma {:induction false} SettledForever(run: seq<State>, events: seq<Event>, j: nat, k: nat)
    requires IsTrace(run, events) && j <= k <= |events| && Settled(run[j])
    ensures Settled(run[k])
    decreases k
  {
    if j < k {
      SettledForever(run, events, j, k - 1);
      TraceIsRun(run, events);
      RunKeepsInv(run, k - 1);
      SettledStays(run[k - 1], events[k - 1].thread, events[k - 1].action, run[k - 1 + 1]);
    }
  }

  /** A build that succeeds, or fails for a reason that is always kept, is the last one of the run. */
  lemma LastBuild(run: seq<State>, events: seq<Event>, j: nat, k: nat)
    requires IsTrace(run, events) && j < k < |events|
    requires events[j].action == BuildOk || (events[j].action.BuildFail? && AlwaysCaptured(events[j].action.error))
    ensures events[k].action != BuildOk && !events[k].action.BuildFail?
  {
    assert Step(run[j], events[j].thread, events[j].action, run[j + 1]);
    assert SettlesAt(run[j + 1], events[j].thread);
    SettledForever(run, events, j + 1, k);
    TraceIsRun(run, events);
    RunKeepsInv(run, k);
    SettledStays(run[k], events[k].thread, events[k].action, run[k + 1]);
  }

  // ----- no call is lost -----

  function Calls(events: seq<Event>, n: nat): nat
    requires n <= |events|
  {
    if n == 0 then 0 else Calls(events, n - 1) + if events[n - 1].action == Call then 1 else 0
  }

  /** Threads inside a call. */
  function Inside(threads: seq<Thread>): nat {
    if threads == [] then 0 else Inside(threads[..|threads| - 1]) + if threads[|threads| - 1].Idle? then 0 else 1
  }

  lemma {:induction false} InsideUpdate(threads: seq<Thread>, i: nat, t: Thread)
    requires i < |threads|
    ensures Inside(threads[i := t]) + (if threads[i].Idle? then 0 else 1) == Inside(threads) + if t.Idle? then 0 else 1
  {
    var front, now := threads[..|threads| - 1], threads[i := t];
    if i == |threads| - 1 {
      assert now[..|threads| - 1] == front;
    } else {
      InsideUpdate(front, i, t);
      assert now[..|threads| - 1] == front[i := t];
    }
  }

  lemma {:induction false} NobodyInside(threads: seq<Thread>)
    requires forall i | 0 <= i < |threads| :: threads[i].Idle?
    ensures Inside(threads) == 0
  {
    if threads != [] {
      NobodyInside(threads[..|threads| - 1]);
    }
  }

  /** Every call has returned once or is still inside. */
  lemma {:induction false} CallsReturnOnce(run: seq<State>, events: seq<Event>, n: nat)
    requires IsTrace(run, events) && n <= |events|
    ensures |run[n].returned| + Inside(run[n].threads) == Calls(events, n)
  {
    if n == 0 {
      NobodyInside(run[0].threads);
    } else {
      CallsReturnOnce(run, events, n - 1);
      var i := events[n - 1].thread;
      assert Step(run[n - 1], i, events[n - 1].action, run[n - 1 + 1]);
      InsideUpdate(run[n - 1].threads, i, run[n].threads[i]);
    }
  }
}
