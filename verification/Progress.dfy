/**
 * That the state machines of the memory budget and of the single-flight locator can move: undisturbed, every claim and
 * every call comes to the end its situation calls for (src/limits.rs, src/core/locator.rs).
 */
module Progress {
  import opened Bytes
  import opened KeyBlocks
  import opened Wrappers
  import Budget = MemoryBudget
  import Flight = SingleFlight

  // ----- the memory budget -----

  ghost predicate BudgetSteps(s: Budget.State, i: nat, actions: seq<Budget.Action>, end: Budget.State)
    decreases |actions|
  {
    if actions == [] then s == end
    else Budget.Enabled(s, i, actions[0]) && BudgetSteps(Budget.Apply(s, i, actions[0]), i, actions[1..], end)
  }

  /** Undisturbed, a new reservation that fits is made: the counter and the reservations grow by it, the peak follows. */
  lemma ReservationThatFits(s: Budget.State, i: nat, n: nat) returns (end: Budget.State)
    requires Budget.Inv(s) && i < |s.threads| && s.threads[i].Idle? && s.used + n <= s.max
    ensures BudgetSteps(s, i, [Budget.Begin(Budget.ForNew(n)), Budget.Load, Budget.Exchange, Budget.RaisePeak, Budget.Finish], end)
    ensures end == s.(used := s.used + n, peak := Max(s.peak, s.used + n), slots := s.slots + [Some(n)])
  {
    var claim := Budget.ForNew(n);
    var s1 := Budget.Apply(s, i, Budget.Begin(claim));
    var s2 := Budget.Apply(s1, i, Budget.Load);
    var s3 := Budget.Apply(s2, i, Budget.Exchange);
    var s4 := Budget.Apply(s3, i, Budget.RaisePeak);
    end := Budget.Apply(s4, i, Budget.Finish);
    assert end.threads == s.threads;
    assert BudgetSteps(end, i, [], end);
    assert BudgetSteps(s4, i, [Budget.Finish], end);
    assert BudgetSteps(s3, i, [Budget.RaisePeak, Budget.Finish], end);
    assert BudgetSteps(s2, i, [Budget.Exchange, Budget.RaisePeak, Budget.Finish], end);
    assert BudgetSteps(s1, i, [Budget.Load, Budget.Exchange, Budget.RaisePeak, Budget.Finish], end);
  }

  /** After a lost race, with the counter wherever others left it, the claim succeeds if it fits now. */
  lemma RetriedClaimThatFits(s: Budget.State, i: nat) returns (end: Budget.State)
    requires Budget.Inv(s) && i < |s.threads| && s.threads[i].Comparing?
    requires !Budget.Exceeds(s, s.threads[i].current, s.threads[i].claim.bytes) && s.used + s.threads[i].claim.bytes <= s.max
    ensures BudgetSteps(s, i, [Budget.Retry, Budget.Exchange], end)
    ensures end.used == s.used + s.threads[i].claim.bytes
  {
    var s1 := Budget.Apply(s, i, Budget.Retry);
    end := Budget.Apply(s1, i, Budget.Exchange);
    assert BudgetSteps(end, i, [], end);
    assert BudgetSteps(s1, i, [Budget.Exchange], end);
  }

  /** Growing a live reservation adds to it and to nothing else. */
  lemma GrowthThatFits(s: Budget.State, i: nat, slot: nat, n: nat) returns (end: Budget.State)
    requires Budget.Inv(s) && i < |s.threads| && s.threads[i].Idle? && s.used + n <= s.max
    requires Budget.IsLive(s, slot) && !Budget.IsBorrowed(s, slot) && s.slots[slot].value + n <= USIZE_MAX
    ensures BudgetSteps(s, i, [Budget.Begin(Budget.ForGrowth(slot, n)), Budget.Load, Budget.Exchange, Budget.RaisePeak, Budget.Finish], end)
    ensures end == s.(used := s.used + n, peak := Max(s.peak, s.used + n), slots := s.slots[slot := Some(s.slots[slot].value + n)])
  {
    var s1 := Budget.Apply(s, i, Budget.Begin(Budget.ForGrowth(slot, n)));
    var s2 := Budget.Apply(s1, i, Budget.Load);
    var s3 := Budget.Apply(s2, i, Budget.Exchange);
    var s4 := Budget.Apply(s3, i, Budget.RaisePeak);
    end := Budget.Apply(s4, i, Budget.Finish);
    assert end.threads == s.threads;
    assert BudgetSteps(end, i, [], end);
    assert BudgetSteps(s4, i, [Budget.Finish], end);
    assert BudgetSteps(s3, i, [Budget.RaisePeak, Budget.Finish], end);
    assert BudgetSteps(s2, i, [Budget.Exchange, Budget.RaisePeak, Budget.Finish], end);
    assert BudgetSteps(s1, i, [Budget.Load, Budget.Exchange, Budget.RaisePeak, Budget.Finish], end);
  }

  /** A claim that does not fit is refused and leaves everything as it was. */
  lemma ReservationThatDoesNotFit(s: Budget.State, i: nat, n: nat)
    requires Budget.Inv(s) && i < |s.threads| && s.threads[i].Idle? && n <= USIZE_MAX && s.used + n > s.max
    ensures BudgetSteps(s, i, [Budget.Begin(Budget.ForNew(n)), Budget.Load, Budget.Refuse], s)
  {
    var s1 := Budget.Apply(s, i, Budget.Begin(Budget.ForNew(n)));
    var s2 := Budget.Apply(s1, i, Budget.Load);
    var s3 := Budget.Apply(s2, i, Budget.Refuse);
    assert s3.threads == s.threads && s3 == s;
    assert BudgetSteps(s3, i, [], s);
    assert BudgetSteps(s2, i, [Budget.Refuse], s);
    assert BudgetSteps(s1, i, [Budget.Load, Budget.Refuse], s);
  }

  /** Dropping a reservation gives exactly its bytes back. */
  lemma DropGivesBack(s: Budget.State, i: nat, slot: nat)
    requires Budget.Inv(s) && i < |s.threads| && s.threads[i].Idle?
    requires Budget.IsLive(s, slot) && !Budget.IsBorrowed(s, slot)
    ensures s.slots[slot].value <= s.used
    ensures BudgetSteps(s, i, [Budget.Drop(slot)], s.(used := s.used - s.slots[slot].value, slots := s.slots[slot := None]))
  {
    Budget.LiveUpdate(s.slots, slot, None);
    var end := Budget.Apply(s, i, Budget.Drop(slot));
    assert BudgetSteps(end, i, [], end);
  }

  // ----- the locator -----

  ghost predicate FlightSteps(s: Flight.State, i: nat, actions: seq<Flight.Action>, end: Flight.State)
    decreases |actions|
  {
    if actions == [] then s == end
    else Flight.Enabled(s, i, actions[0]) && FlightSteps(Flight.Apply(s, i, actions[0]), i, actions[1..], end)
  }

  /** A first call that nobody disturbs builds, publishes and returns the locator. */
  lemma FirstCallBuilds(s: Flight.State, i: nat) returns (end: Flight.State)
    requires i < |s.threads| && s.threads[i].Idle? && s.cell == None && s.holder == None
    ensures FlightSteps(s, i, [Flight.Call, Flight.FirstLook, Flight.Lock, Flight.SecondLook, Flight.BuildOk,
                               Flight.Publish(true), Flight.Release], end)
    ensures var outcome := Flight.Success(s.builds);
            end == s.(cell := Some(outcome), builds := s.builds + 1, returned := s.returned + [outcome])
  {
    var s1 := Flight.Apply(s, i, Flight.Call);
    var s2 := Flight.Apply(s1, i, Flight.FirstLook);
    var s3 := Flight.Apply(s2, i, Flight.Lock);
    var s4 := Flight.Apply(s3, i, Flight.SecondLook);
    var s5 := Flight.Apply(s4, i, Flight.BuildOk);
    var s6 := Flight.Apply(s5, i, Flight.Publish(true));
    end := Flight.Apply(s6, i, Flight.Release);
    assert end.threads == s.threads;
    assert FlightSteps(end, i, [], end);
    assert FlightSteps(s6, i, [Flight.Release], end);
    assert FlightSteps(s5, i, [Flight.Publish(true), Flight.Release], end);
    assert FlightSteps(s4, i, [Flight.BuildOk, Flight.Publish(true), Flight.Release], end);
    assert FlightSteps(s3, i, [Flight.SecondLook, Flight.BuildOk, Flight.Publish(true), Flight.Release], end);
    assert FlightSteps(s2, i, [Flight.Lock, Flight.SecondLook, Flight.BuildOk, Flight.Publish(true), Flight.Release], end);
    assert FlightSteps(s1, i, [Flight.FirstLook, Flight.Lock, Flight.SecondLook, Flight.BuildOk, Flight.Publish(true),
                               Flight.Release], end);
  }

  /** A build that fails is reported to its caller; a failure that is not kept leaves the cell empty for the next call. */
  lemma FailedCallReports(s: Flight.State, i: nat, error: Error, captured: bool) returns (end: Flight.State)
    requires i < |s.threads| && s.threads[i].Idle? && s.cell == None && s.holder == None
    requires (captured ==> Capturable(error)) && (AlwaysCaptured(error) ==> captured)
    ensures FlightSteps(s, i, [Flight.Call, Flight.FirstLook, Flight.Lock, Flight.SecondLook, Flight.BuildFail(error),
                               Flight.Publish(captured), Flight.Release], end)
    ensures end == s.(cell := if captured then Some(Flight.Failure(error)) else None,
                      returned := s.returned + [Flight.Failure(error)])
  {
    var s1 := Flight.Apply(s, i, Flight.Call);
    var s2 := Flight.Apply(s1, i, Flight.FirstLook);
    var s3 := Flight.Apply(s2, i, Flight.Lock);
    var s4 := Flight.Apply(s3, i, Flight.SecondLook);
    var s5 := Flight.Apply(s4, i, Flight.BuildFail(error));
    var s6 := Flight.Apply(s5, i, Flight.Publish(captured));
    end := Flight.Apply(s6, i, Flight.Release);
    assert end.threads == s.threads;
    assert FlightSteps(end, i, [], end);
    assert FlightSteps(s6, i, [Flight.Release], end);
    assert FlightSteps(s5, i, [Flight.Publish(captured), Flight.Release], end);
    assert FlightSteps(s4, i, [Flight.BuildFail(error), Flight.Publish(captured), Flight.Release], end);
    assert FlightSteps(s3, i, [Flight.SecondLook, Flight.BuildFail(error), Flight.Publish(captured), Flight.Release], end);
    assert FlightSteps(s2, i, [Flight.Lock, Flight.SecondLook, Flight.BuildFail(error), Flight.Publish(captured),
                               Flight.Release], end);
    assert FlightSteps(s1, i, [Flight.FirstLook, Flight.Lock, Flight.SecondLook, Flight.BuildFail(error),
                               Flight.Publish(captured), Flight.Release], end);
  }

  /** Once something is published a call returns it at its first look, whoever holds the mutex. */
  lemma LaterCallReturns(s: Flight.State, i: nat)
    requires i < |s.threads| && s.threads[i].Idle? && s.cell.Some?
    ensures FlightSteps(s, i, [Flight.Call, Flight.FirstLook], s.(returned := s.returned + [s.cell.value]))
  {
    var s1 := Flight.Apply(s, i, Flight.Call);
    var end := Flight.Apply(s1, i, Flight.FirstLook);
    assert end.threads == s.threads;
    assert end == s.(returned := s.returned + [s.cell.value]);
    assert FlightSteps(end, i, [], end);
    assert FlightSteps(s1, i, [Flight.FirstLook], end);
  }

  /** And so does a call that looks a second time, after waiting for the one that published. */
  lemma WaitingCallReturns(s: Flight.State, i: nat)
    requires i < |s.threads| && s.threads[i].Waiting? && s.cell.Some? && s.holder == None
    ensures FlightSteps(s, i, [Flight.Lock, Flight.SecondLook, Flight.Release],
                        s.(threads := s.threads[i := Flight.Idle], returned := s.returned + [s.cell.value]))
  {
    var s1 := Flight.Apply(s, i, Flight.Lock);
    var s2 := Flight.Apply(s1, i, Flight.SecondLook);
    var end := Flight.Apply(s2, i, Flight.Release);
    assert end == s.(threads := s.threads[i := Flight.Idle], returned := s.returned + [s.cell.value]);
    assert FlightSteps(end, i, [], end);
    assert FlightSteps(s2, i, [Flight.Release], end);
    assert FlightSteps(s1, i, [Flight.SecondLook, Flight.Release], end);
  }
}
