/**
 * Lock-free accounting of working memory, as interleaved atomic steps of any number of threads (src/limits.rs).
 */
module MemoryBudget {
  import opened Bytes
  import opened Wrappers

  /** What a claim is for: a reservation to come, or more bytes for one that exists. */
  datatype Claim = ForNew(bytes: nat) | ForGrowth(slot: nat, bytes: nat)

  /** Where a thread stands in `claim`. */
  datatype Thread =
    | Idle
    | Loading(claim: Claim)
    | Comparing(claim: Claim, current: nat)
    /** The exchange succeeded; the peak has not been raised yet. */
    | Exchanged(claim: Claim, next: nat)
    /** The peak has been raised; the reservation does not hold the bytes yet. */
    | Claimed(claim: Claim)

  /** The two counters, the threads, and every reservation ever made: its bytes, or nothing once it was dropped. */
  datatype State = State(max: nat, used: nat, peak: nat, threads: seq<Thread>, slots: seq<Option<nat>>)

  datatype Action = Begin(claim: Claim) | Load | Exchange | Retry | Refuse | RaisePeak | Finish | Drop(slot: nat)

  predicate IsLive(s: State, slot: nat) {
    slot < |s.slots| && s.slots[slot].Some?
  }

  /** Thread `t` is growing the reservation, which is borrowed exclusively meanwhile. */
  predicate Grows(t: Thread, slot: nat) {
    !t.Idle? && t.claim.ForGrowth? && t.claim.slot == slot
  }

  predicate IsBorrowed(s: State, slot: nat) {
    exists i :: 0 <= i < |s.threads| && Grows(s.threads[i], slot)
  }

  predicate Exceeds(s: State, current: nat, bytes: nat) {
    current + bytes > USIZE_MAX || current + bytes > s.max
  }

  ghost predicate Enabled(s: State, i: nat, a: Action) {
    i < |s.threads| &&
    match a
    case Begin(claim) =>
      s.threads[i].Idle? && claim.bytes <= USIZE_MAX &&
      (claim.ForGrowth? ==>
         IsLive(s, claim.slot) && !IsBorrowed(s, claim.slot) && s.slots[claim.slot].value + claim.bytes <= USIZE_MAX)
    case Load => s.threads[i].Loading?
    case Exchange =>
      && s.threads[i].Comparing? && !Exceeds(s, s.threads[i].current, s.threads[i].claim.bytes)
      && s.used == s.threads[i].current
    case Retry => s.threads[i].Comparing? && !Exceeds(s, s.threads[i].current, s.threads[i].claim.bytes)
    case Refuse => s.threads[i].Comparing? && Exceeds(s, s.threads[i].current, s.threads[i].claim.bytes)
    case RaisePeak => s.threads[i].Exchanged?
    case Finish => s.threads[i].Claimed? && (s.threads[i].claim.ForGrowth? ==> IsLive(s, s.threads[i].claim.slot))
    case Drop(slot) => s.threads[i].Idle? && IsLive(s, slot) && !IsBorrowed(s, slot)
  }

  /** Subtraction on the machine word. */
  function WrappingSub(a: nat, b: nat): nat
  {
    if b <= a then a - b else (a + (USIZE_MAX + 1) - b % (USIZE_MAX + 1)) % (USIZE_MAX + 1)
  }

  function WithThread(s: State, i: nat, t: Thread): State
    requires i < |s.threads|
  {
    s.(threads := s.threads[i := t])
  }

  /** One atomic step. A weak exchange may fail at any time and then observes the counter. */
  ghost function Apply(s: State, i: nat, a: Action): State
    requires Enabled(s, i, a)
  {
    match a
    case Begin(claim) => WithThread(s, i, Loading(claim))
    case Load => WithThread(s, i, Comparing(s.threads[i].claim, s.used))
    case Exchange =>
      var next := s.threads[i].current + s.threads[i].claim.bytes;
      WithThread(s, i, Exchanged(s.threads[i].claim, next)).(used := next)
    case Retry => WithThread(s, i, Comparing(s.threads[i].claim, s.used))
    case Refuse => WithThread(s, i, Idle)
    case RaisePeak =>
      WithThread(s, i, Claimed(s.threads[i].claim)).(peak := Max(s.peak, s.threads[i].next))
    case Finish =>
      WithThread(s, i, Idle).(slots :=
        match s.threads[i].claim
        case ForNew(bytes) => s.slots + [Some(bytes)]
        case ForGrowth(slot, bytes) => s.slots[slot := Some(s.slots[slot].value + bytes)])
    case Drop(slot) => s.(used := WrappingSub(s.used, s.slots[slot].value), slots := s.slots[slot := None])
  }

  // ----- what is claimed -----

  /** Bytes a thread has added to the counter but not yet to a reservation. */
  function Pending(t: Thread): nat {
    match t
    case Exchanged(claim, _) => claim.bytes
    case Claimed(claim) => claim.bytes
    case _ => 0
  }

  function SumPending(threads: seq<Thread>): nat {
    if threads == [] then 0 else SumPending(threads[..|threads| - 1]) + Pending(threads[|threads| - 1])
  }

  function BytesOf(slot: Option<nat>): nat {
    if slot.Some? then slot.value else 0
  }

  function SumLive(slots: seq<Option<nat>>): nat {
    if slots == [] then 0 else SumLive(slots[..|slots| - 1]) + BytesOf(slots[|slots| - 1])
  }

  lemma {:induction false} PendingUpdate(threads: seq<Thread>, i: nat, t: Thread)
    requires i < |threads|
    ensures SumPending(threads[i := t]) == SumPending(threads) - Pending(threads[i]) + Pending(t)
    ensures Pending(threads[i]) <= SumPending(threads)
  {
    var front, now := threads[..|threads| - 1], threads[i := t];
    if i == |threads| - 1 {
      assert now[..|threads| - 1] == front;
    } else {
      PendingUpdate(front, i, t);
      assert now[..|threads| - 1] == front[i := t];
    }
  }

  lemma {:induction false} LiveUpdate(slots: seq<Option<nat>>, i: nat, v: Option<nat>)
    requires i < |slots|
    ensures SumLive(slots[i := v]) == SumLive(slots) - BytesOf(slots[i]) + BytesOf(v)
    ensures BytesOf(slots[i]) <= SumLive(slots)
  {
    var front, now := slots[..|slots| - 1], slots[i := v];
    if i == |slots| - 1 {
      assert now[..|slots| - 1] == front;
    } else {
      LiveUpdate(front, i, v);
      assert now[..|slots| - 1] == front[i := v];
    }
  }

  /** The highest next value of a claim between its exchange and its peak update. */
  function HighestUnrecorded(threads: seq<Thread>): nat {
    if threads == [] then 0
    else
      var last := threads[|threads| - 1];
      Max(HighestUnrecorded(threads[..|threads| - 1]), if last.Exchanged? then last.next else 0)
  }

  /** Replacing one thread replaces its share of the maximum. */
  lemma {:induction false} UnrecordedUpdate(threads: seq<Thread>, i: nat, t: Thread)
    requires i < |threads|
    ensures var was, now := if threads[i].Exchanged? then threads[i].next else 0, if t.Exchanged? then t.next else 0;
            && HighestUnrecorded(threads[i := t]) <= Max(HighestUnrecorded(threads), now)
            && HighestUnrecorded(threads) <= Max(HighestUnrecorded(threads[i := t]), was)
            && now <= HighestUnrecorded(threads[i := t]) && was <= HighestUnrecorded(threads)
  {
    var front, after := threads[..|threads| - 1], threads[i := t];
    if i == |threads| - 1 {
      assert after[..|threads| - 1] == front;
    } else {
      UnrecordedUpdate(front, i, t);
      assert after[..|threads| - 1] == front[i := t];
    }
  }

  // ----- the invariant -----

  /** Whoever grows a reservation grows a live one, and alone. */
  ghost predicate BorrowsOk(s: State) {
    && (forall i | 0 <= i < |s.threads| && !s.threads[i].Idle? && s.threads[i].claim.ForGrowth? ::
          IsLive(s, s.threads[i].claim.slot))
    && (forall i, j | 0 <= i < j < |s.threads| && !s.threads[i].Idle? && s.threads[i].claim.ForGrowth? ::
          !Grows(s.threads[j], s.threads[i].claim.slot))
  }

  /** The counter is the bytes of live reservations plus the claims not yet recorded, and never exceeds the budget. */
  ghost predicate Accounted(s: State) {
    s.used == SumLive(s.slots) + SumPending(s.threads) && s.used <= s.max <= USIZE_MAX
  }

  ghost predicate Inv(s: State) {
    BorrowsOk(s) && Accounted(s)
  }

  ghost predicate Initial(s: State) {
    && s.used == 0 && s.peak == 0 && s.slots == [] && s.max <= USIZE_MAX
    && forall i | 0 <= i < |s.threads| :: s.threads[i] == Idle
  }

  ghost predicate Step(s: State, i: nat, a: Action, s': State) {
    Enabled(s, i, a) && s' == Apply(s, i, a)
  }

  lemma {:induction false} NothingPending(threads: seq<Thread>)
    requires forall i | 0 <= i < |threads| :: threads[i].Idle?
    ensures SumPending(threads) == 0 && HighestUnrecorded(threads) == 0
  {
    if threads != [] {
      NothingPending(threads[..|threads| - 1]);
    }
  }

  lemma {:induction false} NothingUnrecorded(threads: seq<Thread>)
    requires forall i | 0 <= i < |threads| :: !threads[i].Exchanged?
    ensures HighestUnrecorded(threads) == 0
  {
    if threads != [] {
      NothingUnrecorded(threads[..|threads| - 1]);
    }
  }

  lemma {:induction false} NothingLive(slots: seq<Option<nat>>)
    requires forall i | 0 <= i < |slots| :: slots[i] == None
    ensures SumLive(slots) == 0
  {
    if slots != [] {
      NothingLive(slots[..|slots| - 1]);
    }
  }

  lemma InitialHolds(s: State)
    requires Initial(s)
    ensures Inv(s)
  {
    NothingPending(s.threads);
  }

  /** Every atomic step keeps the books; a drop never takes the counter below zero. */
  lemma StepKeepsAccounts(s: State, i: nat, a: Action, s': State)
    requires Inv(s) && Step(s, i, a, s')
    ensures Accounted(s')
    ensures a.Drop? ==> s.slots[a.slot].value <= s.used
  {
    match a
    case Drop(slot) =>
      LiveUpdate(s.slots, slot, None);
    case Finish =>
      FinishKeepsAccounts(s, i, s');
    case _ =>
      PendingUpdate(s.threads, i, s'.threads[i]);
  }

  /** Bytes move from the claim to its reservation. */
  lemma FinishKeepsAccounts(s: State, i: nat, s': State)
    requires Inv(s) && Step(s, i, Finish, s')
    ensures Accounted(s')
  {
    PendingUpdate(s.threads, i, Idle);
    match s.threads[i].claim {
      case ForNew(bytes) =>
        assert (s.slots + [Some(bytes)])[..|s.slots|] == s.slots;
      case ForGrowth(slot, bytes) =>
        LiveUpdate(s.slots, slot, Some(s.slots[slot].value + bytes));
    }
  }

  lemma StepKeepsBorrows(s: State, i: nat, a: Action, s': State)
    requires Inv(s) && Step(s, i, a, s')
    ensures BorrowsOk(s')
  {
    forall k | 0 <= k < |s'.threads| && !s'.threads[k].Idle? && s'.threads[k].claim.ForGrowth?
      ensures IsLive(s', s'.threads[k].claim.slot)
    {
      if k != i || a.Drop? {
        assert s.threads[k] == s'.threads[k];
        assert Grows(s.threads[k], s.threads[k].claim.slot);
      }
    }
    forall j, k | 0 <= j < k < |s'.threads| && !s'.threads[j].Idle? && s'.threads[j].claim.ForGrowth?
      ensures !Grows(s'.threads[k], s'.threads[j].claim.slot)
    {
      if a.Begin? && k == i {
        assert s.threads[j] == s'.threads[j];
        assert Grows(s.threads[j], s.threads[j].claim.slot);
      }
      if a.Begin? && j == i {
        assert s.threads[k] == s'.threads[k];
      }
    }
  }

  lemma StepKeepsInv(s: State, i: nat, a: Action, s': State)
    requires Inv(s) && Step(s, i, a, s')
    ensures Inv(s')
  {
    StepKeepsAccounts(s, i, a, s');
    StepKeepsBorrows(s, i, a, s');
  }

  // ----- whole runs -----

  ghost predicate Follows(s: State, s': State) {
    exists i: nat, a: Action :: Step(s, i, a, s')
  }

  /** Any interleaving of any number of threads, from a fresh budget on. */
  ghost predicate IsRun(run: seq<State>) {
    && run != [] && Initial(run[0])
    && forall k | 0 <= k < |run| - 1 :: Follows(run[k], run[k + 1])
  }

  /** In every reachable state the books balance. */
  lemma {:induction false} RunKeepsInv(run: seq<State>, k: nat)
    requires IsRun(run) && k < |run|
    ensures Inv(run[k])
  {
    if k == 0 {
      InitialHolds(run[0]);
    } else {
      RunKeepsInv(run, k - 1);
      assert Follows(run[k - 1], run[k]);
      var i: nat, a: Action :| Step(run[k - 1], i, a, run[k]);
      StepKeepsInv(run[k - 1], i, a, run[k]);
    }
  }

  /** Once every reservation is dropped and no claim is under way, nothing is used. */
  lemma NothingLeft(run: seq<State>, k: nat)
    requires IsRun(run) && k < |run|
    requires forall i | 0 <= i < |run[k].threads| :: run[k].threads[i].Idle?
    requires forall i | 0 <= i < |run[k].slots| :: run[k].slots[i] == None
    ensures run[k].used == 0
  {
    RunKeepsInv(run, k);
    NothingPending(run[k].threads);
    NothingLive(run[k].slots);
  }

  /** The highest counter value of a run. */
  function HighestUsed(run: seq<State>): nat {
    if run == [] then 0 else Max(HighestUsed(run[..|run| - 1]), run[|run| - 1].used)
  }

  /** What the peak will be once every pending update is made. */
  function EventualPeak(s: State): nat {
    Max(s.peak, HighestUnrecorded(s.threads))
  }

  lemma StepTracksPeak(s: State, i: nat, a: Action, s': State)
    requires Inv(s) && Step(s, i, a, s') && s.used <= EventualPeak(s)
    ensures EventualPeak(s') == Max(EventualPeak(s), s'.used)
  {
    match a
    case Drop(slot) =>
      LiveUpdate(s.slots, slot, None);
    case Exchange =>
      UnrecordedUpdate(s.threads, i, s'.threads[i]);
    case RaisePeak =>
      UnrecordedUpdate(s.threads, i, s'.threads[i]);
    case _ =>
      UnrecordedUpdate(s.threads, i, s'.threads[i]);
  }

  lemma {:induction false} RunTracksPeak(run: seq<State>, k: nat)
    requires IsRun(run) && k < |run|
    ensures EventualPeak(run[k]) == HighestUsed(run[..k + 1]) && run[k].used <= EventualPeak(run[k])
  {
    assert run[..k + 1][..k] == run[..k];
    if k == 0 {
      NothingPending(run[0].threads);
    } else {
      RunTracksPeak(run, k - 1);
      RunKeepsInv(run, k - 1);
      assert Follows(run[k - 1], run[k]);
      var i: nat, a: Action :| Step(run[k - 1], i, a, run[k]);
      StepTracksPeak(run[k - 1], i, a, run[k]);
    }
  }

  /** While no claim is between its exchange and its peak update, the peak is the highest use there ever was. */
  lemma PeakIsExact(run: seq<State>, k: nat)
    requires IsRun(run) && k < |run|
    requires forall i | 0 <= i < |run[k].threads| :: !run[k].threads[i].Exchanged?
    ensures run[k].peak == HighestUsed(run[..k + 1])
  {
    RunTracksPeak(run, k);
    NothingUnrecorded(run[k].threads);
  }

  /** The counter really had the value a thread compares with. */
  ghost predicate WasUsed(run: seq<State>, k: nat, value: nat) {
    exists j :: 0 <= j <= k < |run| && run[j].used == value
  }

  lemma {:induction false} ComparedWithAnOldValue(run: seq<State>, k: nat, i: nat)
    requires IsRun(run) && k < |run| && i < |run[k].threads| && run[k].threads[i].Comparing?
    ensures WasUsed(run, k, run[k].threads[i].current)
  {
    if k > 0 {
      assert Follows(run[k - 1], run[k]);
      var t: nat, a: Action :| Step(run[k - 1], t, a, run[k]);
      if run[k - 1].threads[i] == run[k].threads[i] {
        ComparedWithAnOldValue(run, k - 1, i);
        var j :| 0 <= j <= k - 1 && run[j].used == run[k].threads[i].current;
        assert run[j].used == run[k].threads[i].current && j <= k;
      } else {
        assert run[k - 1].used == run[k].threads[i].current;
      }
    }
  }

  /** A claim is refused only if at some moment of the run it really would have exceeded the budget. */
  lemma RefusalsAreJustified(run: seq<State>, k: nat, i: nat, s': State)
    requires IsRun(run) && k < |run| && Step(run[k], i, Refuse, s')
    ensures exists j :: 0 <= j <= k && run[j].used + run[k].threads[i].claim.bytes > run[k].max
  {
    RunKeepsInv(run, k);
    ComparedWithAnOldValue(run, k, i);
    var j :| 0 <= j <= k && run[j].used == run[k].threads[i].current;
    assert run[j].used + run[k].threads[i].claim.bytes > run[k].max;
  }
}
