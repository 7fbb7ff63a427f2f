/**
 * What a merge holds in memory at any moment (src/core/persistent/sort.rs): one cursor with its read buffer per open
 * run, and at most one record of each in the heap.
 */
module MergeMemory {
  import opened Arithmetic
  import opened Bytes
  import opened IndexBuild
  import opened IndexOptions
  import opened Merge
  import opened MergePlan
  import opened RecordOrder
  import opened Runs
  import opened Sequences
  import opened Wrappers

  function HeldKeys(heap: seq<HeapRecord>): nat {
    if heap == [] then 0 else |heap[0].record.key| + HeldKeys(heap[1..])
  }

  /** Bytes held: the keys in the heap, and for every open run its cursor, its heap slot and its read buffer. */
  function HeldBytes(heap: seq<HeapRecord>, openRuns: nat, readBuffer: nat): nat {
    HeldKeys(heap) + openRuns * (RUN_CURSOR_SIZE + HEAP_RECORD_SIZE + readBuffer)
  }

  /** No record of these runs exceeds the size. */
  ghost predicate RecordsWithin(runs: seq<seq<Rec>>, maximumRecordBytes: nat) {
    forall x | x in Flat(runs) :: |x.key| + SCRATCH_RECORD_OVERHEAD <= maximumRecordBytes
  }

  lemma {:induction false} KeysAreBounded(heap: seq<HeapRecord>, bound: nat)
    requires forall k | 0 <= k < |heap| :: |heap[k].record.key| <= bound
    ensures HeldKeys(heap) <= |heap| * bound
  {
    if heap != [] {
      KeysAreBounded(heap[1..], bound);
      MulSucc(bound, |heap| - 1);
    }
  }

  /** Distinct numbers below `n` are at most `n`. */
  lemma {:induction false} DistinctBelow(s: seq<nat>, n: nat)
    requires forall i | 0 <= i < |s| :: s[i] < n
    requires forall i, j | 0 <= i < j < |s| :: s[i] != s[j]
    ensures |s| <= n
  {
    assert s != [] ==> s[0] < n;
    if n > 0 {
      if i :| 0 <= i < |s| && s[i] == n - 1 {
        DistinctBelow(s[..i] + s[i + 1..], n - 1);
      } else {
        DistinctBelow(s, n - 1);
      }
    }
  }

  /** The heap holds one record of each run at most. */
  lemma HeapIsSmall(heap: seq<HeapRecord>, tails: seq<seq<Rec>>)
    requires HeapHoldsHeads(heap, tails)
    ensures |heap| <= |tails|
  {
    DistinctBelow(seq(|heap|, k requires 0 <= k < |heap| => heap[k].run), |tails|);
  }

  lemma {:induction false} HeadIsMember(runs: seq<seq<Rec>>, i: nat)
    requires i < |runs| && runs[i] != []
    ensures runs[i][0] in Flat(runs)
  {
    if i > 0 {
      HeadIsMember(runs[1..], i - 1);
    }
  }

  /** Records in the heap come from the group being merged. */
  lemma HeapIsWithin(heap: seq<HeapRecord>, group: seq<seq<Rec>>, tails: seq<seq<Rec>>, out: seq<Rec>, maximumRecordBytes: nat)
    requires Merging(group, tails, out) && HeapHoldsHeads(heap, tails) && RecordsWithin(group, maximumRecordBytes)
    ensures forall k | 0 <= k < |heap| :: |heap[k].record.key| + SCRATCH_RECORD_OVERHEAD <= maximumRecordBytes
  {
    forall k | 0 <= k < |heap|
      ensures heap[k].record in Flat(group)
    {
      HeadIsMember(tails, heap[k].run);
      assert heap[k].record in multiset(Flat(tails));
      assert heap[k].record in multiset(Flat(group));
    }
  }

  /** At every moment of merging a group of bounded records, what is held keeps the build memory. */
  lemma HeldFitsBuildMemory(heap: seq<HeapRecord>, group: seq<seq<Rec>>, tails: seq<seq<Rec>>, out: seq<Rec>, maximum: nat,
                            runCount: nat, maximumRecordBytes: nat, options: KeyIndexOptions, plan: Plan)
    requires MergeState(heap, group, tails, out, maximum) && RecordsWithin(group, maximumRecordBytes)
    requires runCount > 1 && ValidOptions(options) && MakePlan(runCount, maximumRecordBytes, options) == Ok(plan)
    requires |group| <= plan.activeBuffers
    ensures HeldBytes(heap, |group|, plan.readBuffer) <= options.buildMemoryBytes
  {
    HeapIsSmall(heap, tails);
    HeapIsWithin(heap, group, tails, out, maximumRecordBytes);
    KeysAreBounded(heap, maximumRecordBytes);
    PlanFitsBuildMemory(runCount, maximumRecordBytes, options);
    var each := plan.basePerRun + plan.readBuffer;
    MulIsMonotone(|heap|, |group|, maximumRecordBytes);
    MulIsMonotone(|group|, plan.activeBuffers, each);
    HeldIsCharged(|group|, maximumRecordBytes, RUN_CURSOR_SIZE + HEAP_RECORD_SIZE + plan.readBuffer, each);
  }

  lemma HeldIsCharged(runs: nat, keyBytes: nat, other: nat, each: nat)
    requires keyBytes + other <= each
    ensures runs * keyBytes + runs * other <= runs * each
  {
    assert runs * keyBytes + runs * other == runs * (keyBytes + other);
    MulIsMonotone(keyBytes + other, each, runs);
  }

  // ----- from the builder to any group of any pass -----

  /** Rearranging records does not change their sizes. */
  lemma RearrangedWithin(runs: seq<seq<Rec>>, initial: seq<seq<Rec>>, maximumRecordBytes: nat)
    requires multiset(Flat(runs)) == multiset(Flat(initial)) && RecordsWithin(initial, maximumRecordBytes)
    ensures RecordsWithin(runs, maximumRecordBytes)
  {
    forall x | x in Flat(runs)
      ensures x in Flat(initial)
    {
      assert x in multiset(Flat(runs));
      assert x in multiset(Flat(initial));
    }
  }

  lemma GroupWithin(runs: seq<seq<Rec>>, from: nat, to: nat, maximumRecordBytes: nat)
    requires from <= to <= |runs| && RecordsWithin(runs, maximumRecordBytes)
    ensures RecordsWithin(runs[from..to], maximumRecordBytes)
  {
    SplitAt(runs, from);
    SplitAt(runs[from..], to - from);
    FlatConcat(runs[..from], runs[from..]);
    FlatConcat(runs[from..][..to - from], runs[from..][to - from..]);
    assert runs[from..][..to - from] == runs[from..to];
  }

  /** The builder's counter bounds every record it has spilled. */
  lemma SpilledWithin(texts: seq<bytes>, spilled: seq<seq<Rec>>, pending: seq<Rec>, maximum: nat)
    requires SortState(texts, spilled, pending, maximum)
    ensures RecordsWithin(spilled, LargestRecord(texts))
  {
    LargestIsLargest(texts, SCRATCH_RECORD_OVERHEAD);
    forall x | x in Flat(spilled)
      ensures |x.key| + SCRATCH_RECORD_OVERHEAD <= LargestRecord(texts)
    {
      assert x in multiset(Flat(spilled) + pending);
      assert x in multiset(RowRecs(texts));
      var i :| 0 <= i < |RowRecs(texts)| && RowRecs(texts)[i] == x;
      assert x.key == texts[i];
    }
  }

  /** So whatever pass and group of the builder's runs is being merged, and however far, the build memory is kept. */
  lemma MergeKeepsBuildMemory(c: Counters, p: Progress, options: KeyIndexOptions, plan: Plan,
                              data: bytes, runs: seq<seq<Rec>>, from: nat, to: nat,
                              heap: seq<HeapRecord>, tails: seq<seq<Rec>>, out: seq<Rec>)
    requires ValidOptions(options) && CountersFit(c, p, options) && c.runCount > 1
    requires MakePlan(c.runCount, c.maximumRecordBytes, options) == Ok(plan)
    requires RunsFile(data, runs, |runs|, p.spilled, options.buildMemoryBytes)
    requires from <= to <= |runs| && to - from <= plan.activeBuffers
    requires MergeState(heap, runs[from..to], tails, out, options.buildMemoryBytes)
    ensures HeldBytes(heap, to - from, plan.readBuffer) <= options.buildMemoryBytes
  {
    SpilledWithin(p.texts, p.spilled, p.pending, options.buildMemoryBytes);
    RearrangedWithin(runs, p.spilled, c.maximumRecordBytes);
    GroupWithin(runs, from, to, c.maximumRecordBytes);
    HeldFitsBuildMemory(heap, runs[from..to], tails, out, options.buildMemoryBytes, c.runCount, c.maximumRecordBytes,
                        options, plan);
  }
}
