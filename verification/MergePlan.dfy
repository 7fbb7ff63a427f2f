/** The memory plan of the external merge (src/core/persistent/sort.rs, start of `merge_runs`). */
module MergePlan {
  import opened Arithmetic
  import opened Bytes
  import opened IndexOptions
  import opened Wrappers

  /**
   * `fanIn` runs are merged at a time; every open run is charged `basePerRun` bytes and holds a read buffer of
   * `readBuffer` bytes.
   */
  datatype Plan = Plan(fanIn: nat, basePerRun: nat, activeBuffers: nat, readBuffer: nat)

  function FanIn(maximumRecordBytes: nat, options: KeyIndexOptions): nat {
    Min(options.buildMemoryBytes / (BasePerRun(maximumRecordBytes) + 1), MAX_MERGE_FAN_IN)
  }

  function BasePerRun(maximumRecordBytes: nat): nat {
    maximumRecordBytes + (RUN_CURSOR_SIZE + HEAP_RECORD_SIZE + 64)
  }

  function MakePlan(runCount: nat, maximumRecordBytes: nat, options: KeyIndexOptions): Result<Plan>
    requires runCount > 0
  {
    var base := BasePerRun(maximumRecordBytes);
    if base + 1 > USIZE_MAX then Err(InvalidFormat)
    else
      var fanIn := FanIn(maximumRecordBytes, options);
      if runCount > 1 && fanIn < 2 then Err(LimitExceeded(BuildMemoryBytes))
      else
        var active := Min(runCount, Max(fanIn, 1));
        var budget := SaturatingSub(options.buildMemoryBytes, Min(base * active, USIZE_MAX));
        var readBuffer := Max(1, Min(budget / active, Min(options.chunkBytes, RUN_READ_BUFFER_BYTES)));
        Ok(Plan(fanIn, base, active, readBuffer))
  }

  /** While there is anything to merge, all open runs together stay within the build-memory ceiling. */
  lemma PlanFitsBuildMemory(runCount: nat, maximumRecordBytes: nat, options: KeyIndexOptions)
    requires runCount > 1 && ValidOptions(options)
    ensures var plan := MakePlan(runCount, maximumRecordBytes, options);
            plan.Ok? ==>
              && 2 <= plan.value.fanIn <= MAX_MERGE_FAN_IN
              && 1 <= plan.value.activeBuffers && 1 <= plan.value.readBuffer
              && plan.value.activeBuffers * (plan.value.basePerRun + plan.value.readBuffer) <= options.buildMemoryBytes
  {
    var plan := MakePlan(runCount, maximumRecordBytes, options);
    if plan.Ok? {
      var Plan(fanIn, base, active, readBuffer) := plan.value;
      SharesFit(options.buildMemoryBytes, base, active);
      BuffersFit(options.buildMemoryBytes - base * active, active, readBuffer);
      assert active * (base + readBuffer) == base * active + readBuffer * active;
    }
  }

  lemma SharesFit(memory: nat, base: nat, active: nat)
    requires 1 <= active <= memory / (base + 1)
    ensures base * active + active <= memory
  {
    QuotientBounds(memory, base + 1);
    MulIsMonotone(active, memory / (base + 1), base + 1);
    assert active * (base + 1) == base * active + active;
  }

  lemma BuffersFit(budget: nat, active: nat, readBuffer: nat)
    requires 1 <= active <= budget && readBuffer <= Max(1, budget / active)
    ensures readBuffer * active <= budget
  {
    QuotientBounds(budget, active);
    QuotientIsMonotone(active, budget, active);
    QuotientIs(active, active, 1);
    MulIsMonotone(readBuffer, budget / active, active);
  }

  /** Two runs of the largest record fit the build memory, read buffers and bookkeeping included. */
  predicate TwoRunsFit(maximumRecordBytes: nat, options: KeyIndexOptions) {
    2 * (BasePerRun(maximumRecordBytes) + 1) <= options.buildMemoryBytes
  }

  /** A merge is refused exactly when two runs of the largest record do not fit the build memory. */
  lemma PlanSucceedsWhenTwoRunsFit(runCount: nat, maximumRecordBytes: nat, options: KeyIndexOptions)
    requires runCount > 1 && ValidOptions(options)
    ensures MakePlan(runCount, maximumRecordBytes, options).Ok? <==> TwoRunsFit(maximumRecordBytes, options)
    ensures BasePerRun(maximumRecordBytes) + 1 <= USIZE_MAX && !TwoRunsFit(maximumRecordBytes, options) ==>
              MakePlan(runCount, maximumRecordBytes, options) == Err(LimitExceeded(BuildMemoryBytes))
  {
    TwoSharesFit(options.buildMemoryBytes, BasePerRun(maximumRecordBytes) + 1);
  }

  lemma TwoSharesFit(memory: nat, each: nat)
    requires each > 0
    ensures memory / each >= 2 <==> 2 * each <= memory
  {
    QuotientBounds(memory, each);
    if memory / each >= 2 {
      MulIsMonotone(2, memory / each, each);
    } else {
      MulIsMonotone(memory / each + 1, 2, each);
    }
  }

  /**
   * The builder admits no record above a quarter of the build memory, so 706 bytes of it are enough for every
   * merge. The builder accepts 256, and then a merge can be refused.
   */
  lemma BuilderRecordsAlwaysMerge(runCount: nat, options: KeyIndexOptions)
    requires runCount > 1 && ValidOptions(options)
    ensures (forall maximum: nat | maximum <= options.buildMemoryBytes / 4 ::
               MakePlan(runCount, maximum, options).Ok?) <==> options.buildMemoryBytes >= 706
  {
    forall maximum: nat | maximum <= options.buildMemoryBytes / 4
      ensures MakePlan(runCount, maximum, options).Ok? <==> TwoRunsFit(maximum, options)
    {
      PlanSucceedsWhenTwoRunsFit(runCount, maximum, options);
    }
    if options.buildMemoryBytes < 706 {
      assert !MakePlan(runCount, options.buildMemoryBytes / 4, options).Ok?;
    }
  }
}
