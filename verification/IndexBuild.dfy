/**
 * Building a persistent key index in bounded memory (src/core/persistent/build.rs): rows stream into three
 * sections while their sort records gather in a buffer that is spilled as sorted runs.
 */
module IndexBuild {
  import opened Bytes
  import opened Dictionary
  import opened IndexOptions
  import opened LookupSpec
  import opened Merge
  import opened MetadataPlan
  import opened Normalize
  import opened RecordOrder
  import opened Runs
  import opened Scratch
  import opened Sequences
  import opened SortBuffers
  import opened Utf8
  import opened Wrappers

  // ----- what the sort has seen -----

  /** Bytes the build plan charges for a record. */
  function PlannedOf(recs: seq<Rec>): nat {
    if recs == [] then 0 else PlannedOf(recs[..|recs| - 1]) + |recs[|recs| - 1].key| + ARENA_RECORD_SIZE
  }

  /** The runs and the buffer together hold one record per row. */
  ghost predicate SortState(texts: seq<bytes>, spilled: seq<seq<Rec>>, pending: seq<Rec>, maximum: nat) {
    && multiset(Flat(spilled) + pending) == multiset(RowRecs(texts))
    && AllSorted(spilled) && RunsWellFormed(spilled, maximum) && AllWellFormed(pending, maximum)
    && NoneEmpty(spilled)
  }

  ghost predicate NoneEmpty(runs: seq<seq<Rec>>) {
    forall i | 0 <= i < |runs| :: runs[i] != []
  }

  lemma {:induction false} FlatAppend(runs: seq<seq<Rec>>, run: seq<Rec>)
    ensures Flat(runs + [run]) == Flat(runs) + run
  {
    FlatConcat(runs, [run]);
    assert [run][1..] == [];
    NilConcat(run);
    assert Flat([run]) == run + Flat([]);
  }

  lemma SortedIsWellFormed(recs: seq<Rec>, maximum: nat)
    requires AllWellFormed(recs, maximum)
    ensures AllWellFormed(SortRecs(recs), maximum)
  {
    SortRecsSorts(recs);
    var sorted := SortRecs(recs);
    forall i | 0 <= i < |sorted|
      ensures WellFormed(sorted[i], maximum)
    {
      assert sorted[i] in multiset(sorted);
      assert sorted[i] in recs;
    }
  }

  /** Spilling moves the buffer's records into a new run. */
  lemma SpillKeeps(texts: seq<bytes>, spilled: seq<seq<Rec>>, pending: seq<Rec>, maximum: nat)
    requires SortState(texts, spilled, pending, maximum) && pending != []
    ensures SortState(texts, spilled + [SortRecs(pending)], [], maximum)
  {
    SortedIsRun(pending, maximum);
    SpillKeepsCounts(spilled, pending, SortRecs(pending));
    OneMoreRun(spilled, SortRecs(pending), maximum);
  }

  lemma SpillKeepsCounts(spilled: seq<seq<Rec>>, pending: seq<Rec>, run: seq<Rec>)
    requires multiset(run) == multiset(pending)
    ensures multiset(Flat(spilled + [run]) + []) == multiset(Flat(spilled) + pending)
  {
    FlatAppend(spilled, run);
    NilConcat(Flat(spilled + [run]));
    MultisetOfConcat(Flat(spilled), pending);
    MultisetOfConcat(Flat(spilled), run);
  }

  lemma OneMoreRun(spilled: seq<seq<Rec>>, run: seq<Rec>, maximum: nat)
    requires AllSorted(spilled) && RunsWellFormed(spilled, maximum) && NoneEmpty(spilled)
    requires Sorted(run) && AllWellFormed(run, maximum) && run != []
    ensures AllSorted(spilled + [run]) && RunsWellFormed(spilled + [run], maximum) && NoneEmpty(spilled + [run])
  {
  }

  lemma SortedIsRun(pending: seq<Rec>, maximum: nat)
    requires AllWellFormed(pending, maximum) && pending != []
    ensures var run := SortRecs(pending);
            run != [] && Sorted(run) && multiset(run) == multiset(pending) && AllWellFormed(run, maximum)
  {
    SortRecsSorts(pending);
    assert |multiset(SortRecs(pending))| == |multiset(pending)|;
    SortedIsWellFormed(pending, maximum);
  }

  /** A new row brings one record. */
  lemma PushKeeps(texts: seq<bytes>, spilled: seq<seq<Rec>>, pending: seq<Rec>, key: bytes, maximum: nat)
    requires SortState(texts, spilled, pending, maximum)
    requires WellFormed(Rec(key, |texts|), maximum)
    ensures SortState(texts + [key], spilled, pending + [Rec(key, |texts|)], maximum)
  {
    var r := Rec(key, |texts|);
    assert RowRecs(texts + [key]) == RowRecs(texts) + [r];
    Associative(Flat(spilled), pending, [r]);
    MultisetOfConcat(Flat(spilled) + pending, [r]);
    MultisetOfConcat(RowRecs(texts), [r]);
  }

  lemma NothingSorted(maximum: nat)
    ensures SortState([], [], [], maximum)
  {
    assert RowRecs([]) == [];
  }

  lemma PlannedAppend(recs: seq<Rec>, r: Rec)
    ensures PlannedOf(recs + [r]) == PlannedOf(recs) + |r.key| + ARENA_RECORD_SIZE
  {
    assert (recs + [r])[..|recs|] == recs;
  }

  /** The real size of a buffer's run stays below what was planned for it. */
  lemma {:induction false} PlanCoversBody(recs: seq<Rec>)
    ensures |Body(recs)| <= PlannedOf(recs)
  {
    if recs != [] {
      PlanCoversBody(recs[..|recs| - 1]);
      PrefixGrows(recs, |recs| - 1);
      Whole(recs);
      BodyAppend(recs[..|recs| - 1], recs[|recs| - 1]);
    }
  }

  // ----- planning one row -----

  /** ASCII keys never grow when they are normalized. */
  lemma {:induction false} AsciiFoldIsShort(n: Normalizer, raw: string)
    requires AllAscii(raw)
    ensures |Encode(n.FoldAll(raw))| <= |raw|
  {
    if raw != "" {
      AsciiFoldIsShort(n, raw[1..]);
      EncodeConcat(n.Fold(raw[0]), n.FoldAll(raw[1..]));
      FoldBytes(n, raw[0]);
    }
  }

  lemma {:induction false} TrimIsShort(n: Normalizer, raw: string)
    ensures |n.Trim(raw)| <= |raw| && (AllAscii(raw) ==> AllAscii(n.Trim(raw)))
  {
    if raw != "" {
      TrimIsShort(n, raw[1..]);
    }
  }

  lemma AsciiKeysDoNotGrow(n: Normalizer, raw: string)
    requires AllAscii(raw)
    ensures |n.Bytes(raw)| <= |raw|
  {
    TrimIsShort(n, raw);
    AsciiFoldIsShort(n, n.Trim(raw));
  }

  /** Room to reserve for a row, its exact length where it was measured, and the bytes it is charged. */
  datatype RowPlan = RowPlan(reserveLen: nat, expectedLen: Option<nat>, plannedBytes: nat)

  /** What the build charges its sort buffer for a row: an ASCII key by its own length, any other by its normalized one. */
  function PlannedBytes(m: Matcher, options: KeyIndexOptions, key: string): nat {
    (if AllAscii(key) && |key| + ARENA_RECORD_SIZE <= options.buildMemoryBytes / 4 then |key| else |m.Bytes(key)|)
    + ARENA_RECORD_SIZE
  }

  /** The plan covers a row whose normalized form has `len` bytes. */
  predicate PlansFor(row: RowPlan, len: nat) {
    && len <= row.reserveLen
    && (row.expectedLen.Some? ==> row.expectedLen.value == len)
    && len + ARENA_RECORD_SIZE <= row.plannedBytes
  }

  /** Plans a row; an ASCII key is planned by its length without being normalized first. */
  method PlanRow(dict: Dictionary, options: KeyIndexOptions, key: string) returns (r: Result<RowPlan>)
    requires dict.Valid() && ValidOptions(options)
    ensures r.Err? ==> |dict.matcher.Bytes(key)| + ARENA_RECORD_SIZE > options.buildMemoryBytes / 4
    ensures r.Ok? ==> PlansFor(r.value, |dict.matcher.Bytes(key)|)
    ensures r.Ok? ==> r.value.plannedBytes == PlannedBytes(dict.matcher, options, key) <= options.buildMemoryBytes / 4
  {
    var singleLimit := options.buildMemoryBytes / 4;
    assert dict.matcher.Bytes(key) == dict.normalizer.Bytes(key);
    if AllAscii(key) && |key| + ARENA_RECORD_SIZE <= singleLimit {
      AsciiKeysDoNotGrow(dict.normalizer, key);
      return Ok(RowPlan(|key|, None, |key| + ARENA_RECORD_SIZE));
    }
    var normalizedLen :- NormalizedLen(dict.normalizer, key);
    var recordBytes := normalizedLen + ARENA_RECORD_SIZE;
    if recordBytes > singleLimit {
      return Err(LimitExceeded(BuildMemoryBytes));
    }
    return Ok(RowPlan(normalizedLen, Some(normalizedLen), recordBytes));
  }

  // ----- the builder's state -----

  /** The counters of a build. */
  datatype Counters = Counters(bufferBytes: nat, maximumRecordBytes: nat, runCount: nat, textLen: nat, rows: nat)

  /**
   * The rows a build has taken: their normalized texts, their digests, where their sort records are, and what all of
   * them together were charged.
   */
  datatype Progress = Progress(texts: seq<bytes>, digests: seq<nat>, spilled: seq<seq<Rec>>, pending: seq<Rec>, planned: nat)

  const SCRATCH_RECORD_OVERHEAD: nat := RUN_RECORD_SIZE + 12

  /** The largest scratch record of these rows; never less than an empty one. */
  function LargestRecord(texts: seq<bytes>): nat {
    if texts == [] then SCRATCH_RECORD_OVERHEAD
    else Max(LargestRecord(texts[..|texts| - 1]), |texts[|texts| - 1]| + SCRATCH_RECORD_OVERHEAD)
  }

  lemma LargestAppend(texts: seq<bytes>, text: bytes)
    ensures LargestRecord(texts + [text]) == Max(LargestRecord(texts), |text| + SCRATCH_RECORD_OVERHEAD)
  {
    assert (texts + [text])[..|texts|] == texts;
  }

  /** It is the largest: no row exceeds it, and a bound on all rows bounds it. */
  lemma {:induction false} LargestIsLargest(texts: seq<bytes>, bound: nat)
    requires SCRATCH_RECORD_OVERHEAD <= bound
    ensures forall i | 0 <= i < |texts| :: |texts[i]| + SCRATCH_RECORD_OVERHEAD <= LargestRecord(texts)
    ensures LargestRecord(texts) <= bound <==> forall i | 0 <= i < |texts| :: |texts[i]| + SCRATCH_RECORD_OVERHEAD <= bound
  {
    if texts != [] {
      LargestIsLargest(texts[..|texts| - 1], bound);
    }
  }

  /** The counters fit the progress, and the buffer never plans for more than half the build memory. */
  ghost predicate CountersFit(c: Counters, p: Progress, options: KeyIndexOptions) {
    && c.runCount == |p.spilled|
    && c.textLen == |Concat(p.texts)| && c.rows == |p.texts| == |p.digests| <= U32_MAX
    && PlannedOf(p.pending) <= c.bufferBytes <= options.buildMemoryBytes / 2 && (p.pending == [] ==> c.bufferBytes == 0)
    && c.bufferBytes <= p.planned && (p.spilled == [] ==> c.bufferBytes == p.planned)
    && c.maximumRecordBytes == LargestRecord(p.texts)
    && SortState(p.texts, p.spilled, p.pending, options.buildMemoryBytes)
  }

  /** Nothing is spilled unless the rows do not fit the buffer together, and a spill is followed by another record. */
  ghost predicate SpillsWereNeeded(p: Progress, options: KeyIndexOptions) {
    p.spilled != [] ==> p.pending != [] && p.planned > options.buildMemoryBytes / 2
  }

  /** What a build writes to: the three physical sections, the scratch file of runs, and the sort buffer. */
  datatype Writers = Writers(
    text: SectionScratchWriter,
    bounds: SectionScratchWriter,
    raw: SectionScratchWriter,
    runs: BufferedScratchWriter,
    buffer: SortBuffer)
  {
    ghost function Physical(): set<object> {
      Objects(text) + Numbers()
    }

    ghost function Sorting(): set<object> {
      {runs, runs.file, buffer}
    }

    /** No two writers share anything. */
    ghost predicate Apart() {
      && Objects(text) !! Numbers() && Objects(bounds) !! Objects(raw)
      && Physical() !! Sorting()
    }

    ghost function Numbers(): set<object> {
      Objects(bounds) + Objects(raw)
    }
  }

  ghost function Objects(writer: SectionScratchWriter): set<object> {
    {writer, writer.inner, writer.inner.file}
  }

  /** The writer has taken exactly these bytes. */
  ghost predicate Taken(writer: SectionScratchWriter, s: bytes)
    reads Objects(writer)
  {
    writer.Valid() && writer.Written() == s
  }

  /** The three physical sections hold the rows so far. */
  ghost predicate PhysicalHolds(w: Writers, texts: seq<bytes>, digests: seq<nat>)
    reads w.Physical()
  {
    && Taken(w.text, Concat(texts))
    && Taken(w.bounds, LeTable(8, TextBounds(texts)))
    && Taken(w.raw, LeTable(4, digests))
  }

  /** The scratch file and the buffer hold the sort records so far. */
  ghost predicate SortHolds(w: Writers, spilled: seq<seq<Rec>>, pending: seq<Rec>)
    reads w.Sorting()
  {
    && w.runs.Valid() && w.runs.Written() == RunsBytes(spilled)
    && w.buffer.Valid() && w.buffer.Recs() == pending
  }

  /** Writes what is pending as a sorted run. */
  method SpillRun(w: Writers, ghost spilled: seq<seq<Rec>>, ghost pending: seq<Rec>) returns (r: Result<()>)
    requires SortHolds(w, spilled, pending) && PlannedOf(pending) <= U64_MAX
    modifies w.Sorting()
    ensures r.Ok? && SortHolds(w, spilled + [SortRecs(pending)], [])
  {
    PlanCoversBody(pending);
    RunAppended(spilled, SortRecs(pending));
    r := WriteSortedRun(w.runs, w.buffer);
    w.buffer.Clear();
  }

  /** Appends one row to the physical sections. */
  method WriteRow(w: Writers, key: bytes, textLen: nat, digest: nat, ghost texts: seq<bytes>, ghost digests: seq<nat>)
    requires w.Apart() && PhysicalHolds(w, texts, digests) && textLen == |Concat(texts)| + |key|
    modifies w.Physical()
    ensures PhysicalHolds(w, texts + [key], digests + [digest])
  {
    RowBytesAt(8, 4, texts, key, digests, digest);
    WritePieces(w, key, Le(8, textLen), Le(4, digest), Concat(texts), LeTable(8, TextBounds(texts)), LeTable(4, digests));
  }

  method WritePieces(w: Writers, key: bytes, bound: bytes, digest: bytes, ghost textBefore: bytes, ghost boundsBefore: bytes,
                     ghost rawBefore: bytes)
    requires w.Apart() && Taken(w.text, textBefore) && Taken(w.bounds, boundsBefore) && Taken(w.raw, rawBefore)
    modifies w.Physical()
    ensures Taken(w.text, textBefore + key) && Taken(w.bounds, boundsBefore + bound) && Taken(w.raw, rawBefore + digest)
  {
    Append(w.text, key, textBefore);
    WriteNumbers(w, bound, digest, boundsBefore, rawBefore);
  }

  method WriteNumbers(w: Writers, bound: bytes, digest: bytes, ghost boundsBefore: bytes, ghost rawBefore: bytes)
    requires Objects(w.bounds) !! Objects(w.raw) && Taken(w.bounds, boundsBefore) && Taken(w.raw, rawBefore)
    modifies w.Numbers()
    ensures Taken(w.bounds, boundsBefore + bound) && Taken(w.raw, rawBefore + digest)
  {
    Append(w.bounds, bound, boundsBefore);
    Append(w.raw, digest, rawBefore);
  }

  method Append(writer: SectionScratchWriter, piece: bytes, ghost before: bytes)
    requires Taken(writer, before)
    modifies Objects(writer)
    ensures Taken(writer, before + piece)
  {
    writer.Write(piece);
  }

  /** What one more row adds to every section. */
  lemma RowBytesAt(wide: nat, narrow: nat, texts: seq<bytes>, key: bytes, digests: seq<nat>, digest: nat)
    ensures Concat(texts + [key]) == Concat(texts) + key
    ensures LeTable(wide, TextBounds(texts + [key])) == LeTable(wide, TextBounds(texts)) + Le(wide, |Concat(texts)| + |key|)
    ensures LeTable(narrow, digests + [digest]) == LeTable(narrow, digests) + Le(narrow, digest)
  {
    TextsAppend(texts, key);
    LeTableAppend(wide, TextBounds(texts), |Concat(texts)| + |key|);
    LeTableAppend(narrow, digests, digest);
  }

  lemma RunAppended(spilled: seq<seq<Rec>>, run: seq<Rec>)
    ensures RunsBytes(spilled + [run]) == RunsBytes(spilled) + RunBytes(run)
  {
    RunsBytesConcat(spilled, [run]);
    assert [run][1..] == [];
    NilConcat(RunBytes(run));
    assert RunsBytes([run]) == RunBytes(run) + RunsBytes([]);
  }

  lemma NoRowsYet()
    ensures Concat([]) == [] && LeTable(8, TextBounds([])) == Le(8, 0) && LeTable(4, []) == [] && RunsBytes([]) == []
  {
    assert TextBounds([]) == [0];
    assert [0][1..] == [];
    NilConcat(Le(8, 0));
    assert LeTable(8, [0]) == Le(8, 0) + LeTable(8, []);
  }

  // ----- one row -----

  /** Everything on disk and in the buffer is what the progress says. */
  ghost predicate State(w: Writers, p: Progress)
    reads w.Physical(), w.Sorting()
  {
    PhysicalHolds(w, p.texts, p.digests) && SortHolds(w, p.spilled, p.pending)
  }

  /** A row is taken exactly when its record fits a quarter of the build memory and its text the metadata plan. */
  predicate RowFits(text: bytes, textLen: nat, plan: BuildMetadataPlan, options: KeyIndexOptions) {
    && |text| + SCRATCH_RECORD_OVERHEAD <= options.buildMemoryBytes / 4
    && textLen + |text| <= plan.maximumTextBytes
  }

  ghost function Spilled(p: Progress): Progress {
    p.(spilled := p.spilled + [SortRecs(p.pending)], pending := [])
  }

  lemma SpillKeepsCounters(c: Counters, p: Progress, options: KeyIndexOptions)
    requires CountersFit(c, p, options) && p.pending != []
    ensures CountersFit(c.(runCount := c.runCount + 1, bufferBytes := 0), Spilled(p), options)
  {
    SpillKeeps(p.texts, p.spilled, p.pending, options.buildMemoryBytes);
  }

  /** Makes room for a record by spilling the buffer if it would outgrow half the build memory. */
  method MakeRoom(w: Writers, c: Counters, plannedBytes: nat, options: KeyIndexOptions, ghost p: Progress)
    returns (c': Counters, ghost p': Progress)
    requires ValidOptions(options) && w.Apart() && State(w, p) && CountersFit(c, p, options)
    requires plannedBytes <= options.buildMemoryBytes / 4
    modifies w.Sorting()
    ensures State(w, p') && CountersFit(c', p', options)
    ensures c'.bufferBytes + plannedBytes <= options.buildMemoryBytes / 2
    ensures p'.texts == p.texts && p'.digests == p.digests && p'.planned == p.planned && c'.textLen == c.textLen
    ensures p'.spilled != [] ==> p.spilled != [] || p.planned + plannedBytes > options.buildMemoryBytes / 2
  {
    c', p' := c, p;
    if w.buffer.records != [] && c.bufferBytes + plannedBytes > options.buildMemoryBytes / 2 {
      SpillKeepsCounters(c, p, options);
      var spilled := SpillRun(w, p.spilled, p.pending);
      c' := c.(runCount := c.runCount + 1, bufferBytes := 0);
      p' := Spilled(p);
    }
  }

  /** Takes one row of the dictionary. */
  method AddRow(w: Writers, dict: Dictionary, options: KeyIndexOptions, plan: BuildMetadataPlan, key: string, ordinal: nat,
                c: Counters, ghost p: Progress)
    returns (r: Result<Counters>, ghost p': Progress)
    requires dict.Valid() && ValidOptions(options) && plan.maximumTextBytes <= U64_MAX
    requires w.Apart() && State(w, p) && CountersFit(c, p, options) && ordinal == |p.texts| < U32_MAX
    requires SpillsWereNeeded(p, options)
    modifies w.Physical(), w.Sorting()
    ensures r.Ok? <==> RowFits(dict.matcher.Bytes(key), c.textLen, plan, options)
    ensures r.Ok? ==> State(w, p') && CountersFit(r.value, p', options) && SpillsWereNeeded(p', options)
    ensures r.Ok? ==> p'.texts == p.texts + [dict.matcher.Bytes(key)] && p'.digests == p.digests + [DigestOf(dict.digest, key)]
    ensures r.Ok? ==> p'.planned == p.planned + PlannedBytes(dict.matcher, options, key)
  {
    p' := p;
    var planned := PlanRow(dict, options, key);
    if planned.Err? {
      return Err(planned.error), p';
    }
    var room;
    room, p' := MakeRoom(w, c, planned.value.plannedBytes, options, p);
    r, p' := PlaceRow(w, dict, options, plan, key, planned.value, ordinal, room, p');
  }

  /** Takes a row there is room for, if it passes its checks. */
  method PlaceRow(w: Writers, dict: Dictionary, options: KeyIndexOptions, plan: BuildMetadataPlan, key: string, row: RowPlan,
                  ordinal: nat, c: Counters, ghost p: Progress)
    returns (r: Result<Counters>, ghost p': Progress)
    requires dict.Valid() && ValidOptions(options) && plan.maximumTextBytes <= U64_MAX
    requires w.Apart() && State(w, p) && CountersFit(c, p, options) && ordinal == |p.texts| < U32_MAX
    requires PlansFor(row, |dict.matcher.Bytes(key)|) && c.bufferBytes + row.plannedBytes <= options.buildMemoryBytes / 2
    modifies w.Physical(), w.Sorting()
    ensures r.Ok? <==> RowFits(dict.matcher.Bytes(key), c.textLen, plan, options)
    ensures r.Ok? ==> State(w, p') && CountersFit(r.value, p', options)
    ensures r.Ok? ==> p' == WithRow(p, dict.matcher.Bytes(key), DigestOf(dict.digest, key), ordinal, row.plannedBytes)
  {
    p' := p;
    var checked := CheckRow(dict, options, plan, key, row, c.textLen);
    if checked.Err? {
      return Err(checked.error), p';
    }
    var (normalized, textLen) := checked.value;
    NormalizedFacts(dict, key);
    var taken;
    taken, p' := TakeRow(w, normalized, DigestOf(dict.digest, key), ordinal, textLen, row.plannedBytes, c, options, p);
    return Ok(taken), p';
  }

  /** Normalizes a row and checks it against its plan and the ceilings. */
  method CheckRow(dict: Dictionary, options: KeyIndexOptions, plan: BuildMetadataPlan, key: string, row: RowPlan, textLen: nat)
    returns (r: Result<(bytes, nat)>)
    requires dict.Valid() && plan.maximumTextBytes <= U64_MAX && PlansFor(row, |dict.matcher.Bytes(key)|)
    ensures r.Ok? <==> RowFits(dict.matcher.Bytes(key), textLen, plan, options)
    ensures r.Ok? ==> r.value == (dict.matcher.Bytes(key), textLen + |dict.matcher.Bytes(key)|)
  {
    NormalizedFacts(dict, key);
    var normalized := NormalizeBytesInto(dict.normalizer, key, []);
    if row.expectedLen.Some? && row.expectedLen.value != |normalized| {
      return Err(InvalidFormat);
    }
    if |normalized| > row.reserveLen {
      return Err(InvalidFormat);
    }
    if |normalized| + SCRATCH_RECORD_OVERHEAD > options.buildMemoryBytes / 4 {
      return Err(LimitExceeded(BuildMemoryBytes));
    }
    var nextTextLen := textLen + |normalized|;
    if nextTextLen > U64_MAX {
      return Err(InvalidFormat);
    }
    if nextTextLen > plan.maximumTextBytes {
      return Err(LimitExceeded(MetadataBytes));
    }
    return Ok((normalized, nextTextLen));
  }

  lemma NormalizedFacts(dict: Dictionary, key: string)
    requires dict.Valid()
    ensures [] + dict.normalizer.Bytes(key) == dict.matcher.Bytes(key) && IsUtf8(dict.matcher.Bytes(key))
  {
    NilConcat(dict.normalizer.Bytes(key));
    NormalizedBytesAreUtf8(dict.normalizer, key);
  }

  /** Writes a row that fits and keeps its sort record. */
  method TakeRow(w: Writers, key: bytes, digest: nat, ordinal: nat, textLen: nat, plannedBytes: nat, c: Counters,
                 options: KeyIndexOptions, ghost p: Progress)
    returns (c': Counters, ghost p': Progress)
    requires ValidOptions(options) && w.Apart() && State(w, p) && CountersFit(c, p, options) && ordinal == |p.texts| < U32_MAX
    requires IsUtf8(key) && |key| + SCRATCH_RECORD_OVERHEAD <= options.buildMemoryBytes / 4
    requires textLen == c.textLen + |key| && |key| + ARENA_RECORD_SIZE <= plannedBytes
    requires c.bufferBytes + plannedBytes <= options.buildMemoryBytes / 2
    modifies w.Physical(), w.Sorting()
    ensures State(w, p') && CountersFit(c', p', options) && p' == WithRow(p, key, digest, ordinal, plannedBytes)
  {
    StoreRow(w, key, textLen, digest, ordinal, plannedBytes, p);
    p' := WithRow(p, key, digest, ordinal, plannedBytes);
    c' := Counters(c.bufferBytes + plannedBytes, Max(c.maximumRecordBytes, |key| + SCRATCH_RECORD_OVERHEAD), c.runCount,
                   textLen, c.rows + 1);
    RowKeepsCounters(c, c', p, key, digest, ordinal, plannedBytes, options);
  }

  ghost function WithRow(p: Progress, key: bytes, digest: nat, ordinal: nat, plannedBytes: nat): Progress {
    Progress(p.texts + [key], p.digests + [digest], p.spilled, p.pending + [Rec(key, ordinal)], p.planned + plannedBytes)
  }

  lemma RowKeepsCounters(c: Counters, c': Counters, p: Progress, key: bytes, digest: nat, ordinal: nat, plannedBytes: nat,
                         options: KeyIndexOptions)
    requires CountersFit(c, p, options) && ordinal == |p.texts| < U32_MAX && IsUtf8(key)
    requires |key| + SCRATCH_RECORD_OVERHEAD <= options.buildMemoryBytes / 4 && |key| + ARENA_RECORD_SIZE <= plannedBytes
    requires c.bufferBytes + plannedBytes <= options.buildMemoryBytes / 2
    requires c' == Counters(c.bufferBytes + plannedBytes, Max(c.maximumRecordBytes, |key| + SCRATCH_RECORD_OVERHEAD),
                            c.runCount, c.textLen + |key|, c.rows + 1)
    ensures CountersFit(c', WithRow(p, key, digest, ordinal, plannedBytes), options)
  {
    LargestAppend(p.texts, key);
    PushKeeps(p.texts, p.spilled, p.pending, key, options.buildMemoryBytes);
    PlannedAppend(p.pending, Rec(key, ordinal));
    ConcatAppend(p.texts, key);
  }

  method StoreRow(w: Writers, key: bytes, textLen: nat, digest: nat, ordinal: nat, ghost plannedBytes: nat, ghost p: Progress)
    requires w.Apart() && State(w, p) && textLen == |Concat(p.texts)| + |key|
    modifies w.Physical(), w.Sorting()
    ensures State(w, WithRow(p, key, digest, ordinal, plannedBytes))
  {
    WriteRow(w, key, textLen, digest, p.texts, p.digests);
    PushRecord(w, key, ordinal, p.spilled, p.pending);
  }

  method PushRecord(w: Writers, key: bytes, ordinal: nat, ghost spilled: seq<seq<Rec>>, ghost pending: seq<Rec>)
    requires SortHolds(w, spilled, pending)
    modifies w.buffer
    ensures SortHolds(w, spilled, pending + [Rec(key, ordinal)])
  {
    w.buffer.Push(key, ordinal);
  }
}
