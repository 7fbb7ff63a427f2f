/** Closing the sections of a persistent key index and writing its header (src/core/persistent/build.rs). */
module IndexFinish {
  import opened Bytes
  import opened IndexArtifact
  import opened IndexBuild
  import opened IndexFormat
  import opened IndexLayout
  import opened IndexOptions
  import opened IndexWriter
  import opened Merge
  import opened MergePlan
  import opened MetadataPlan
  import opened RecordOrder
  import opened Runs
  import opened Scratch
  import opened Sequences
  import opened SortBuffers
  import opened Wrappers

  // ----- the scratch file -----

  /** The bytes of all runs: a header each, and every record once. */
  lemma {:induction false} RunsLength(runs: seq<seq<Rec>>)
    requires NoneEmpty(runs)
    ensures |runs| <= |Flat(runs)|
    ensures |RunsBytes(runs)| == RUN_HEADER_BYTES * |runs| + |Body(Flat(runs))|
  {
    if runs != [] {
      RunsLength(runs[1..]);
      BodyConcat(runs[0], Flat(runs[1..]));
    }
  }

  lemma {:induction false} RowsLength(texts: seq<bytes>)
    ensures |Body(RowRecs(texts))| == RECORD_OVERHEAD * |texts| + |Concat(texts)|
  {
    if texts == [] {
      assert RowRecs(texts) == [];
    } else {
      var front, last := texts[..|texts| - 1], texts[|texts| - 1];
      RowsLength(front);
      assert RowRecs(texts) == RowRecs(front) + [Rec(last, |front|)];
      BodyAppend(RowRecs(front), Rec(last, |front|));
      ConcatAppend(front, last);
      PrefixGrows(texts, |texts| - 1);
      Whole(texts);
    }
  }

  /** All scratch records together stay inside what a file offset can address. */
  predicate ScratchFits(texts: seq<bytes>) {
    (RUN_HEADER_BYTES + RECORD_OVERHEAD) * |texts| + |Concat(texts)| <= U64_MAX
  }

  lemma RunsFitScratch(texts: seq<bytes>, spilled: seq<seq<Rec>>, maximum: nat)
    requires SortState(texts, spilled, [], maximum)
    ensures |Flat(spilled)| == |texts|
    ensures ScratchFits(texts) ==> |RunsBytes(spilled)| <= U64_MAX
  {
    NilConcat(Flat(spilled));
    RunsLength(spilled);
    RowsLength(texts);
    BodyLengthIsConserved(Flat(spilled), RowRecs(texts));
  }

  /** The rows fit the sort buffer together, or two runs of the largest record fit the build memory. */
  ghost predicate MemoryServes(p: Progress, options: KeyIndexOptions) {
    p.planned <= options.buildMemoryBytes / 2 || TwoRunsFit(LargestRecord(p.texts), options)
  }

  /** It works, or the build memory is reported as too small. */
  ghost predicate ServesOrRefuses<T>(r: Result<T>, serves: bool) {
    if serves then r.Ok? else r == Err(LimitExceeded(BuildMemoryBytes))
  }

  // ----- the order section -----

  /** Writes the order of a build that never spilled. */
  method OrderOfBuffer(w: Writers, options: KeyIndexOptions, ghost texts: seq<bytes>, ghost pending: seq<Rec>)
    returns (section: SectionFile)
    requires ValidOptions(options) && SortHolds(w, [], pending) && SortState(texts, [], pending, options.buildMemoryBytes)
    modifies w.Sorting()
    ensures fresh(section.file)
    ensures HoldsSection(section, LeTable(4, OrderOf(texts)), options.chunkBytes, options.checksumPolicy)
  {
    NilConcat(pending);
    SortOfPermutation(pending, RowRecs(texts));
    var order := NewOrderWriter(options);
    NilConcat(LeTable(4, OrderOf(texts)));
    WriteSortedOrder(order, w.buffer);
    section := order.IntoSection();
  }

  /** Merges the runs of a build that spilled. */
  method OrderOfRuns(w: Writers, options: KeyIndexOptions, c: Counters, ghost p: Progress) returns (r: Result<SectionFile>)
    requires ValidOptions(options) && w.Apart() && SortHolds(w, p.spilled, p.pending) && CountersFit(c, p, options)
    requires p.pending == [] && |p.spilled| > 1 && c.maximumRecordBytes <= options.buildMemoryBytes / 4
    modifies w.Sorting()
    ensures r.Ok? ==> fresh(r.value.file) &&
                      HoldsSection(r.value, LeTable(4, OrderOf(p.texts)), options.chunkBytes, options.checksumPolicy)
    ensures r.Ok? ==> TwoRunsFit(c.maximumRecordBytes, options)
    ensures ScratchFits(p.texts) ==> ServesOrRefuses(r, TwoRunsFit(c.maximumRecordBytes, options))
  {
    RunsFitScratch(p.texts, p.spilled, options.buildMemoryBytes);
    var runsFile := w.runs.IntoFile();
    if |runsFile.contents| > U64_MAX {
      return Err(Io);
    }
    NilConcat(Flat(p.spilled));
    SortOfPermutation(Flat(p.spilled), RowRecs(p.texts));
    PlanSucceedsWhenTwoRunsFit(c.runCount, c.maximumRecordBytes, options);
    r := MergeRuns(runsFile, c.runCount, c.rows, c.maximumRecordBytes, options, p.spilled);
  }

  /** Spills what is left behind earlier runs, so that at least two are merged. */
  method OrderOfSpilled(w: Writers, options: KeyIndexOptions, c: Counters, ghost p: Progress) returns (r: Result<SectionFile>)
    requires ValidOptions(options) && w.Apart() && SortHolds(w, p.spilled, p.pending) && CountersFit(c, p, options)
    requires p.spilled != [] && p.pending != [] && c.maximumRecordBytes <= options.buildMemoryBytes / 4
    modifies w.Sorting()
    ensures r.Ok? ==> fresh(r.value.file) &&
                      HoldsSection(r.value, LeTable(4, OrderOf(p.texts)), options.chunkBytes, options.checksumPolicy)
    ensures r.Ok? ==> TwoRunsFit(c.maximumRecordBytes, options)
    ensures ScratchFits(p.texts) ==> ServesOrRefuses(r, TwoRunsFit(c.maximumRecordBytes, options))
  {
    var c', p' := c, p;
    if w.buffer.records != [] {
      SpillKeepsCounters(c, p, options);
      var spilled := SpillRun(w, p.spilled, p.pending);
      c' := c.(runCount := c.runCount + 1, bufferBytes := 0);
      p' := Spilled(p);
    }
    r := OrderOfRuns(w, options, c', p');
  }

  /** The order section, with or without runs: the one sorted permutation of the rows. */
  method FinishOrder(w: Writers, options: KeyIndexOptions, c: Counters, ghost p: Progress) returns (r: Result<SectionFile>)
    requires ValidOptions(options) && w.Apart() && SortHolds(w, p.spilled, p.pending) && CountersFit(c, p, options)
    requires SpillsWereNeeded(p, options) && c.maximumRecordBytes <= options.buildMemoryBytes / 4
    modifies w.Sorting()
    ensures r.Ok? ==> fresh(r.value.file) &&
                      HoldsSection(r.value, LeTable(4, OrderOf(p.texts)), options.chunkBytes, options.checksumPolicy)
    ensures r.Ok? ==> MemoryServes(p, options)
    ensures ScratchFits(p.texts) ==> ServesOrRefuses(r, MemoryServes(p, options))
  {
    if c.runCount == 0 {
      var section := OrderOfBuffer(w, options, p.texts, p.pending);
      return Ok(section);
    }
    r := OrderOfSpilled(w, options, c, p);
  }

  // ----- the physical sections -----

  /** The writer cuts chunks as the options say. */
  ghost predicate Configured(writer: SectionScratchWriter, options: KeyIndexOptions) {
    writer.chunkBytes == options.chunkBytes > 0 && writer.policy == options.checksumPolicy
  }

  method FinishSection(writer: SectionScratchWriter, options: KeyIndexOptions, ghost s: bytes) returns (section: SectionFile)
    requires Taken(writer, s) && Configured(writer, options)
    modifies Objects(writer)
    ensures section.file == writer.inner.file && HoldsSection(section, s, options.chunkBytes, options.checksumPolicy)
  {
    section := writer.IntoSection();
  }

  method FinishNumbers(w: Writers, options: KeyIndexOptions, ghost boundsBytes: bytes, ghost rawBytes: bytes)
    returns (bounds: SectionFile, raw: SectionFile)
    requires Objects(w.bounds) !! Objects(w.raw) && Taken(w.bounds, boundsBytes) && Taken(w.raw, rawBytes)
    requires Configured(w.bounds, options) && Configured(w.raw, options)
    modifies w.Numbers()
    ensures bounds.file == w.bounds.inner.file && raw.file == w.raw.inner.file
    ensures HoldsSection(bounds, boundsBytes, options.chunkBytes, options.checksumPolicy)
    ensures HoldsSection(raw, rawBytes, options.chunkBytes, options.checksumPolicy)
  {
    bounds := FinishSection(w.bounds, options, boundsBytes);
    raw := FinishSection(w.raw, options, rawBytes);
  }

  ghost predicate AllConfigured(w: Writers, options: KeyIndexOptions) {
    Configured(w.text, options) && Configured(w.bounds, options) && Configured(w.raw, options)
  }

  /** The finished sections and what they hold. */
  ghost predicate ThreeHold(text: SectionFile, bounds: SectionFile, raw: SectionFile, texts: seq<bytes>, digests: seq<nat>,
                            options: KeyIndexOptions)
    requires options.chunkBytes > 0
    reads text.file, bounds.file, raw.file
  {
    && HoldsSection(text, Concat(texts), options.chunkBytes, options.checksumPolicy)
    && HoldsSection(bounds, LeTable(8, TextBounds(texts)), options.chunkBytes, options.checksumPolicy)
    && HoldsSection(raw, LeTable(4, digests), options.chunkBytes, options.checksumPolicy)
  }

  method FinishPhysical(w: Writers, options: KeyIndexOptions, ghost texts: seq<bytes>, ghost digests: seq<nat>)
    returns (text: SectionFile, bounds: SectionFile, raw: SectionFile)
    requires ValidOptions(options) && w.Apart() && PhysicalHolds(w, texts, digests) && AllConfigured(w, options)
    modifies w.Physical()
    ensures text.file == w.text.inner.file && bounds.file == w.bounds.inner.file && raw.file == w.raw.inner.file
    ensures ThreeHold(text, bounds, raw, texts, digests, options)
  {
    text := FinishSection(w.text, options, Concat(texts));
    bounds, raw := FinishNumbers(w, options, LeTable(8, TextBounds(texts)), LeTable(4, digests));
  }

  // ----- the header -----

  /** Sections that hold their parts have one checksum slot per chunk. */
  lemma HeldSlotsMatch(sections: seq<SectionFile>, parts: seq<bytes>, options: KeyIndexOptions)
    requires ValidOptions(options) && SectionsHold(sections, parts, options.chunkBytes, options.checksumPolicy)
    ensures SectionLens(sections) == LengthsOf(parts)
    ensures (forall i | 0 <= i < |parts| :: |parts[i]| + (options.chunkBytes - 1) <= U64_MAX) ==>
              SlotsMatch(sections, options.chunkBytes)
  {
    forall i | 0 <= i < |parts| && |parts[i]| + (options.chunkBytes - 1) <= U64_MAX
      ensures ChunkCountChecked(sections[i].len, options.chunkBytes) == Ok(|sections[i].checksums|)
    {
      ChecksumTableFacts(parts[i], options.chunkBytes, options.checksumPolicy);
      ChunkCountCheckedIs(|parts[i]|, options.chunkBytes);
    }
  }

  /** A header built from sections that hold their parts makes them ready to write. */
  lemma BuiltIsRepresented(sections: seq<SectionFile>, parts: seq<bytes>, header: bytes, h: IndexHeader, identity: SourceIdentity,
                           textLen: nat, options: KeyIndexOptions)
    requires ValidOptions(options) && |parts| == SECTION_COUNT
    requires SectionsHold(sections, parts, options.chunkBytes, options.checksumPolicy)
    requires h == HeaderOf(SectionLens(sections), identity, textLen, options.chunkBytes) && LaidOut(h)
    requires |header| == HEADER_BYTES && Encodes(header, h) && HeaderChecksumOk(header, options.checksumPolicy)
    ensures Represented(BuiltIndex(header, sections, h), parts, options.checksumPolicy)
  {
    HeldSlotsMatch(sections, parts, options);
    SlotsOfSections(sections, parts, options.chunkBytes, options.checksumPolicy, SECTION_COUNT);
    Whole(sections);
    Whole(LengthsOf(parts));
    LensOfHeader(LengthsOf(parts), identity, textLen, options.chunkBytes);
  }

  lemma LensOfHeader(lens: seq<nat>, identity: SourceIdentity, textLen: nat, chunk: nat)
    requires chunk > 0
    ensures LensOf(HeaderOf(lens, identity, textLen, chunk).sections) == lens
  {
    var h := HeaderOf(lens, identity, textLen, chunk);
    forall i | 0 <= i < |lens|
      ensures h.sections[i].len == lens[i]
    {
      LayAt(TableEnd(h.checksumCount), 0, lens, chunk, i);
    }
  }

  /** The ceilings of the finished index. */
  predicate FinishedFits(rows: nat, textLen: nat, options: KeyIndexOptions)
    requires ValidOptions(options)
  {
    WithinCeilings(SectionLengths(rows, textLen), options) && textLen + (options.chunkBytes - 1) <= U64_MAX
  }

  /** Builds the header over the four sections. */
  method FinishHeader(sections: seq<SectionFile>, identity: SourceIdentity, textLen: nat, options: KeyIndexOptions,
                      ghost texts: seq<bytes>, ghost digests: seq<nat>)
    returns (r: Result<BuiltIndex>)
    requires ValidOptions(options) && FitsIdentity(identity) && textLen == |Concat(texts)| <= U64_MAX
    requires |texts| == |digests| <= U32_MAX
    requires SectionsHold(sections, SectionsOf(texts, digests), options.chunkBytes, options.checksumPolicy)
    ensures r.Ok? ==>
              && r.value.sections == sections
              && Represented(r.value, SectionsOf(texts, digests), options.checksumPolicy)
              && r.value.layout == HeaderOf(SectionLengths(|texts|, textLen), identity, textLen, options.chunkBytes)
              && FinishedFits(|texts|, textLen, options)
    ensures FinishedFits(|texts|, textLen, options) ==> r.Ok?
  {
    ghost var parts := SectionsOf(texts, digests);
    PartsFitHeader(sections, texts, digests, options);
    var built :- BuildHeader(sections, identity, textLen, options);
    BuiltIsRepresented(sections, parts, built.0, built.1, identity, textLen, options);
    return Ok(BuiltIndex(built.0, sections, built.1));
  }

  /** What the header needs to know of the sections. */
  lemma PartsFitHeader(sections: seq<SectionFile>, texts: seq<bytes>, digests: seq<nat>, options: KeyIndexOptions)
    requires ValidOptions(options) && |texts| == |digests| <= U32_MAX
    requires SectionsHold(sections, SectionsOf(texts, digests), options.chunkBytes, options.checksumPolicy)
    ensures |sections| == SECTION_COUNT && SectionLens(sections) == SectionLengths(|texts|, |Concat(texts)|)
    ensures FinishedFits(|texts|, |Concat(texts)|, options) ==> SlotsMatch(sections, options.chunkBytes)
    ensures ChunkCountChecked(sections[0].len, options.chunkBytes).Ok? ==> |Concat(texts)| + (options.chunkBytes - 1) <= U64_MAX
  {
    HeldSlotsMatch(sections, SectionsOf(texts, digests), options);
    OrderOfIsOrder(texts);
    assert LengthsOf(SectionsOf(texts, digests)) == SectionLengths(|texts|, |Concat(texts)|);
  }
}
