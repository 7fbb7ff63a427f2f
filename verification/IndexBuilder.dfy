/**
 * The whole build of a persistent key index (src/core/persistent/build.rs): every block of the dictionary, the
 * sorted order, the header.
 */
module IndexBuilder {
  import opened Bytes
  import opened Dictionary
  import opened IndexArtifact
  import opened IndexBuild
  import opened IndexFinish
  import opened IndexLayout
  import opened IndexOptions
  import opened IndexWriter
  import opened KeyBlocks
  import opened Locator
  import opened LookupSpec
  import opened MergePlan
  import opened MetadataPlan
  import opened RecordOrder
  import opened Scratch
  import opened Sequences
  import opened SortBuffers
  import opened Wrappers

  /** The normalized texts and digests of rows. */
  ghost function TextsOfRows(dict: Dictionary, rows: seq<Row>): seq<bytes> {
    TextsOf(dict.matcher, KeysOf(rows))
  }

  ghost function DigestsOfRows(dict: Dictionary, rows: seq<Row>): seq<nat> {
    DigestsOf(dict.digest, KeysOf(rows))
  }

  /** The progress is that of these rows. */
  ghost predicate HasTaken(dict: Dictionary, p: Progress, rows: seq<Row>) {
    p.texts == TextsOfRows(dict, rows) && p.digests == DigestsOfRows(dict, rows)
  }

  /** What the build charges all rows together. */
  ghost function SumPlanned(m: Matcher, options: KeyIndexOptions, keys: seq<string>): nat {
    if keys == [] then 0
    else SumPlanned(m, options, keys[..|keys| - 1]) + PlannedBytes(m, options, keys[|keys| - 1])
  }

  /** The progress was charged for these rows, and spilled only when it had to. */
  ghost predicate Charged(dict: Dictionary, options: KeyIndexOptions, p: Progress, rows: seq<Row>) {
    p.planned == SumPlanned(dict.matcher, options, KeysOf(rows)) && SpillsWereNeeded(p, options)
  }

  lemma ChargedStep(dict: Dictionary, options: KeyIndexOptions, p: Progress, p': Progress, rows: seq<Row>, row: Row)
    requires Charged(dict, options, p, rows) && SpillsWereNeeded(p', options)
    requires p'.planned == p.planned + PlannedBytes(dict.matcher, options, row.key)
    ensures Charged(dict, options, p', rows + [row])
  {
    KeysAppend(rows, row);
    assert (KeysOf(rows) + [row.key])[..|rows|] == KeysOf(rows);
  }

  lemma TakenStep(dict: Dictionary, p: Progress, p': Progress, rows: seq<Row>, row: Row)
    requires HasTaken(dict, p, rows)
    requires p'.texts == p.texts + [dict.matcher.Bytes(row.key)] && p'.digests == p.digests + [DigestOf(dict.digest, row.key)]
    ensures HasTaken(dict, p', rows + [row])
  {
    KeysAppend(rows, row);
    TextsOfAppend(dict.matcher, KeysOf(rows), row.key);
    DigestsAppend(dict.digest, KeysOf(rows), row.key);
  }

  /** Every row of the dictionary is small enough, and all of them keep the metadata plan. */
  ghost predicate RowsFit(dict: Dictionary, plan: BuildMetadataPlan, options: KeyIndexOptions)
    requires dict.Valid() && dict.AllGood()
  {
    RowsKeepQuarter(dict, options) && |Concat(TextsOf(dict.matcher, dict.Keys()))| <= plan.maximumTextBytes
  }

  ghost predicate Acceptable(dict: Dictionary, plan: BuildMetadataPlan, options: KeyIndexOptions)
    requires dict.Valid()
  {
    dict.AllGood() && RowsFit(dict, plan, options)
  }

  /** In an acceptable dictionary every next row fits. */
  lemma NextFits(dict: Dictionary, plan: BuildMetadataPlan, options: KeyIndexOptions, rows: seq<Row>, row: Row)
    requires dict.Valid() && Acceptable(dict, plan, options) && rows + [row] <= dict.AllRows()
    ensures RowFits(dict.matcher.Bytes(row.key), |Concat(TextsOfRows(dict, rows))|, plan, options)
  {
    var texts, i := TextsOf(dict.matcher, dict.Keys()), |rows|;
    assert dict.AllRows()[i] == row && dict.AllRows()[..i] == rows;
    assert texts[i] == dict.matcher.Bytes(row.key);
    assert texts[..i] == TextsOfRows(dict, rows);
    ConcatAt(texts, i);
  }

  /** When every row so far fitted, all of them do. */
  ghost predicate Fitted(p: Progress, plan: BuildMetadataPlan, options: KeyIndexOptions) {
    && (forall i | 0 <= i < |p.texts| :: |p.texts[i]| + SCRATCH_RECORD_OVERHEAD <= options.buildMemoryBytes / 4)
    && |Concat(p.texts)| <= plan.maximumTextBytes
  }

  lemma FittedStep(p: Progress, p': Progress, text: bytes, plan: BuildMetadataPlan, options: KeyIndexOptions)
    requires Fitted(p, plan, options) && p'.texts == p.texts + [text] && RowFits(text, |Concat(p.texts)|, plan, options)
    ensures Fitted(p', plan, options)
  {
    ConcatAppend(p.texts, text);
  }

  /** Whether what a build keeps between rows fits together. */
  datatype Books = Balanced | Broken

  /** The books of a build that has taken `rows`: a value, so that every step hands them on as one fact. */
  ghost function BooksOf(w: Writers, dict: Dictionary, plan: BuildMetadataPlan, options: KeyIndexOptions, c: Counters,
                         p: Progress, rows: seq<Row>): Books
    reads w.Physical(), w.Sorting()
  {
    if && w.Apart() && State(w, p) && CountersFit(c, p, options)
       && HasTaken(dict, p, rows) && Fitted(p, plan, options) && Charged(dict, options, p, rows)
    then Balanced else Broken
  }

  lemma OpenBooks(w: Writers, dict: Dictionary, plan: BuildMetadataPlan, options: KeyIndexOptions, c: Counters, p: Progress,
                  rows: seq<Row>)
    requires BooksOf(w, dict, plan, options, c, p, rows) == Balanced
    ensures w.Apart() && State(w, p) && CountersFit(c, p, options)
    ensures HasTaken(dict, p, rows) && Fitted(p, plan, options) && Charged(dict, options, p, rows)
  {
  }

  /** Takes row `i` of a decoded block. */
  method AddBlockRow(w: Writers, dict: Dictionary, plan: BuildMetadataPlan, options: KeyIndexOptions, entry: Row, ordinal: nat,
                     c: Counters, ghost p: Progress, ghost rows: seq<Row>)
    returns (r: Result<Counters>, ghost p': Progress)
    requires dict.Valid() && ValidOptions(options) && plan.maximumTextBytes <= U64_MAX
    requires BooksOf(w, dict, plan, options, c, p, rows) == Balanced && ordinal == |rows| < U32_MAX
    modifies w.Physical(), w.Sorting()
    ensures r.Ok? <==> RowFits(dict.matcher.Bytes(entry.key), |Concat(TextsOfRows(dict, rows))|, plan, options)
    ensures r.Ok? ==> BooksOf(w, dict, plan, options, r.value, p', rows + [entry]) == Balanced
  {
    r, p' := AddRow(w, dict, options, plan, entry.key, ordinal, c, p);
    if r.Ok? {
      TakenStep(dict, p, p', rows, entry);
      ChargedStep(dict, options, p, p', rows, entry);
      FittedStep(p, p', dict.matcher.Bytes(entry.key), plan, options);
    }
  }

  /** Takes the rows of one block. */
  method AddBlockRows(w: Writers, dict: Dictionary, plan: BuildMetadataPlan, options: KeyIndexOptions, b: nat,
                      entries: seq<Row>, c: Counters, ghost p: Progress)
    returns (r: Result<Counters>, ghost p': Progress)
    requires dict.Valid() && ValidOptions(options) && plan.maximumTextBytes <= U64_MAX && dict.totalEntries <= U32_MAX
    requires dict.GoodBefore(b + 1) && dict.CheckedBlock(b) == Ok(entries)
    requires BooksOf(w, dict, plan, options, c, p, dict.RowsBefore(b)) == Balanced
    modifies w.Physical(), w.Sorting()
    ensures r.Ok? ==> BooksOf(w, dict, plan, options, r.value, p', dict.RowsBefore(b + 1)) == Balanced
    ensures Acceptable(dict, plan, options) ==> r.Ok?
  {
    var counters := c;
    p' := p;
    ghost var before := dict.RowsBefore(b);
    NilConcat(before);
    for i := 0 to |entries|
      invariant BooksOf(w, dict, plan, options, counters, p', before + entries[..i]) == Balanced
    {
      BlockRowIsNext(dict, plan, options, b, entries, i);
      var ordinal := dict.keyBlocks[b].entryStartIndex + i;
      var added;
      added, p' := AddBlockRow(w, dict, plan, options, entries[i], ordinal, counters, p', before + entries[..i]);
      if added.Err? {
        return Err(added.error), p';
      }
      counters := added.value;
    }
    Whole(entries);
    return Ok(counters), p';
  }

  lemma BlockRowIsNext(dict: Dictionary, plan: BuildMetadataPlan, options: KeyIndexOptions, b: nat, entries: seq<Row>, i: nat)
    requires dict.Valid() && dict.totalEntries <= U32_MAX
    requires dict.GoodBefore(b + 1) && dict.CheckedBlock(b) == Ok(entries) && i < |entries|
    ensures var rows := dict.RowsBefore(b) + entries[..i];
            && dict.RowsBefore(b) + entries[..i + 1] == rows + [entries[i]]
            && |rows| == dict.keyBlocks[b].entryStartIndex + i < U32_MAX
            && (Acceptable(dict, plan, options) ==>
                RowFits(dict.matcher.Bytes(entries[i].key), |Concat(TextsOfRows(dict, rows))|, plan, options))
  {
    RowAppended(dict.RowsBefore(b), entries, i);
    dict.RowsBeforeLength(b);
    dict.BlockLength(b);
    CoversStep(dict.keyBlocks, 0, dict.totalEntries, b);
    if Acceptable(dict, plan, options) {
      EntryInAll(dict, b, entries, i);
      NextFits(dict, plan, options, dict.RowsBefore(b) + entries[..i], entries[i]);
    }
  }

  /** Takes every row of the dictionary; it succeeds exactly when all blocks are good and all rows fit. */
  method AddAllRows(file: MdictFile, w: Writers, plan: BuildMetadataPlan, options: KeyIndexOptions, c: Counters,
                    ghost p: Progress)
    returns (r: Result<Counters>, ghost p': Progress)
    requires file.Valid() && ValidOptions(options) && plan.maximumTextBytes <= U64_MAX && file.dict.totalEntries <= U32_MAX
    requires BooksOf(w, file.dict, plan, options, c, p, []) == Balanced && file !in w.Physical() && file !in w.Sorting()
    modifies file, w.Physical(), w.Sorting()
    ensures file.Valid()
    ensures r.Ok? <==> Acceptable(file.dict, plan, options)
    ensures r.Ok? ==> BooksOf(w, file.dict, plan, options, r.value, p', file.dict.AllRows()) == Balanced
  {
    var dict := file.dict;
    var counters := c;
    p' := p;
    for blockIndex := 0 to |dict.keyBlocks|
      invariant file.Valid() && dict.GoodBefore(blockIndex)
      invariant BooksOf(w, dict, plan, options, counters, p', dict.RowsBefore(blockIndex)) == Balanced
    {
      var added;
      added, p' := AddDecodedBlock(file, w, plan, options, blockIndex, counters, p');
      if added.Err? {
        return Err(added.error), p';
      }
      counters := added.value;
    }
    AllRowsFitted(dict, p', plan, options);
    return Ok(counters), p';
  }

  /** Decodes the block behind good ones. */
  method DecodeGood(file: MdictFile, b: nat) returns (r: Result<seq<Row>>)
    requires file.Valid() && b < |file.dict.keyBlocks| && file.dict.GoodBefore(b)
    modifies file
    ensures file.Valid()
    ensures r.Ok? ==> file.dict.GoodBefore(b + 1) && file.dict.CheckedBlock(b) == r
    ensures file.dict.AllGood() ==> r.Ok?
  {
    r := file.DecodeKeyBlock(b);
  }

  /** Decodes the block behind good ones; the books of the build are not touched. */
  method DecodeNext(file: MdictFile, b: nat, ghost w: Writers, ghost plan: BuildMetadataPlan, ghost options: KeyIndexOptions,
                    ghost c: Counters, ghost p: Progress, ghost rows: seq<Row>)
    returns (r: Result<seq<Row>>)
    requires file.Valid() && b < |file.dict.keyBlocks| && file.dict.GoodBefore(b)
    requires BooksOf(w, file.dict, plan, options, c, p, rows) == Balanced
    requires file !in w.Physical() && file !in w.Sorting()
    modifies file
    ensures file.Valid()
    ensures BooksOf(w, file.dict, plan, options, c, p, rows) == Balanced
    ensures r.Ok? ==> file.dict.GoodBefore(b + 1) && file.dict.CheckedBlock(b) == r
    ensures file.dict.AllGood() ==> r.Ok?
  {
    r := DecodeGood(file, b);
  }

  /** Decodes block `b` and takes its rows. */
  method AddDecodedBlock(file: MdictFile, w: Writers, plan: BuildMetadataPlan, options: KeyIndexOptions, b: nat, c: Counters,
                         ghost p: Progress)
    returns (r: Result<Counters>, ghost p': Progress)
    requires file.Valid() && ValidOptions(options) && plan.maximumTextBytes <= U64_MAX && file.dict.totalEntries <= U32_MAX
    requires b < |file.dict.keyBlocks| && file.dict.GoodBefore(b)
    requires BooksOf(w, file.dict, plan, options, c, p, file.dict.RowsBefore(b)) == Balanced
    requires file !in w.Physical() && file !in w.Sorting()
    modifies file, w.Physical(), w.Sorting()
    ensures file.Valid()
    ensures r.Ok? ==> file.dict.GoodBefore(b + 1)
    ensures r.Ok? ==> BooksOf(w, file.dict, plan, options, r.value, p', file.dict.RowsBefore(b + 1)) == Balanced
    ensures Acceptable(file.dict, plan, options) ==> r.Ok?
  {
    p' := p;
    var entries := DecodeNext(file, b, w, plan, options, c, p, file.dict.RowsBefore(b));
    if entries.Err? {
      return Err(entries.error), p';
    }
    r, p' := AddBlockRows(w, file.dict, plan, options, b, entries.value, c, p);
  }

  lemma AllRowsFitted(dict: Dictionary, p: Progress, plan: BuildMetadataPlan, options: KeyIndexOptions)
    requires dict.Valid() && dict.AllGood() && HasTaken(dict, p, dict.AllRows()) && Fitted(p, plan, options)
    ensures RowsFit(dict, plan, options)
  {
  }

  // ----- the whole build -----

  method NewSection(options: KeyIndexOptions) returns (writer: SectionScratchWriter)
    requires ValidOptions(options)
    ensures fresh(Objects(writer)) && Taken(writer, []) && Configured(writer, options)
  {
    var file := new File();
    writer := new SectionScratchWriter(file, ScratchWriteBufferBytes(options), options.chunkBytes, options.checksumPolicy);
  }

  method NewSorting(options: KeyIndexOptions) returns (runs: BufferedScratchWriter, buffer: SortBuffer)
    requires ValidOptions(options)
    ensures fresh(runs) && fresh(runs.file) && fresh(buffer)
    ensures runs.Valid() && runs.Written() == [] && buffer.Valid() && buffer.Recs() == []
  {
    var file := new File();
    runs := new BufferedScratchWriter(file, ScratchWriteBufferBytes(options));
    buffer := new SortBuffer();
  }

  const NO_ROWS: Counters := Counters(0, SCRATCH_RECORD_OVERHEAD, 0, 0, 0)

  /** The writers of the numeric sections; the bounds start with zero. */
  method NewNumbers(options: KeyIndexOptions) returns (bounds: SectionScratchWriter, raw: SectionScratchWriter)
    requires ValidOptions(options)
    ensures fresh(Objects(bounds)) && fresh(Objects(raw)) && Objects(bounds) !! Objects(raw)
    ensures Taken(bounds, Le(8, 0)) && Taken(raw, []) && Configured(bounds, options) && Configured(raw, options)
  {
    bounds := NewSection(options);
    NilConcat(Le(8, 0));
    Append(bounds, Le(8, 0), []);
    raw := NewSection(options);
  }

  method NewPhysical(options: KeyIndexOptions)
    returns (text: SectionScratchWriter, bounds: SectionScratchWriter, raw: SectionScratchWriter)
    requires ValidOptions(options)
    ensures fresh(Objects(text)) && fresh(Objects(bounds)) && fresh(Objects(raw))
    ensures Objects(text) !! Objects(bounds) + Objects(raw) && Objects(bounds) !! Objects(raw)
    ensures Taken(text, []) && Taken(bounds, Le(8, 0)) && Taken(raw, [])
    ensures Configured(text, options) && Configured(bounds, options) && Configured(raw, options)
  {
    bounds, raw := NewNumbers(options);
    text := NewSection(options);
  }

  /** The writers of a build before its first row. */
  method NewWriters(options: KeyIndexOptions) returns (w: Writers)
    requires ValidOptions(options)
    ensures fresh(w.Physical()) && fresh(w.Sorting()) && w.Apart() && AllConfigured(w, options)
    ensures State(w, Progress([], [], [], [], 0))
  {
    NoRowsYet();
    var text, bounds, raw := NewPhysical(options);
    var runs, buffer := NewSorting(options);
    w := Writers(text, bounds, raw, runs, buffer);
  }

  lemma NothingBuilt(w: Writers, dict: Dictionary, plan: BuildMetadataPlan, options: KeyIndexOptions)
    requires ValidOptions(options) && w.Apart() && State(w, Progress([], [], [], [], 0))
    ensures BooksOf(w, dict, plan, options, NO_ROWS, Progress([], [], [], [], 0), []) == Balanced
  {
    NothingSorted(options.buildMemoryBytes);
    assert KeysOf([]) == [];
    assert TextsOfRows(dict, []) == [] && DigestsOfRows(dict, []) == [];
  }

  /** What a finished build of these rows is. */
  ghost predicate IsBuilt(built: BuiltIndex, dict: Dictionary, options: KeyIndexOptions)
    requires dict.Valid() && dict.AllGood() && ValidOptions(options)
    reads set s | s in built.sections :: s.file
  {
    var texts := TextsOf(dict.matcher, dict.Keys());
    && Represented(built, SectionsOf(texts, DigestsOf(dict.digest, dict.Keys())), options.checksumPolicy)
    && built.layout == HeaderOf(SectionLengths(|texts|, |Concat(texts)|), dict.identity, |Concat(texts)|, options.chunkBytes)
    && FinishedFits(|texts|, |Concat(texts)|, options)
  }

  /** Closes the sections, sorts, and builds the header. */
  method FinishBuild(w: Writers, dict: Dictionary, options: KeyIndexOptions, plan: BuildMetadataPlan, c: Counters,
                     ghost p: Progress)
    returns (r: Result<BuiltIndex>)
    requires dict.Valid() && dict.AllGood() && ValidOptions(options) && FitsIdentity(dict.identity)
    requires plan.maximumTextBytes <= U64_MAX && AllConfigured(w, options)
    requires BooksOf(w, dict, plan, options, c, p, dict.AllRows()) == Balanced
    modifies w.Physical(), w.Sorting()
    ensures r.Ok? ==> IsBuilt(r.value, dict, options) && FilesOf(r.value.sections, w) && fresh(r.value.sections[3].file)
    ensures r.Ok? ==> DistinctFiles(r.value.sections)
    ensures r.Ok? ==> MemoryServes(p, options)
    ensures ScratchFits(p.texts) && FinishedFits(|p.texts|, |Concat(p.texts)|, options) ==>
              ServesOrRefuses(r, MemoryServes(p, options))
  {
    dict.RowsBeforeLength(|dict.keyBlocks|);
    if c.rows != dict.totalEntries {
      return Err(InvalidFormat);
    }
    var sections :- CloseSections(w, dict, plan, options, c, p, dict.AllRows());
    r := FinishSections(sections, dict, options, c.textLen, p.texts, p.digests);
  }

  /** Builds the header over the four closed sections. */
  method FinishSections(sections: seq<SectionFile>, dict: Dictionary, options: KeyIndexOptions, textLen: nat,
                        ghost texts: seq<bytes>, ghost digests: seq<nat>)
    returns (r: Result<BuiltIndex>)
    requires dict.Valid() && dict.AllGood() && ValidOptions(options) && FitsIdentity(dict.identity)
    requires texts == TextsOfRows(dict, dict.AllRows()) && digests == DigestsOfRows(dict, dict.AllRows())
    requires textLen == |Concat(texts)| <= U64_MAX && |texts| == |digests| <= U32_MAX
    requires SectionsHold(sections, SectionsOf(texts, digests), options.chunkBytes, options.checksumPolicy)
    ensures r.Ok? ==> r.value.sections == sections && IsBuilt(r.value, dict, options)
    ensures FinishedFits(|texts|, textLen, options) ==> r.Ok?
  {
    r := FinishHeader(sections, dict.identity, textLen, options, texts, digests);
  }

  /** Closes the four sections. */
  method CloseSections(w: Writers, ghost dict: Dictionary, ghost plan: BuildMetadataPlan, options: KeyIndexOptions,
                       c: Counters, ghost p: Progress, ghost rows: seq<Row>)
    returns (r: Result<seq<SectionFile>>)
    requires ValidOptions(options) && AllConfigured(w, options) && BooksOf(w, dict, plan, options, c, p, rows) == Balanced
    modifies w.Physical(), w.Sorting()
    ensures r.Ok? ==> SectionsHold(r.value, SectionsOf(p.texts, p.digests), options.chunkBytes, options.checksumPolicy)
    ensures r.Ok? ==> FilesOf(r.value, w) && fresh(r.value[3].file) && DistinctFiles(r.value)
    ensures r.Ok? ==> MemoryServes(p, options)
    ensures ScratchFits(p.texts) ==> ServesOrRefuses(r, MemoryServes(p, options))
  {
    OpenBooks(w, dict, plan, options, c, p, rows);
    LargestIsLargest(p.texts, options.buildMemoryBytes / 4);
    var closed :- CloseAll(w, options, c, p);
    FourTogether(w, closed.0, closed.1, closed.2, closed.3, p.texts, p.digests, options);
    return Ok([closed.0, closed.1, closed.2, closed.3]);
  }

  lemma FourTogether(w: Writers, text: SectionFile, bounds: SectionFile, raw: SectionFile, order: SectionFile,
                     texts: seq<bytes>, digests: seq<nat>, options: KeyIndexOptions)
    requires w.Apart() && FilesAre(w, text, bounds, raw) && Differs(order, text, bounds, raw)
    requires options.chunkBytes > 0 && ThreeHold(text, bounds, raw, texts, digests, options)
    requires HoldsSection(order, LeTable(4, OrderOf(texts)), options.chunkBytes, options.checksumPolicy)
    ensures var sections := [text, bounds, raw, order];
            && SectionsHold(sections, SectionsOf(texts, digests), options.chunkBytes, options.checksumPolicy)
            && DistinctFiles(sections) && FilesOf(sections, w)
  {
    FourDistinct(w, text, bounds, raw, order);
    FourHold(text, bounds, raw, order, texts, digests, options);
  }

  method CloseAll(w: Writers, options: KeyIndexOptions, c: Counters, ghost p: Progress)
    returns (r: Result<(SectionFile, SectionFile, SectionFile, SectionFile)>)
    requires ValidOptions(options) && w.Apart() && State(w, p) && CountersFit(c, p, options) && AllConfigured(w, options)
    requires SpillsWereNeeded(p, options) && c.maximumRecordBytes <= options.buildMemoryBytes / 4
    modifies w.Physical(), w.Sorting()
    ensures r.Ok? ==> ThreeHold(r.value.0, r.value.1, r.value.2, p.texts, p.digests, options)
    ensures r.Ok? ==> HoldsSection(r.value.3, LeTable(4, OrderOf(p.texts)), options.chunkBytes, options.checksumPolicy)
    ensures r.Ok? ==> FilesAre(w, r.value.0, r.value.1, r.value.2)
    ensures r.Ok? ==> fresh(r.value.3.file)
    ensures r.Ok? ==> Differs(r.value.3, r.value.0, r.value.1, r.value.2)
    ensures r.Ok? ==> MemoryServes(p, options)
    ensures ScratchFits(p.texts) ==> ServesOrRefuses(r, MemoryServes(p, options))
  {
    var text, bounds, raw := FinishPhysical(w, options, p.texts, p.digests);
    if bounds.len != 8 * (c.rows + 1) || raw.len != 4 * c.rows {
      return Err(InvalidFormat);
    }
    var order :- FinishOrder(w, options, c, p);
    return Ok((text, bounds, raw, order));
  }

  ghost predicate Differs(order: SectionFile, text: SectionFile, bounds: SectionFile, raw: SectionFile) {
    order.file != text.file && order.file != bounds.file && order.file != raw.file
  }

  ghost predicate FilesAre(w: Writers, text: SectionFile, bounds: SectionFile, raw: SectionFile) {
    text.file == w.text.inner.file && bounds.file == w.bounds.inner.file && raw.file == w.raw.inner.file
  }

  lemma FourDistinct(w: Writers, text: SectionFile, bounds: SectionFile, raw: SectionFile, order: SectionFile)
    requires w.Apart() && FilesAre(w, text, bounds, raw) && Differs(order, text, bounds, raw)
    ensures DistinctFiles([text, bounds, raw, order]) && FilesOf([text, bounds, raw, order], w)
  {
  }

  lemma FourHold(text: SectionFile, bounds: SectionFile, raw: SectionFile, order: SectionFile, texts: seq<bytes>,
                 digests: seq<nat>, options: KeyIndexOptions)
    requires options.chunkBytes > 0 && ThreeHold(text, bounds, raw, texts, digests, options)
    requires HoldsSection(order, LeTable(4, OrderOf(texts)), options.chunkBytes, options.checksumPolicy)
    ensures SectionsHold([text, bounds, raw, order], SectionsOf(texts, digests), options.chunkBytes, options.checksumPolicy)
  {
  }

  /** The sections' files are the build's own. */
  ghost predicate FilesOf(sections: seq<SectionFile>, w: Writers) {
    && |sections| == SECTION_COUNT
    && sections[0].file == w.text.inner.file
    && sections[1].file == w.bounds.inner.file
    && sections[2].file == w.raw.inner.file
  }

  ghost predicate DistinctFiles(sections: seq<SectionFile>) {
    forall i, j | 0 <= i < j < |sections| :: sections[i].file != sections[j].file
  }

  /** The build memory holds all rows at once, as they are charged, or two runs of the largest record. */
  ghost predicate MemorySuffices(dict: Dictionary, options: KeyIndexOptions) {
    && dict.Valid() && dict.AllGood()
    && (SumPlanned(dict.matcher, options, dict.Keys()) <= options.buildMemoryBytes / 2 ||
        TwoRunsFit(LargestRecord(TextsOf(dict.matcher, dict.Keys())), options))
  }

  /** No scratch record exceeds a quarter of the build memory. */
  ghost predicate RowsKeepQuarter(dict: Dictionary, options: KeyIndexOptions)
    requires dict.Valid() && dict.AllGood()
  {
    var texts := TextsOf(dict.matcher, dict.Keys());
    forall i | 0 <= i < |texts| :: |texts[i]| + SCRATCH_RECORD_OVERHEAD <= options.buildMemoryBytes / 4
  }

  /** What every dictionary an index was built of satisfies. */
  ghost predicate Admitted(dict: Dictionary, options: KeyIndexOptions) {
    && dict.Valid() && ValidOptions(options) && dict.isMdx && dict.totalEntries <= U32_MAX && dict.AllGood()
    && RowsKeepQuarter(dict, options) && MemorySuffices(dict, options)
  }

  /** From 706 bytes on the memory suffices for whatever the builder admits. */
  lemma MemorySufficesFrom706(dict: Dictionary, options: KeyIndexOptions)
    requires dict.Valid() && dict.AllGood() && RowsKeepQuarter(dict, options) && options.buildMemoryBytes >= 706
    ensures MemorySuffices(dict, options)
  {
    LargestIsLargest(TextsOf(dict.matcher, dict.Keys()), options.buildMemoryBytes / 4);
  }

  /** A dictionary an index can be built of under these options, if the memory suffices. */
  ghost predicate CanBuild(dict: Dictionary, options: KeyIndexOptions) {
    && dict.Valid() && ValidOptions(options)
    && dict.isMdx && dict.totalEntries <= U32_MAX && dict.AllGood()
    && var texts := TextsOf(dict.matcher, dict.Keys());
       && RowsKeepQuarter(dict, options) && FinishedFits(|texts|, |Concat(texts)|, options)
       && ScratchFits(texts)
  }

  /**
   * Builds the index. What it returns is always the index of the dictionary's rows, whatever the memory ceiling
   * and however often it spilled. Of a dictionary whose rows fit it succeeds exactly when the memory suffices.
   */
  method BuildIndex(file: MdictFile, options: KeyIndexOptions) returns (r: Result<BuiltIndex>)
    requires file.Valid() && FitsIdentity(file.dict.identity)
    modifies file
    ensures file.Valid()
    ensures r.Ok? ==> Admitted(file.dict, options) && IsBuilt(r.value, file.dict, options)
    ensures r.Ok? ==> |r.value.sections| == SECTION_COUNT && DistinctFiles(r.value.sections)
    ensures r.Ok? ==> fresh(r.value.sections[0].file) && fresh(r.value.sections[1].file)
    ensures r.Ok? ==> fresh(r.value.sections[2].file) && fresh(r.value.sections[3].file)
    ensures CanBuild(file.dict, options) ==> ServesOrRefuses(r, MemorySuffices(file.dict, options))
  {
    var dict := file.dict;
    var valid :- ValidateOptions(options);
    if !dict.isMdx {
      return Err(Unsupported);
    }
    if dict.totalEntries > U32_MAX {
      return Err(LimitExceeded(IndexEntries));
    }
    if CanBuild(dict, options) {
      CanBuildIsAcceptable(dict, options);
    }
    var plan :- PlanMetadata(dict.totalEntries, options);
    r := BuildPlanned(file, options, plan);
  }

  /** The early plan refuses nothing that the finished index could hold. */
  lemma CanBuildIsAcceptable(dict: Dictionary, options: KeyIndexOptions)
    requires CanBuild(dict, options)
    ensures PlanMetadata(dict.totalEntries, options).Ok?
    ensures Acceptable(dict, PlanMetadata(dict.totalEntries, options).value, options)
  {
    var texts := TextsOf(dict.matcher, dict.Keys());
    MetadataFitsShorter(|texts|, 0, |Concat(texts)|, options);
    PlanIsExact(|texts|, |Concat(texts)|, options);
  }

  /** Streams all rows and finishes. */
  method BuildPlanned(file: MdictFile, options: KeyIndexOptions, plan: BuildMetadataPlan) returns (r: Result<BuiltIndex>)
    requires file.Valid() && FitsIdentity(file.dict.identity) && ValidOptions(options) && file.dict.totalEntries <= U32_MAX
    requires plan.maximumTextBytes <= U64_MAX
    modifies file
    ensures file.Valid()
    ensures r.Ok? ==> file.dict.AllGood() && IsBuilt(r.value, file.dict, options)
    ensures r.Ok? ==> |r.value.sections| == SECTION_COUNT && DistinctFiles(r.value.sections)
    ensures r.Ok? ==> fresh(r.value.sections[0].file) && fresh(r.value.sections[1].file)
    ensures r.Ok? ==> fresh(r.value.sections[2].file) && fresh(r.value.sections[3].file)
    ensures r.Ok? ==> MemorySuffices(file.dict, options) && RowsKeepQuarter(file.dict, options)
    ensures Acceptable(file.dict, plan, options) && CanBuild(file.dict, options) ==>
              ServesOrRefuses(r, MemorySuffices(file.dict, options))
  {
    var w := NewWriters(options);
    NothingBuilt(w, file.dict, plan, options);
    var counters, progress := AddAllRows(file, w, plan, options, NO_ROWS, Progress([], [], [], [], 0));
    if counters.Err? {
      return Err(counters.error);
    }
    r := FinishBuild(w, file.dict, options, plan, counters.value, progress);
  }
}
