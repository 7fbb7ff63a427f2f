/**
 * From a dictionary to answers: an index is built, written, opened again and queried, and every query gives what
 * the in-memory index gives, which is what a linear scan of the source keys gives.
 */
module EndToEnd {
  import opened Bytes
  import opened CaseVariantLookup
  import opened Dictionary
  import opened IndexArtifact
  import opened IndexBuilder
  import opened IndexCache
  import opened IndexFinish
  import opened IndexLayout
  import opened IndexOpen
  import opened IndexOptions
  import opened IndexPrefix
  import opened IndexQuery
  import opened IndexView
  import opened IndexWriter
  import opened KeyBlocks
  import opened Locator
  import opened LocatorLookup
  import opened LookupSpec
  import opened MetadataPlan
  import opened Normalize
  import opened RecordOrder
  import opened Scratch
  import opened Utf8
  import opened Wrappers

  /** The header of the dictionary's index. */
  ghost function HeaderFor(dict: Dictionary, options: KeyIndexOptions): IndexHeader
    requires dict.Valid() && dict.AllGood() && ValidOptions(options)
  {
    var texts := TextsOf(dict.matcher, dict.Keys());
    HeaderOf(SectionLengths(|texts|, |Concat(texts)|), dict.identity, |Concat(texts)|, options.chunkBytes)
  }

  /** The sections of the dictionary's index. */
  ghost function SectionsFor(dict: Dictionary): seq<bytes>
    requires dict.Valid() && dict.AllGood()
  {
    SectionsOf(TextsOf(dict.matcher, dict.Keys()), DigestsOf(dict.digest, dict.Keys()))
  }

  /** `source` is the index file of the dictionary under these options. */
  ghost predicate IsIndexOf(source: bytes, dict: Dictionary, options: KeyIndexOptions)
    requires dict.Valid() && dict.AllGood() && ValidOptions(options)
  {
    var texts := TextsOf(dict.matcher, dict.Keys());
    && IsIndexFile(source, HeaderFor(dict, options), SectionsFor(dict), options.checksumPolicy)
    && FinishedFits(|texts|, |Concat(texts)|, options)
  }

  // ----- building -----

  /**
   * Builds the index of a dictionary and writes it. What is written is the index file of the dictionary, whatever
   * the memory ceiling. With an empty destination and rows that fit, it succeeds exactly when the memory suffices.
   */
  method BuildToFile(file: MdictFile, options: KeyIndexOptions, destination: File) returns (r: Result<()>)
    requires file.Valid() && FitsIdentity(file.dict.identity)
    modifies file, destination
    ensures file.Valid()
    ensures r.Ok? ==> Admitted(file.dict, options) && IsIndexOf(destination.contents, file.dict, options)
    ensures CanBuild(file.dict, options) && old(destination.contents) == [] ==>
              ServesOrRefuses(r, MemorySuffices(file.dict, options))
  {
    var built :- BuildIndex(file, options);
    r := WriteIndex(built, file.dict, options, destination);
  }

  /** Writes a finished build. */
  method WriteIndex(built: BuiltIndex, dict: Dictionary, options: KeyIndexOptions, destination: File) returns (r: Result<()>)
    requires dict.Valid() && dict.AllGood() && ValidOptions(options) && IsBuilt(built, dict, options)
    requires |built.sections| == SECTION_COUNT && DistinctFiles(built.sections)
    requires built.sections[0].file != destination && built.sections[1].file != destination
    requires built.sections[2].file != destination && built.sections[3].file != destination
    modifies destination, built.sections[0].file, built.sections[1].file, built.sections[2].file, built.sections[3].file
    ensures r.Ok? ==> IsIndexOf(destination.contents, dict, options)
    ensures old(destination.contents) == [] ==> r.Ok?
  {
    FourFiles(built.sections, destination);
    r := WriteApart(built, dict, options, destination);
  }

  method WriteApart(built: BuiltIndex, dict: Dictionary, options: KeyIndexOptions, destination: File) returns (r: Result<()>)
    requires dict.Valid() && dict.AllGood() && ValidOptions(options) && IsBuilt(built, dict, options)
    requires FilesApart(built.sections, destination)
    modifies destination, Files(built.sections)
    ensures r.Ok? ==> IsIndexOf(destination.contents, dict, options)
    ensures old(destination.contents) == [] ==> r.Ok?
  {
    ghost var parts := SectionsFor(dict);
    WrittenIsIndexFile(built, parts, options.checksumPolicy);
    r := WriteBuiltIndex(built, destination, options.chunkBytes, parts);
  }

  lemma FourFiles(sections: seq<SectionFile>, destination: File)
    requires |sections| == SECTION_COUNT && DistinctFiles(sections)
    requires sections[0].file != destination && sections[1].file != destination
    requires sections[2].file != destination && sections[3].file != destination
    ensures Files(sections) == {sections[0].file, sections[1].file, sections[2].file, sections[3].file}
    ensures FilesApart(sections, destination)
  {
  }

  // ----- opening -----

  /** The reader admits the header the builder wrote. */
  lemma BuiltHeaderIsAdmissible(dict: Dictionary, options: KeyIndexOptions)
    requires dict.Valid() && dict.AllGood() && ValidOptions(options) && dict.totalEntries <= U32_MAX
    requires var texts := TextsOf(dict.matcher, dict.Keys()); FinishedFits(|texts|, |Concat(texts)|, options)
    requires LaidOut(HeaderFor(dict, options))
    ensures Admissible(HeaderFor(dict, options), HeaderFor(dict, options).totalLen, options)
  {
    var texts := TextsOf(dict.matcher, dict.Keys());
    var lens, h := SectionLengths(|texts|, |Concat(texts)|), HeaderFor(dict, options);
    LensOfHeader(lens, dict.identity, |Concat(texts)|, options.chunkBytes);
    assert LensOf(h.sections)[0] == lens[0] && LensOf(h.sections)[1] == lens[1];
    assert LensOf(h.sections)[2] == lens[2] && LensOf(h.sections)[3] == lens[3];
    LaidOutSlotsAreContiguous(h);
  }

  /** An index file of the dictionary opens under the options it was built with. */
  lemma IndexOpens(source: bytes, dict: Dictionary, options: KeyIndexOptions)
    requires dict.Valid() && dict.AllGood() && ValidOptions(options) && dict.totalEntries <= U32_MAX
    requires IsIndexOf(source, dict, options)
    ensures |source| <= U64_MAX && Opens(dict, source, HeaderFor(dict, options), dict.identity, options)
  {
    BuiltHeaderIsAdmissible(dict, options);
  }

  /** No normalized row is longer than the reader's row limit. */
  ghost predicate RowsReadable(dict: Dictionary)
    requires dict.Valid() && dict.AllGood()
  {
    forall i | 0 <= i < |dict.Keys()| :: |dict.matcher.Bytes(dict.Keys()[i])| <= dict.decompressedBlockBytes
  }

  lemma TextsAreUtf8(dict: Dictionary, i: nat)
    requires dict.Valid() && dict.AllGood() && i < |dict.Keys()|
    ensures IsUtf8(dict.matcher.Bytes(dict.Keys()[i]))
  {
    NormalizedBytesAreUtf8(dict.normalizer, dict.Keys()[i]);
    assert dict.matcher.Bytes(dict.Keys()[i]) == dict.normalizer.Bytes(dict.Keys()[i]);
  }

  lemma RowsAreStorable(dict: Dictionary)
    requires dict.Valid() && dict.AllGood() && dict.totalEntries <= U32_MAX && RowsReadable(dict)
    requires |Concat(TextsOf(dict.matcher, dict.Keys()))| <= U64_MAX
    ensures Storable(TextsOf(dict.matcher, dict.Keys()), DigestsOf(dict.digest, dict.Keys()), dict.decompressedBlockBytes)
  {
    forall i | 0 <= i < |dict.Keys()|
      ensures IsUtf8(dict.matcher.Bytes(dict.Keys()[i]))
    {
      TextsAreUtf8(dict, i);
    }
  }

  /** The rows of the dictionary. */
  ghost function TableOf(dict: Dictionary): KeyTable
    requires dict.Valid() && dict.AllGood()
  {
    KeyTable(dict.Keys(), OrderOf(TextsOf(dict.matcher, dict.Keys())))
  }

  /** `view` is what opening the dictionary's index file gives. */
  ghost predicate IsOpened(source: bytes, dict: Dictionary, options: KeyIndexOptions, view: View) {
    && dict.Valid() && dict.AllGood() && ValidOptions(options) && dict.totalEntries <= U32_MAX
    && IsIndexOf(source, dict, options) && view.Valid()
    && view == View(source, HeaderFor(dict, options), options.checksumPolicy, dict.decompressedBlockBytes)
  }

  /** The opened index reads every row of the dictionary back, except those above the reader's row limit. */
  lemma OpenedRow(source: bytes, dict: Dictionary, options: KeyIndexOptions, view: View, i: nat)
    requires IsOpened(source, dict, options, view) && i < |dict.Keys()|
    ensures var text := dict.matcher.Bytes(dict.Keys()[i]);
            view.RowText(i) == if |text| <= dict.decompressedBlockBytes then Ok(text) else Err(LimitExceeded(RowBytes))
  {
    OpenedServes(view, TextsOf(dict.matcher, dict.Keys()), DigestsOf(dict.digest, dict.Keys()));
    TextsAreUtf8(dict, i);
    RowReadsBack(view, TextsOf(dict.matcher, dict.Keys()), DigestsOf(dict.digest, dict.Keys()), i);
  }

  /**
   * The opened index can be read, and then agrees with the dictionary it was built from, exactly when no normalized
   * row is longer than the reader's row limit. The builder does not check that limit.
   */
  lemma OpenedAgrees(source: bytes, dict: Dictionary, options: KeyIndexOptions, view: View)
    requires IsOpened(source, dict, options, view)
    ensures (forall i | 0 <= i < |dict.Keys()| :: view.RowText(i).Ok?) <==> RowsReadable(dict)
    ensures Agrees(dict, view, TableOf(dict)) <==> RowsReadable(dict)
  {
    forall i | 0 <= i < |dict.Keys()|
      ensures view.RowText(i).Ok? <==> |dict.matcher.Bytes(dict.Keys()[i])| <= dict.decompressedBlockBytes
    {
      OpenedRow(source, dict, options, view, i);
    }
    if RowsReadable(dict) {
      ReadableAgrees(source, dict, options, view);
    }
  }

  lemma ReadableAgrees(source: bytes, dict: Dictionary, options: KeyIndexOptions, view: View)
    requires IsOpened(source, dict, options, view) && RowsReadable(dict)
    ensures Agrees(dict, view, TableOf(dict))
  {
    RowsAreStorable(dict);
    IndexFileRepresents(view, TextsOf(dict.matcher, dict.Keys()), DigestsOf(dict.digest, dict.Keys()));
    RepresentingAgrees(dict, view);
  }

  /** Builds, writes, reopens. The opened index agrees with the dictionary exactly when its rows keep the row limit. */
  method BuildAndOpen(file: MdictFile, options: KeyIndexOptions) returns (r: Result<PersistentKeyIndex>)
    requires file.Valid() && FitsIdentity(file.dict.identity)
    modifies file
    ensures file.Valid()
    ensures r.Ok? ==> fresh(r.value) && r.value.Valid() && Admitted(file.dict, options)
    ensures r.Ok? ==> IsOpened(r.value.view.source, file.dict, options, r.value.view)
    ensures r.Ok? ==> (Agrees(file.dict, r.value.view, TableOf(file.dict)) <==> RowsReadable(file.dict))
    ensures CanBuild(file.dict, options) ==> ServesOrRefuses(r, MemorySuffices(file.dict, options))
  {
    var destination := new File();
    var written :- BuildToFile(file, options, destination);
    r := OpenBuilt(file.dict, destination.contents, options);
  }

  /** Opens what was built. */
  method OpenBuilt(dict: Dictionary, source: bytes, options: KeyIndexOptions) returns (r: Result<PersistentKeyIndex>)
    requires dict.Valid() && dict.AllGood() && ValidOptions(options) && IsIndexOf(source, dict, options)
    requires dict.totalEntries <= U32_MAX
    ensures r.Ok? && fresh(r.value) && r.value.Valid() && IsOpened(source, dict, options, r.value.view)
    ensures r.value.view.source == source
    ensures Agrees(dict, r.value.view, TableOf(dict)) <==> RowsReadable(dict)
  {
    IndexOpens(source, dict, options);
    r := Open(dict, source, dict.identity, options);
    OpenedAgrees(source, dict, options, r.value.view);
  }

  // ----- the same answers -----

  /**
   * Where the in-memory index can be built, its own size limit leaves room for any list of matches: a query is answered
   * exactly when its normalized form keeps the limit, by either backend.
   */
  lemma LocatorLeavesRoom(dict: Dictionary, keys: seq<string>, query: string, offset: nat, limit: nat)
    requires dict.Valid() && Buildable(dict) && |keys| == dict.totalEntries
    ensures MatchesFit(dict, keys, query) <==> |dict.matcher.Bytes(query)| <= dict.locatorBytes
    ensures PageFits(dict, keys, query, offset, limit) <==> |dict.matcher.Bytes(query)| <= dict.locatorBytes
  {
    SelectIsShorter(dict.matcher, keys, Iota(|keys|), NormalizesLike(query));
  }

  /**
   * Both backends, and the linear scan, agree on every lookup of all matches. The persistent one also bounds the bytes of
   * the match list; see `LocatorLeavesRoom` for why that never tells them apart.
   */
  method SameMatches(file: MdictFile, l: KeyLocator, index: PersistentKeyIndex, query: string, ghost t: KeyTable)
    returns (memory: Result<Option<Located>>, disk: Result<Option<Located>>)
    requires file.Valid() && index.Valid() && Indexed(file.dict, l, t.keys) && Agrees(file.dict, index.view, t)
    modifies file, index
    ensures memory.Ok? ==> memory == Ok(LocateSpec(file.dict.matcher, t.keys, query))
    ensures disk.Ok? ==> disk == Ok(LocateSpec(file.dict.matcher, t.keys, query))
    ensures memory.Ok? <==> |file.dict.matcher.Bytes(query)| <= file.dict.locatorBytes
    ensures disk.Ok? <==> MatchesFit(file.dict, t.keys, query)
    ensures Buildable(file.dict) ==> (memory.Ok? <==> disk.Ok?)
  {
    if Buildable(file.dict) {
      LocatorLeavesRoom(file.dict, t.keys, query, 0, 0);
    }
    memory := LocateKeys(file, l, query, t.keys);
    disk := Locate(file, index, query, Some(t));
  }

  /** They agree on every page, in every match mode, and the one succeeds exactly when the other does. */
  method SamePages(file: MdictFile, l: KeyLocator, index: PersistentKeyIndex, query: string, offset: nat, limit: nat,
                   includeVariants: bool, ghost t: KeyTable)
    returns (memory: Result<Option<Page>>, disk: Result<Option<Page>>)
    requires file.Valid() && index.Valid() && Indexed(file.dict, l, t.keys) && Agrees(file.dict, index.view, t)
    requires !file.dict.normalizer.resourcePath && LowerRespectsAscii(file.dict.normalizer.lower)
    modifies file, index
    ensures memory.Ok? <==> disk.Ok?
    ensures memory.Ok? <==> PageFits(file.dict, t.keys, query, offset, limit)
    ensures memory.Ok? ==>
              memory == disk ==
              Ok(ModePageSpec(file.dict.normalizer, file.dict.matcher, t.keys, query, offset, limit, includeVariants))
  {
    memory := LocatorPageWithMode(file, l, query, offset, limit, includeVariants, t.keys);
    disk := IndexPageWithMode(file, index, query, offset, limit, includeVariants, Some(t));
  }

  /** They agree on every prefix query and every scan. */
  method SamePrefixes(file: MdictFile, l: KeyLocator, index: PersistentKeyIndex, prefix: string, limit: nat, ghost t: KeyTable)
    returns (memory: Result<seq<nat>>, disk: Result<seq<KeyEntry>>)
    requires file.Valid() && index.Valid() && Indexed(file.dict, l, t.keys) && Agrees(file.dict, index.view, t)
    modifies file, index
    ensures memory.Ok? <==> disk.Ok?
    ensures memory.Ok? <==> limit == 0 || |file.dict.matcher.Bytes(prefix)| <= file.dict.locatorBytes
    ensures memory.Ok? ==>
              && memory.value == PrefixSpec(file.dict.matcher, t.keys, prefix, limit)
              && disk.value == EntriesOf(t.keys, memory.value)
  {
    memory := LocatePrefix(file, l, prefix, limit, t.keys);
    disk := Prefix(file, index, prefix, limit, Some(t));
  }

  method SameScans(file: MdictFile, l: KeyLocator, index: PersistentKeyIndex, stopAfter: Option<nat>, ghost t: KeyTable)
    returns (memory: seq<Visit>, disk: Result<seq<Visit>>)
    requires file.Valid() && index.Valid() && Indexed(file.dict, l, t.keys) && Agrees(file.dict, index.view, t)
    modifies file, index
    ensures disk == Ok(memory) && memory == VisitsOf(TextsOf(file.dict.matcher, t.keys), stopAfter)
  {
    memory := ScanNormalizedKeys(file.dict, l, stopAfter, t.keys);
    disk := Scan(file, index, stopAfter, Some(t));
  }

  // ----- both indexes of one file -----

  /** Builds the in-memory index and the persistent one from the same file. */
  method BuildBoth(file: MdictFile, options: KeyIndexOptions)
    returns (memory: Result<KeyLocator>, disk: Result<PersistentKeyIndex>)
    requires file.Valid() && FitsIdentity(file.dict.identity)
    modifies file
    ensures file.Valid()
    ensures memory.Ok? <==> Buildable(file.dict)
    ensures memory.Ok? ==> file.dict.AllGood() && Indexed(file.dict, memory.value, file.dict.Keys())
    ensures disk.Ok? ==> fresh(disk.value) && disk.value.Valid() && Admitted(file.dict, options)
    ensures disk.Ok? ==> (Agrees(file.dict, disk.value.view, TableOf(file.dict)) <==> RowsReadable(file.dict))
    ensures CanBuild(file.dict, options) ==> ServesOrRefuses(disk, MemorySuffices(file.dict, options))
  {
    memory := BuildKeyLocator(file);
    if memory.Ok? {
      BuiltIsIndexed(file.dict, memory.value);
    }
    disk := BuildAndOpen(file, options);
  }

  /** Every page query gives the same through both indexes of a file: the page of a scan over the file's keys. */
  method SamePagesOfFile(file: MdictFile, options: KeyIndexOptions, query: string, offset: nat, limit: nat, includeVariants: bool)
    returns (memory: Result<Option<Page>>, disk: Result<Option<Page>>)
    requires file.Valid() && FitsIdentity(file.dict.identity)
    requires !file.dict.normalizer.resourcePath && LowerRespectsAscii(file.dict.normalizer.lower)
    requires CanBuild(file.dict, options) && MemorySuffices(file.dict, options)
    requires Buildable(file.dict) && RowsReadable(file.dict)
    modifies file
    ensures memory.Ok? <==> disk.Ok?
    ensures memory.Ok? <==> |file.dict.matcher.Bytes(query)| <= file.dict.locatorBytes
    ensures memory.Ok? ==>
              memory == disk ==
              Ok(ModePageSpec(file.dict.normalizer, file.dict.matcher, file.dict.Keys(), query, offset, limit, includeVariants))
  {
    LocatorLeavesRoom(file.dict, file.dict.Keys(), query, offset, limit);
    var l, index := BuildBoth(file, options);
    memory, disk := SamePages(file, l.value, index.value, query, offset, limit, includeVariants, TableOf(file.dict));
  }

  /** So does every lookup of all matches. */
  method SameMatchesOfFile(file: MdictFile, options: KeyIndexOptions, query: string)
    returns (memory: Result<Option<Located>>, disk: Result<Option<Located>>)
    requires file.Valid() && FitsIdentity(file.dict.identity)
    requires CanBuild(file.dict, options) && MemorySuffices(file.dict, options)
    requires Buildable(file.dict) && RowsReadable(file.dict)
    modifies file
    ensures memory.Ok? <==> disk.Ok?
    ensures memory.Ok? <==> |file.dict.matcher.Bytes(query)| <= file.dict.locatorBytes
    ensures memory.Ok? ==> memory == disk == Ok(LocateSpec(file.dict.matcher, file.dict.Keys(), query))
  {
    LocatorLeavesRoom(file.dict, file.dict.Keys(), query, 0, 0);
    var l, index := BuildBoth(file, options);
    memory, disk := SameMatches(file, l.value, index.value, query, TableOf(file.dict));
  }

  /** Every prefix query: the first of the sorted matches, as ordinals from the one and as entries from the other. */
  method SamePrefixesOfFile(file: MdictFile, options: KeyIndexOptions, prefix: string, limit: nat)
    returns (memory: Result<seq<nat>>, disk: Result<seq<KeyEntry>>)
    requires file.Valid() && FitsIdentity(file.dict.identity)
    requires CanBuild(file.dict, options) && MemorySuffices(file.dict, options)
    requires Buildable(file.dict) && RowsReadable(file.dict)
    modifies file
    ensures memory.Ok? <==> disk.Ok?
    ensures memory.Ok? <==> limit == 0 || |file.dict.matcher.Bytes(prefix)| <= file.dict.locatorBytes
    ensures memory.Ok? ==>
              && memory.value == PrefixSpec(file.dict.matcher, file.dict.Keys(), prefix, limit)
              && disk.value == EntriesOf(file.dict.Keys(), memory.value)
  {
    var l, index := BuildBoth(file, options);
    memory, disk := SamePrefixes(file, l.value, index.value, prefix, limit, TableOf(file.dict));
  }

  /** And every scan. */
  method SameScansOfFile(file: MdictFile, options: KeyIndexOptions, stopAfter: Option<nat>)
    returns (memory: seq<Visit>, disk: Result<seq<Visit>>)
    requires file.Valid() && FitsIdentity(file.dict.identity)
    requires CanBuild(file.dict, options) && MemorySuffices(file.dict, options)
    requires Buildable(file.dict) && RowsReadable(file.dict)
    modifies file
    ensures disk == Ok(memory) && memory == VisitsOf(TextsOf(file.dict.matcher, file.dict.Keys()), stopAfter)
  {
    var l, index := BuildBoth(file, options);
    memory, disk := SameScans(file, l.value, index.value, stopAfter, TableOf(file.dict));
  }
}
