/**
 * Build memory below 706 bytes is legal, and not enough (src/core/persistent/mod.rs, src/core/persistent/sort.rs): for
 * every such size there is a dictionary whose rows the builder takes one by one and then cannot merge.
 */
module BuildMemory {
  import opened Adler
  import opened Bytes
  import opened Dictionary
  import opened IndexArtifact
  import opened IndexBuild
  import opened IndexBuilder
  import opened IndexFinish
  import opened IndexLayout
  import opened IndexOptions
  import opened IndexWriter
  import opened KeyBlocks
  import opened LookupSpec
  import opened MergePlan
  import opened Normalize
  import opened Sequences
  import opened Utf8
  import opened Wrappers

  const EXACT: Normalizer := Normalizer(true, false, false, c => [c])

  function LetterA(n: nat): string {
    if n == 0 then "" else ['a'] + LetterA(n - 1)
  }

  lemma {:induction false} LettersAreBytes(n: nat)
    ensures |LetterA(n)| == n && AllAscii(LetterA(n)) && |EXACT.Bytes(LetterA(n))| == n
  {
    if n > 0 {
      var rest := LetterA(n - 1);
      LettersAreBytes(n - 1);
      TailOfConcat(['a'], rest);
      NilConcat(rest);
      assert EXACT.Fold('a') == ['a'];
      EncodeConcat(['a'], EXACT.FoldAll(rest));
      EncodeSingle('a');
    }
  }

  /** The longest key whose scratch record still keeps a quarter of the memory. */
  function QuarterKey(memory: nat): string
    requires 256 <= memory
  {
    LetterA(memory / 4 - SCRATCH_RECORD_OVERHEAD)
  }

  /** Three such rows. */
  function QuarterRows(memory: nat): seq<Row>
    requires 256 <= memory
  {
    [Row(0, QuarterKey(memory)), Row(0, QuarterKey(memory)), Row(0, QuarterKey(memory))]
  }

  function QuarterDictionary(memory: nat): Dictionary
    requires 256 <= memory
  {
    Dictionary([KeyBlock(0, 3)], 3, 0, b => if b == 0 then Ok(QuarterRows(memory)) else Err(InvalidFormat), EXACT,
               Matcher(key => EXACT.Bytes(key), EXACT.lower), key => 0, SourceIdentity(0, 0, 3), true, 3, 0x1_0000, 0x1_0000)
  }

  lemma QuarterDictionaryIsGood(memory: nat)
    requires 256 <= memory
    ensures var dict, key := QuarterDictionary(memory), QuarterKey(memory);
            dict.Valid() && dict.AllGood() && dict.Keys() == [key, key, key]
  {
    var dict := QuarterDictionary(memory);
    assert dict.keyBlocks[1..] == [];
    assert dict.Valid();
    assert dict.CheckedBlock(0) == Ok(QuarterRows(memory));
    assert dict.RowsBefore(0) == [];
    assert dict.RowsBefore(1) == QuarterRows(memory);
  }

  /** What three rows of one key add up to. */
  lemma ThreeRows(m: Matcher, options: KeyIndexOptions, key: string)
    ensures SumPlanned(m, options, [key, key, key]) == 3 * PlannedBytes(m, options, key)
    ensures LargestRecord([m.Bytes(key), m.Bytes(key), m.Bytes(key)]) == |m.Bytes(key)| + SCRATCH_RECORD_OVERHEAD
    ensures |Concat([m.Bytes(key), m.Bytes(key), m.Bytes(key)])| == 3 * |m.Bytes(key)|
  {
    var text := m.Bytes(key);
    var none: seq<bytes>, one: seq<bytes>, two: seq<bytes> := [], [text], [text, text];
    assert [key, key, key][..2] == [key, key] && [key, key][..1] == [key] && [key][..0] == [];
    assert [text, text, text][..2] == two && two[..1] == one && one[..0] == none;
    assert [text, text, text][1..] == two && two[1..] == one && one[1..] == none;
    assert SumPlanned(m, options, [key]) == SumPlanned(m, options, []) + PlannedBytes(m, options, key);
    assert SumPlanned(m, options, [key, key]) == SumPlanned(m, options, [key]) + PlannedBytes(m, options, key);
    assert LargestRecord(one) == Max(LargestRecord(none), |text| + SCRATCH_RECORD_OVERHEAD);
    assert LargestRecord(two) == Max(LargestRecord(one), |text| + SCRATCH_RECORD_OVERHEAD);
    assert Concat(one) == text + Concat(none);
    assert Concat(two) == text + Concat(one);
  }

  // ----- the finished index would be small -----

  lemma CountIsAtMostLength(len: nat, chunk: nat)
    requires chunk > 0
    ensures ChunkCount(len, chunk) <= len
  {
    if len > 0 {
      ChunkCountIsCeiling(len, chunk);
    }
  }

  /** An index of four sections never needs more than their bytes, one slot per byte, the header and the padding. */
  lemma FourSectionsFit(a: nat, b: nat, c: nat, d: nat, options: KeyIndexOptions)
    requires ValidOptions(options)
    requires 5 * (a + b + c + d) + HEADER_BYTES + 28 <= Min(options.maxMetadataBytes, options.maxIndexBytes)
    ensures WithinCeilings([a, b, c, d], options)
  {
    var chunk := options.chunkBytes;
    CountIsAtMostLength(a, chunk);
    CountIsAtMostLength(b, chunk);
    CountIsAtMostLength(c, chunk);
    CountIsAtMostLength(d, chunk);
    assert [a, b, c, d][1..] == [b, c, d] && [b, c, d][1..] == [c, d] && [c, d][1..] == [d] && [d][1..] == [];
    assert Slots([d], chunk) == ChunkCount(d, chunk) + Slots([], chunk);
    assert Slots([c, d], chunk) == ChunkCount(c, chunk) + Slots([d], chunk);
    assert Slots([b, c, d], chunk) == ChunkCount(b, chunk) + Slots([c, d], chunk);
    FourSectionsEnd(TableEnd(Slots([a, b, c, d], chunk)), a, b, c, d);
  }

  lemma FourSectionsEnd(start: nat, a: nat, b: nat, c: nat, d: nat)
    ensures LayEnd(start, [a, b, c, d]) <= start + (a + b + c + d) + 28
  {
    assert [a, b, c, d][1..] == [b, c, d] && [b, c, d][1..] == [c, d] && [c, d][1..] == [d] && [d][1..] == [];
    var afterA := Align(start) + a;
    var afterB := Align(afterA) + b;
    var afterC := Align(afterB) + c;
    AlignFacts(start);
    AlignFacts(afterA);
    AlignFacts(afterB);
    AlignFacts(afterC);
    assert LayEnd(afterC, [d]) == LayEnd(Align(afterC) + d, []);
    assert LayEnd(afterB, [c, d]) == LayEnd(afterC, [d]);
    assert LayEnd(afterA, [b, c, d]) == LayEnd(afterB, [c, d]);
  }

  // ----- and yet it is refused -----

  /** The rows fit and the index would keep its ceilings, but the memory does not suffice. */
  lemma QuarterRowsCannotMerge(options: KeyIndexOptions)
    requires ValidOptions(options) && options.buildMemoryBytes < 706
    requires 0x1000 <= options.maxMetadataBytes && 0x1000 <= options.maxIndexBytes
    ensures CanBuild(QuarterDictionary(options.buildMemoryBytes), options)
    ensures !MemorySuffices(QuarterDictionary(options.buildMemoryBytes), options)
  {
    var memory := options.buildMemoryBytes;
    var dict, key := QuarterDictionary(memory), QuarterKey(memory);
    var text := dict.matcher.Bytes(key);
    LettersAreBytes(memory / 4 - SCRATCH_RECORD_OVERHEAD);
    QuarterDictionaryIsGood(memory);
    ThreeRows(dict.matcher, options, key);
    assert TextsOf(dict.matcher, dict.Keys()) == [text, text, text];
    FourSectionsFit(3 * |text|, 32, 12, 12, options);
  }

  /** Whatever the size, from the legal minimum up to 705 bytes, the builder refuses that dictionary. */
  method MergeIsRefused(options: KeyIndexOptions) returns (r: Result<BuiltIndex>)
    requires ValidOptions(options) && options.buildMemoryBytes < 706
    requires 0x1000 <= options.maxMetadataBytes && 0x1000 <= options.maxIndexBytes
    ensures r == Err(LimitExceeded(BuildMemoryBytes))
  {
    QuarterDictionaryIsGood(options.buildMemoryBytes);
    QuarterRowsCannotMerge(options);
    var file := new MdictFile(QuarterDictionary(options.buildMemoryBytes));
    r := BuildIndex(file, options);
  }
}
