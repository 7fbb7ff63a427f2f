/**
 * The reader's row limit is the limit on decompressed blocks (src/core/persistent/cache.rs), which bounds keys as
 * they are stored; normalized keys can be longer. The builder does not look at it.
 */
module RowLimits {
  import opened Bytes
  import opened Dictionary
  import opened EndToEnd
  import opened IndexBuild
  import opened IndexBuilder
  import opened IndexFinish
  import opened IndexLayout
  import opened IndexOptions
  import opened KeyBlocks
  import opened KeyRows
  import opened KeywordIndex
  import opened LookupSpec
  import opened Normalize
  import opened Opening
  import opened Sequences
  import opened Utf8
  import opened Wrappers

  /** Two bytes of UTF-8; its lowercase below takes three. */
  const A_STROKE: char := '\U{23A}'
  const LOWER_A_STROKE: char := '\U{2C65}'

  function Repeated(c: char, n: nat): string {
    if n == 0 then "" else [c] + Repeated(c, n - 1)
  }

  function LowerAStroke(c: char): string {
    if c == A_STROKE then [LOWER_A_STROKE] else [c]
  }

  const FOLDING: Normalizer := Normalizer(false, false, false, LowerAStroke)

  lemma {:induction false} FoldingGrows(n: nat)
    ensures |Encode(Repeated(A_STROKE, n))| == 2 * n && |FOLDING.Bytes(Repeated(A_STROKE, n))| == 3 * n
  {
    if n > 0 {
      var rest := Repeated(A_STROKE, n - 1);
      FoldingGrows(n - 1);
      TailOfConcat([A_STROKE], rest);
      NilConcat(rest);
      assert FOLDING.Fold(A_STROKE) == [LOWER_A_STROKE];
      EncodeConcat([LOWER_A_STROKE], FOLDING.FoldAll(rest));
      EncodeSingle(LOWER_A_STROKE);
    }
  }

  lemma {:induction false} NoZeroBytes(n: nat)
    ensures forall i | 0 <= i < |Encode(Repeated(A_STROKE, n))| :: Encode(Repeated(A_STROKE, n))[i] != 0
  {
    if n > 0 {
      NoZeroBytes(n - 1);
      TailOfConcat([A_STROKE], Repeated(A_STROKE, n - 1));
      NilConcat(Repeated(A_STROKE, n - 1));
    }
  }

  /** As many letters as fit between two one-letter keys in a version 2 block of `limit` bytes. */
  function LongKey(limit: nat): string
    requires 29 <= limit
  {
    Repeated(A_STROKE, (limit - 29) / 2)
  }

  /** The block's rows: the long key stands between short ones, so the summaries in the index stay short. */
  function LongKeyRows(limit: nat): seq<Row>
    requires 29 <= limit
  {
    [Row(0, "a"), Row(0, LongKey(limit)), Row(0, "b")]
  }

  function LongKeyDictionary(limit: nat): Dictionary
    requires 29 <= limit
  {
    Dictionary([KeyBlock(0, 3)], 3, 0, b => if b == 0 then Ok(LongKeyRows(limit)) else Err(InvalidFormat), FOLDING,
               Matcher(key => FOLDING.Bytes(key), LowerAStroke), key => 0, SourceIdentity(0, 0, 3), true, 3, limit, limit)
  }

  // ----- a file can hold it -----

  function TextOf(s: bytes): string {
    if IsUtf8(s) then Utf8.Decode(s).value else ""
  }

  function RawOf(row: Row): RawRow {
    RawRow(row.recordStart, Encode(row.key))
  }

  function LongKeyRaw(limit: nat): seq<RawRow>
    requires 29 <= limit
  {
    [RawOf(Row(0, "a")), RawOf(Row(0, LongKey(limit))), RawOf(Row(0, "b"))]
  }

  const BLOCK_FORMAT: RowFormat := RowFormat(8, 1, 3, 0, IsUtf8)

  lemma LetterIsItsByte(c: char)
    requires IsAscii(c) && c as int != 0
    ensures Encode([c]) == [c as int] && IsUtf8(Encode([c])) && IsKey(Encode([c]), 1) && TextOf(Encode([c])) == [c]
  {
    EncodeSingle(c);
    DecodeOfEncode([c]);
  }

  lemma LongKeyIsText(limit: nat)
    requires 29 <= limit
    ensures IsUtf8(Encode(LongKey(limit))) && TextOf(Encode(LongKey(limit))) == LongKey(limit)
    ensures IsKey(Encode(LongKey(limit)), 1) && |Encode(LongKey(limit))| == 2 * ((limit - 29) / 2)
  {
    FoldingGrows((limit - 29) / 2);
    NoZeroBytes((limit - 29) / 2);
    DecodeOfEncode(LongKey(limit));
  }

  lemma PrintedLength(f: RowFormat, a: RawRow, b: RawRow, c: RawRow)
    requires f.Valid()
    ensures |f.PrintAll([a, b, c])| == 3 * (f.width + f.unit) + |a.key| + |b.key| + |c.key|
  {
    assert [a, b, c][1..] == [b, c] && [b, c][1..] == [c] && [c][1..] == [];
    assert f.PrintAll([c]) == f.Print(c) + f.PrintAll([]);
    assert f.PrintAll([b, c]) == f.Print(b) + f.PrintAll([c]);
  }

  /** A decompressed version 2 block within the limit holds the rows, and decodes to them. */
  lemma LongKeyBlock(limit: nat)
    requires 29 <= limit
    ensures BLOCK_FORMAT.IsBlockOf(BLOCK_FORMAT.PrintAll(LongKeyRaw(limit)), LongKeyRaw(limit))
    ensures 29 <= |BLOCK_FORMAT.PrintAll(LongKeyRaw(limit))| <= limit
    ensures RowsOf(LongKeyRaw(limit), TextOf) == LongKeyRows(limit)
  {
    Ranges();
    LetterIsItsByte('a');
    LetterIsItsByte('b');
    LongKeyIsText(limit);
    PrintedLength(BLOCK_FORMAT, RawOf(Row(0, "a")), RawOf(Row(0, LongKey(limit))), RawOf(Row(0, "b")));
  }

  /** The index entry of that block, at whatever size it compresses to. */
  function LongKeyEntry(limit: nat, compSize: nat): IndexEntry
    requires 29 <= limit
  {
    IndexEntry(3, Encode("a"), Encode("b"), compSize, |BLOCK_FORMAT.PrintAll(LongKeyRaw(limit))|)
  }

  /** A version 2 keyword index accepts the entry, and the block's boundary keys are the ones it summarizes. */
  lemma LongKeyIsIndexed(limit: nat, compSize: nat, limits: Limits)
    requires 29 <= limit <= U64_MAX && limits.decompressedBlockBytes == limit
    requires 8 <= compSize <= Min(limits.compressedBlockBytes, U64_MAX) && 3 <= limits.keyBlockEntries
    ensures var entry, dict := LongKeyEntry(limit, compSize), LongKeyDictionary(limit);
            && Layout(8, 2, true, 1, 8, limits, IsUtf8).EntryOk(entry)
            && BlocksOf(DescriptorsOf([entry], 0, 0)) == dict.keyBlocks && TotalEntries([entry]) == dict.totalEntries
            && SummariesMatch(dict.matcher, DescriptorsOf([entry], 0, 0)[0], dict.decode(0).value, TextOf)
  {
    Ranges();
    LetterIsItsByte('a');
    LetterIsItsByte('b');
    LongKeyBlock(limit);
    assert [LongKeyEntry(limit, compSize)][1..] == [];
  }

  // ----- and its index cannot be read -----

  /** Whatever the limit, from 91 bytes on, there is a good dictionary that keeps it and whose normalized key does not. */
  lemma LongKeyOutgrowsLimit(limit: nat)
    requires 91 <= limit <= USIZE_MAX
    ensures var dict := LongKeyDictionary(limit);
            && dict.Valid() && dict.AllGood() && dict.Keys() == ["a", LongKey(limit), "b"]
            && |dict.matcher.Bytes(LongKey(limit))| > limit && !RowsReadable(dict)
  {
    var dict := LongKeyDictionary(limit);
    FoldingGrows((limit - 29) / 2);
    assert dict.keyBlocks[1..] == [];
    assert dict.Valid();
    assert dict.CheckedBlock(0) == Ok(LongKeyRows(limit));
    assert dict.RowsBefore(0) == [];
    assert dict.RowsBefore(1) == LongKeyRows(limit);
    assert dict.Keys()[1] == LongKey(limit);
  }

  /** Options under which that dictionary's index can be built. */
  predicate LeavesRoom(limit: nat, options: KeyIndexOptions)
    requires 29 <= limit && ValidOptions(options)
  {
    var normalizedLen := 3 * ((limit - 29) / 2);
    && options.buildMemoryBytes >= 706 && normalizedLen + SCRATCH_RECORD_OVERHEAD <= options.buildMemoryBytes / 4
    && FinishedFits(3, normalizedLen + 2, options)
  }

  lemma ShortKeys()
    ensures FOLDING.Bytes("a") == [97] && FOLDING.Bytes("b") == [98]
  {
    LetterIsItsByte('a');
    LetterIsItsByte('b');
    assert FOLDING.FoldAll("a"[1..]) == "" && FOLDING.FoldAll("b"[1..]) == "";
  }

  lemma LongKeyIsBuildable(limit: nat, options: KeyIndexOptions)
    requires 91 <= limit <= USIZE_MAX && ValidOptions(options) && LeavesRoom(limit, options)
    ensures CanBuild(LongKeyDictionary(limit), options)
  {
    var dict := LongKeyDictionary(limit);
    LongKeyOutgrowsLimit(limit);
    FoldingGrows((limit - 29) / 2);
    ShortKeys();
    var text := dict.matcher.Bytes(LongKey(limit));
    assert TextsOf(dict.matcher, dict.Keys()) == [[97], text, [98]];
    ConcatOfThree([97], text, [98]);
  }

  lemma ConcatOfThree(a: bytes, b: bytes, c: bytes)
    ensures |Concat([a, b, c])| == |a| + |b| + |c|
  {
    assert [a, b, c][1..] == [b, c] && [b, c][1..] == [c] && [c][1..] == [];
    assert Concat([c]) == c + Concat([]);
    assert Concat([b, c]) == b + Concat([c]);
  }

  /** The index of that dictionary is built and opened without an error, and refuses its long row. */
  method BuiltButUnreadable(limit: nat, options: KeyIndexOptions) returns (r: Result<bytes>)
    requires 91 <= limit <= USIZE_MAX && ValidOptions(options) && LeavesRoom(limit, options)
    ensures r == Err(LimitExceeded(RowBytes))
  {
    LongKeyOutgrowsLimit(limit);
    LongKeyIsBuildable(limit, options);
    MemorySufficesFrom706(LongKeyDictionary(limit), options);
    var file := new MdictFile(LongKeyDictionary(limit));
    var answer := BuildAndOpen(file, options);
    var index := answer.value;
    OpenedRow(index.view.source, file.dict, options, index.view, 1);
    r := index.RowText(1);
  }
}
