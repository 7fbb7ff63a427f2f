/** The in-memory index over all keys and the lookups through it (src/core/locator.rs). */
module Locator {
  import opened Bytes
  import opened Dictionary
  import opened KeyBlocks
  import opened LookupSpec
  import opened Normalize
  import opened RecordOrder
  import opened Sequences
  import opened Wrappers

  /** All normalized keys in one byte string, cut by `bounds`; their sorted order; a digest of each raw key. */
  datatype KeyLocator = KeyLocator(text: bytes, bounds: seq<nat>, order: seq<nat>, rawDigest: seq<nat>)
  {
    /** The normalized text of one row; rows without bounds have none. */
    function Row(row: nat): bytes {
      if row + 1 < |bounds| && bounds[row] <= bounds[row + 1] <= |text| then text[bounds[row]..bounds[row + 1]] else []
    }
  }

  /** The locator of these keys. */
  ghost function LocatorOf(m: Matcher, digest: string -> nat, keys: seq<string>): KeyLocator {
    var texts := TextsOf(m, keys);
    KeyLocator(Concat(texts), TextBounds(texts), OrderOf(texts), DigestsOf(digest, keys))
  }

  lemma RowOfLocator(text: bytes, bounds: seq<nat>, order: seq<nat>, digests: seq<nat>, texts: seq<bytes>, i: nat)
    requires text == Concat(texts) && bounds == TextBounds(texts) && i < |texts|
    ensures KeyLocator(text, bounds, order, digests).Row(i) == texts[i]
  {
    ConcatAt(texts, i);
  }

  // ----- construction -----

  /** The rows added so far. */
  datatype Draft = Draft(text: bytes, bounds: seq<nat>, digests: seq<nat>, estimatedBytes: nat, previousStart: Option<nat>)

  function FixedBytes(entries: nat): nat {
    4 * ((entries + 1) + 2 * entries)
  }

  /** The in-memory index of these keys stays inside its limits. */
  ghost predicate LocatorFits(dict: Dictionary)
    requires dict.Valid() && dict.AllGood()
  {
    && dict.totalEntries <= Min(dict.locatorEntries, U32_MAX)
    && FixedBytes(dict.totalEntries) + |Concat(TextsOf(dict.matcher, dict.Keys()))| <= dict.locatorBytes
    && |Concat(TextsOf(dict.matcher, dict.Keys()))| <= U32_MAX
  }

  ghost function DraftOf(dict: Dictionary, rows: seq<Row>): Draft {
    DraftFrom(TextsOf(dict.matcher, KeysOf(rows)), DigestsOf(dict.digest, KeysOf(rows)), FixedBytes(dict.totalEntries),
              LastStart(rows))
  }

  ghost function DraftFrom(texts: seq<bytes>, digests: seq<nat>, fixedBytes: nat, previousStart: Option<nat>): Draft {
    Draft(Concat(texts), TextBounds(texts), digests, fixedBytes + |Concat(texts)|, previousStart)
  }

  function LastStart(rows: seq<Row>): Option<nat> {
    if rows == [] then None else Some(rows[|rows| - 1].recordStart)
  }

  predicate WithinLimits(dict: Dictionary, d: Draft) {
    d.estimatedBytes <= dict.locatorBytes && |d.text| <= U32_MAX
  }

  /** What adding a row to the rows so far demands. */
  predicate Addable(dict: Dictionary, d: Draft, row: Row) {
    && row.recordStart <= dict.totalRecordLen
    && (d.previousStart.Some? ==> d.previousStart.value <= row.recordStart)
    && d.estimatedBytes + |dict.matcher.Bytes(row.key)| <= dict.locatorBytes
    && |d.text| + |dict.matcher.Bytes(row.key)| <= U32_MAX
  }

  lemma DraftStep(dict: Dictionary, rows: seq<Row>, row: Row)
    ensures var b, d := dict.matcher.Bytes(row.key), DraftOf(dict, rows);
            DraftOf(dict, rows + [row]) == Draft(d.text + b, d.bounds + [|d.text + b|], d.digests + [DigestOf(dict.digest, row.key)],
                                                 d.estimatedBytes + |b|, Some(row.recordStart))
  {
    var texts := TextsOf(dict.matcher, KeysOf(rows));
    var digests := DigestsOf(dict.digest, KeysOf(rows));
    KeysAppend(rows, row);
    TextsOfAppend(dict.matcher, KeysOf(rows), row.key);
    DigestsAppend(dict.digest, KeysOf(rows), row.key);
    DraftFromStep(texts, dict.matcher.Bytes(row.key), digests, LastStart(rows), digests + [DigestOf(dict.digest, row.key)],
                  LastStart(rows + [row]), FixedBytes(dict.totalEntries));
  }

  lemma DraftFromStep(texts: seq<bytes>, b: bytes, digests: seq<nat>, previous: Option<nat>, digests': seq<nat>,
                      previous': Option<nat>, fixedBytes: nat)
    ensures var d := DraftFrom(texts, digests, fixedBytes, previous);
            DraftFrom(texts + [b], digests', fixedBytes, previous') ==
            Draft(d.text + b, d.bounds + [|d.text + b|], digests', d.estimatedBytes + |b|, previous')
  {
    TextsAppend(texts, b);
  }

  /** Adds one row. */
  method AddEntry(dict: Dictionary, d: Draft, entry: Row, ghost rows: seq<Row>) returns (r: Result<Draft>)
    requires dict.Valid() && d == DraftOf(dict, rows) && WithinLimits(dict, d)
    ensures r.Ok? <==> Addable(dict, d, entry)
    ensures r.Ok? ==> r.value == DraftOf(dict, rows + [entry]) && WithinLimits(dict, r.value)
  {
    if entry.recordStart > dict.totalRecordLen {
      return Err(InvalidData);
    }
    if d.previousStart.Some? && d.previousStart.value > entry.recordStart {
      return Err(InvalidData);
    }
    var normalizedLen :- NormalizedLen(dict.normalizer, entry.key);
    var estimatedBytes := d.estimatedBytes + normalizedLen;
    if estimatedBytes > dict.locatorBytes {
      return Err(LimitExceeded(LocatorBytes));
    }
    var text := NormalizeBytesInto(dict.normalizer, entry.key, d.text);
    if |text| > U32_MAX {
      return Err(InvalidFormat);
    }
    DraftStep(dict, rows, entry);
    return Ok(Draft(text, d.bounds + [|text|], d.digests + [DigestOf(dict.digest, entry.key)], estimatedBytes, Some(entry.recordStart)));
  }

  /** The locator can be built. */
  ghost predicate Buildable(dict: Dictionary)
    requires dict.Valid()
  {
    dict.AllGood() && LocatorFits(dict)
  }

  /** In a buildable dictionary every next row can be added. */
  lemma NextIsAddable(dict: Dictionary, rows: seq<Row>, row: Row)
    requires dict.Valid() && Buildable(dict) && rows + [row] <= dict.AllRows()
    ensures Addable(dict, DraftOf(dict, rows), row)
  {
    var all := dict.AllRows();
    dict.RowsBeforeAscend(|dict.keyBlocks|);
    assert all[|rows|] == row && all[..|rows|] == rows;
    if rows != [] {
      assert all[|rows| - 1] == rows[|rows| - 1];
    }
    var texts := TextsOf(dict.matcher, dict.Keys());
    ConcatAt(texts, |rows|);
    assert texts[..|rows|] == TextsOf(dict.matcher, KeysOf(rows));
  }

  /** Adds the rows of one block. */
  method AddBlock(dict: Dictionary, d: Draft, entries: seq<Row>, ghost b: nat) returns (r: Result<Draft>)
    requires dict.Valid() && dict.GoodBefore(b + 1) && dict.CheckedBlock(b) == Ok(entries)
    requires d == DraftOf(dict, dict.RowsBefore(b)) && WithinLimits(dict, d)
    ensures r.Ok? ==> r.value == DraftOf(dict, dict.RowsBefore(b + 1)) && WithinLimits(dict, r.value)
    ensures Buildable(dict) ==> r.Ok?
  {
    var draft := d;
    ghost var before := dict.RowsBefore(b);
    NilConcat(before);
    for i := 0 to |entries|
      invariant draft == DraftOf(dict, before + entries[..i]) && WithinLimits(dict, draft)
    {
      EntryIsNext(dict, b, entries, i);
      draft :- AddEntry(dict, draft, entries[i], before + entries[..i]);
    }
    Whole(entries);
    return Ok(draft);
  }

  lemma EntryIsNext(dict: Dictionary, b: nat, entries: seq<Row>, i: nat)
    requires dict.Valid() && dict.GoodBefore(b + 1) && dict.CheckedBlock(b) == Ok(entries) && i < |entries|
    ensures dict.RowsBefore(b) + entries[..i + 1] == (dict.RowsBefore(b) + entries[..i]) + [entries[i]]
    ensures Buildable(dict) ==> Addable(dict, DraftOf(dict, dict.RowsBefore(b) + entries[..i]), entries[i])
  {
    RowAppended(dict.RowsBefore(b), entries, i);
    if Buildable(dict) {
      EntryInAll(dict, b, entries, i);
      NextIsAddable(dict, dict.RowsBefore(b) + entries[..i], entries[i]);
    }
  }

  lemma RowAppended(before: seq<Row>, entries: seq<Row>, i: nat)
    requires i < |entries|
    ensures before + entries[..i + 1] == (before + entries[..i]) + [entries[i]]
  {
    PrefixGrows(entries, i);
    Associative(before, entries[..i], [entries[i]]);
  }

  lemma EntryInAll(dict: Dictionary, b: nat, entries: seq<Row>, i: nat)
    requires dict.Valid() && dict.AllGood() && dict.CheckedBlock(b) == Ok(entries) && i < |entries|
    ensures dict.GoodBefore(b) && dict.RowsBefore(b) + entries[..i] + [entries[i]] <= dict.AllRows()
  {
    var before := dict.RowsBefore(b);
    dict.RowsBeforeExtends(b + 1, |dict.keyBlocks|);
    RowAppended(before, entries, i);
    BlockPrefix(before, entries, i + 1);
    PrefixTransitive(before + entries[..i] + [entries[i]], before + entries, dict.AllRows());
  }

  lemma BlockPrefix(before: seq<Row>, entries: seq<Row>, i: nat)
    requires i <= |entries|
    ensures before + entries[..i] <= before + entries
  {
    SplitAt(entries, i);
    Associative(before, entries[..i], entries[i..]);
  }

  /** Builds the locator; it succeeds exactly when every block is good and the limits allow it. */
  method BuildKeyLocator(file: MdictFile) returns (r: Result<KeyLocator>)
    requires file.Valid()
    modifies file
    ensures file.Valid()
    ensures r.Ok? <==> Buildable(file.dict)
    ensures r.Ok? ==> r.value == LocatorOf(file.dict.matcher, file.dict.digest, file.dict.Keys())
  {
    var dict := file.dict;
    if dict.totalEntries > Min(dict.locatorEntries, U32_MAX) {
      return Err(LimitExceeded(LocatorEntries));
    }
    var boundSlots, orderAndDigestSlots := dict.totalEntries + 1, 2 * dict.totalEntries;
    var fixedBytes := (boundSlots + orderAndDigestSlots) * 4;
    if fixedBytes > dict.locatorBytes {
      return Err(LimitExceeded(LocatorBytes));
    }
    var draft := Draft([], [0], [], fixedBytes, None);
    EmptyDraft(dict);
    for blockIndex := 0 to |dict.keyBlocks|
      invariant file.Valid() && dict.GoodBefore(blockIndex)
      invariant draft == DraftOf(dict, dict.RowsBefore(blockIndex)) && WithinLimits(dict, draft)
    {
      draft :- AddNextBlock(file, draft, blockIndex);
    }
    r := FinishLocator(dict, draft);
  }

  /** Decodes block `blockIndex` and adds its rows. */
  method AddNextBlock(file: MdictFile, d: Draft, blockIndex: nat) returns (r: Result<Draft>)
    requires file.Valid() && blockIndex < |file.dict.keyBlocks| && file.dict.GoodBefore(blockIndex)
    requires d == DraftOf(file.dict, file.dict.RowsBefore(blockIndex)) && WithinLimits(file.dict, d)
    modifies file
    ensures file.Valid()
    ensures r.Ok? ==> file.dict.GoodBefore(blockIndex + 1)
    ensures r.Ok? ==> r.value == DraftOf(file.dict, file.dict.RowsBefore(blockIndex + 1)) && WithinLimits(file.dict, r.value)
    ensures Buildable(file.dict) ==> r.Ok?
  {
    var dict := file.dict;
    var block := dict.keyBlocks[blockIndex];
    var entries :- file.DecodeKeyBlock(blockIndex);
    var draft :- AddBlock(dict, d, entries, blockIndex);
    DraftCount(dict, blockIndex + 1);
    dict.BlockLength(blockIndex);
    if |draft.digests| != block.entryStartIndex + block.entryCount {
      return Err(InvalidData);
    }
    return Ok(draft);
  }

  /** Sorts the rows of a complete draft. */
  method FinishLocator(dict: Dictionary, draft: Draft) returns (r: Result<KeyLocator>)
    requires dict.Valid() && dict.AllGood() && draft == DraftOf(dict, dict.AllRows())
    ensures r == Ok(LocatorOf(dict.matcher, dict.digest, dict.Keys()))
  {
    DraftCount(dict, |dict.keyBlocks|);
    if |draft.digests| != dict.totalEntries {
      return Err(InvalidData);
    }
    var order := OrderOf(RowTexts(draft.text, draft.bounds, dict.totalEntries));
    RowTextsAre(draft.text, draft.bounds, TextsOf(dict.matcher, dict.Keys()));
    return Ok(KeyLocator(draft.text, draft.bounds, order, draft.digests));
  }

  lemma DraftCount(dict: Dictionary, b: nat)
    requires dict.Valid() && dict.GoodBefore(b)
    ensures |DraftOf(dict, dict.RowsBefore(b)).digests| == StartOf(dict.keyBlocks, b, dict.totalEntries)
  {
    dict.RowsBeforeLength(b);
  }

  lemma EmptyDraft(dict: Dictionary)
    ensures DraftOf(dict, []) == Draft([], [0], [], FixedBytes(dict.totalEntries), None)
  {
    assert TextsOf(dict.matcher, KeysOf([])) == [];
    assert TextBounds([]) == [0];
  }

  /** The texts the sort compares. */
  function RowTexts(text: bytes, bounds: seq<nat>, rows: nat): seq<bytes> {
    seq(rows, i => KeyLocator(text, bounds, [], []).Row(if i >= 0 then i else 0))
  }

  lemma RowTextsAre(text: bytes, bounds: seq<nat>, texts: seq<bytes>)
    requires text == Concat(texts) && bounds == TextBounds(texts)
    ensures RowTexts(text, bounds, |texts|) == texts
  {
    forall i | 0 <= i < |texts|
      ensures RowTexts(text, bounds, |texts|)[i] == texts[i]
    {
      RowOfLocator(text, bounds, [], [], texts, i);
    }
  }
}
