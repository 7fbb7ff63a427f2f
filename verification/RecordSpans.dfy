/**
 * Record spans of keys, by ordinal and by iteration (src/core/records.rs, src/core/iter.rs). A record ends where
 * the next key's record starts, possibly in the next key block.
 */
module RecordSpans {
  import opened Bytes
  import opened Dictionary
  import opened KeyBlocks
  import opened RecordStream
  import opened Wrappers

  datatype RecordDescriptor = RecordDescriptor(ordinal: nat, key: string, start: nat, end: nat)

  /** Where the record of the last row of block `b` ends. */
  ghost predicate EndsBlock(dict: Dictionary, b: nat, end: nat)
    requires dict.Valid() && b < |dict.keyBlocks|
  {
    if b + 1 < |dict.keyBlocks| then
      dict.CheckedBlock(b + 1).Ok? && dict.CheckedBlock(b + 1).value != [] && end == dict.CheckedBlock(b + 1).value[0].recordStart
    else end == dict.totalRecordLen
  }

  /** The descriptor of row `i` of block `b`. */
  ghost predicate IsDescriptorIn(dict: Dictionary, d: RecordDescriptor, b: nat, i: nat)
    requires dict.Valid()
  {
    && b < |dict.keyBlocks| && dict.CheckedBlock(b).Ok? && i < |dict.CheckedBlock(b).value|
    && var rows := dict.CheckedBlock(b).value;
       && d.ordinal == dict.keyBlocks[b].entryStartIndex + i
       && d.key == rows[i].key && d.start == rows[i].recordStart
       && if i + 1 < |rows| then d.end == rows[i + 1].recordStart else EndsBlock(dict, b, d.end)
  }

  ghost predicate IsDescriptor(dict: Dictionary, d: RecordDescriptor)
    requires dict.Valid()
  {
    exists b: nat, i: nat :: IsDescriptorIn(dict, d, b, i)
  }

  /** One ordinal has one descriptor, whatever way it was found. */
  lemma DescriptorIsUnique(dict: Dictionary, d: RecordDescriptor, d': RecordDescriptor)
    requires dict.Valid() && IsDescriptor(dict, d) && IsDescriptor(dict, d') && d.ordinal == d'.ordinal
    ensures d == d'
  {
    var b: nat, i: nat :| IsDescriptorIn(dict, d, b, i);
    var c: nat, j: nat :| IsDescriptorIn(dict, d', c, j);
    dict.BlockLength(b);
    dict.BlockLength(c);
    dict.HoldsOnce(b, c, d.ordinal);
  }

  /** A block's last record does not end before it starts, because the next block was checked against this one. */
  lemma BlocksMeet(dict: Dictionary, b: nat, end: nat)
    requires dict.Valid() && b < |dict.keyBlocks| && dict.CheckedBlock(b).Ok? && EndsBlock(dict, b, end)
    ensures var rows := dict.CheckedBlock(b).value; rows != [] && rows[|rows| - 1].recordStart <= end
  {
    dict.BlockLength(b);
    if b + 1 < |dict.keyBlocks| {
      dict.BlockLength(b + 1);
    }
  }

  /** The descriptor at a position of a decoded block; only the next block can fail it. */
  method RecordDescriptorFromHit(file: MdictFile, hit: KeyBlockHit) returns (r: Result<RecordDescriptor>)
    requires file.Valid() && hit.blockIndex < |file.dict.keyBlocks|
    requires file.dict.CheckedBlock(hit.blockIndex) == Ok(hit.entries) && hit.entryIndex < |hit.entries|
    modifies file
    ensures file.Valid()
    ensures r.Ok? ==> IsDescriptorIn(file.dict, r.value, hit.blockIndex, hit.entryIndex) && r.value.start <= r.value.end
    ensures r.Err? ==> hit.entryIndex + 1 == |hit.entries| && !file.dict.GoodUpTo(hit.blockIndex + 1)
                       && hit.blockIndex + 1 < |file.dict.keyBlocks|
  {
    var dict := file.dict;
    var ordinal := dict.keyBlocks[hit.blockIndex].entryStartIndex + hit.entryIndex;
    var entry := hit.entries[hit.entryIndex];
    dict.BlockLength(hit.blockIndex);
    var end: nat;
    if hit.entryIndex + 1 < |hit.entries| {
      end := hit.entries[hit.entryIndex + 1].recordStart;
    } else if hit.blockIndex + 1 < |dict.keyBlocks| {
      var next :- file.DecodeKeyBlock(hit.blockIndex + 1);
      dict.BlockLength(hit.blockIndex + 1);
      if next == [] {
        return Err(InvalidFormat);
      }
      end := next[0].recordStart;
    } else {
      end := dict.totalRecordLen;
    }
    if hit.entryIndex + 1 == |hit.entries| {
      BlocksMeet(dict, hit.blockIndex, end);
    }
    if end < entry.recordStart {
      return Err(InvalidData);
    }
    return Ok(RecordDescriptor(ordinal, entry.key, entry.recordStart, end));
  }

  /** The record of an ordinal. */
  method RecordAtOrdinal(file: MdictFile, ordinal: nat) returns (r: Result<Option<RecordDescriptor>>)
    requires file.Valid()
    modifies file
    ensures file.Valid()
    ensures r.Ok? ==> (r.value.Some? <==> ordinal < file.dict.totalEntries)
    ensures r.Ok? && r.value.Some? ==> IsDescriptor(file.dict, r.value.value) && r.value.value.ordinal == ordinal
    ensures file.dict.AllGood() ==> r.Ok?
  {
    var hit :- file.KeyEntryAtOrdinal(ordinal);
    if hit == None {
      return Ok(None);
    }
    var descriptor :- RecordDescriptorFromHit(file, hit.value);
    assert IsDescriptorIn(file.dict, descriptor, hit.value.blockIndex, hit.value.entryIndex);
    return Ok(Some(descriptor));
  }

  // ----- the spans of a good file tile its record stream -----

  /** The end of the record at an ordinal: the start of the next, or the end of the stream. */
  ghost function SpanEnd(rows: seq<Row>, total: nat, i: nat): nat
    requires i < |rows|
  {
    if i + 1 < |rows| then rows[i + 1].recordStart else total
  }

  /** In a good file a descriptor is what the list of all rows says. */
  lemma DescriptorOfAll(dict: Dictionary, d: RecordDescriptor)
    requires dict.Valid() && dict.AllGood() && IsDescriptor(dict, d)
    ensures d.ordinal < |dict.AllRows()|
    ensures d.start == dict.AllRows()[d.ordinal].recordStart && d.key == dict.AllRows()[d.ordinal].key
    ensures d.end == SpanEnd(dict.AllRows(), dict.totalRecordLen, d.ordinal)
  {
    var b: nat, i: nat :| IsDescriptorIn(dict, d, b, i);
    dict.BlockLength(b);
    dict.RowOfAll(b, d.ordinal);
    NextRowOfAll(dict, b, i);
  }

  lemma NextRowOfAll(dict: Dictionary, b: nat, i: nat)
    requires dict.Valid() && dict.AllGood() && b < |dict.keyBlocks| && i < |dict.CheckedBlock(b).value|
    ensures var rows, all, next := dict.CheckedBlock(b).value, dict.AllRows(), dict.keyBlocks[b].entryStartIndex + i + 1;
            && |all| == dict.totalEntries
            && (i + 1 < |rows| ==> next < |all| && all[next] == rows[i + 1])
            && (i + 1 == |rows| && b + 1 < |dict.keyBlocks| ==>
                next < |all| && dict.CheckedBlock(b + 1).value != [] && all[next] == dict.CheckedBlock(b + 1).value[0])
            && (i + 1 == |rows| && b + 1 == |dict.keyBlocks| ==> next == |all|)
  {
    dict.BlockLength(b);
    dict.RowsBeforeLength(|dict.keyBlocks|);
    var next := dict.keyBlocks[b].entryStartIndex + i + 1;
    if i + 1 < |dict.CheckedBlock(b).value| {
      dict.RowOfAll(b, next);
    } else if b + 1 < |dict.keyBlocks| {
      dict.BlockLength(b + 1);
      dict.RowOfAll(b + 1, next);
    }
  }

  /** Spans follow each other without gap or overlap up to the end of the stream. */
  lemma SpansTile(dict: Dictionary, i: nat)
    requires dict.Valid() && dict.AllGood() && i < dict.totalEntries
    ensures var rows, total := dict.AllRows(), dict.totalRecordLen;
            && |rows| == dict.totalEntries
            && rows[i].recordStart <= SpanEnd(rows, total, i) <= total
            && (i + 1 < |rows| ==> SpanEnd(rows, total, i) == rows[i + 1].recordStart)
            && (i + 1 == |rows| ==> SpanEnd(rows, total, i) == total)
  {
    dict.RowsBeforeAscend(|dict.keyBlocks|);
    dict.RowsBeforeLength(|dict.keyBlocks|);
  }

  /** The records before row `n`, one after the other. */
  ghost function RecordsBefore(rows: seq<Row>, stream: bytes, n: nat): bytes
    requires n <= |rows| && StartsAscend(rows) && StartsWithin(rows, |stream|)
  {
    if n == 0 then []
    else
      RecordsBefore(rows, stream, n - 1) + stream[rows[n - 1].recordStart..SpanEnd(rows, |stream|, n - 1)]
  }

  /** All records together are the stream from the first record on. */
  lemma {:induction false} RecordsAreStream(rows: seq<Row>, stream: bytes, n: nat)
    requires n <= |rows| && rows != [] && StartsAscend(rows) && StartsWithin(rows, |stream|)
    ensures var end := if n < |rows| then rows[n].recordStart else |stream|;
            rows[0].recordStart <= end && RecordsBefore(rows, stream, n) == stream[rows[0].recordStart..end]
  {
    if n > 0 {
      RecordsAreStream(rows, stream, n - 1);
      var first, from, to := rows[0].recordStart, rows[n - 1].recordStart, SpanEnd(rows, |stream|, n - 1);
      assert stream[first..to] == stream[first..from] + stream[from..to];
    }
  }
}
