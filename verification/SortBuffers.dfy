/** The in-memory sort buffer of the index builder and what it writes (src/core/persistent/sort.rs). */
module SortBuffers {
  import opened Bytes
  import opened Merge
  import opened RecordOrder
  import opened Runs
  import opened Scratch
  import opened Sequences
  import opened Wrappers

  /** A record's key is a slice of the buffer's arena. */
  datatype ArenaRecord = ArenaRecord(start: nat, len: nat, ordinal: nat)

  ghost predicate InArena(normalized: bytes, record: ArenaRecord) {
    record.start + record.len <= |normalized|
  }

  function RecOf(normalized: bytes, record: ArenaRecord): Rec
    requires record.start + record.len <= |normalized|
  {
    Rec(normalized[record.start..record.start + record.len], record.ordinal)
  }

  ghost predicate AllInArena(normalized: bytes, records: seq<ArenaRecord>) {
    forall i | 0 <= i < |records| :: InArena(normalized, records[i])
  }

  /** The sort records an arena holds. */
  ghost function RecsIn(normalized: bytes, records: seq<ArenaRecord>): (recs: seq<Rec>)
    requires AllInArena(normalized, records)
    ensures |recs| == |records|
    ensures forall i | 0 <= i < |records| :: recs[i] == RecOf(normalized, records[i])
  {
    seq(|records|, i requires 0 <= i < |records| => RecOf(normalized, records[i]))
  }

  // ----- sorting -----

  function ArenaInsert(normalized: bytes, x: ArenaRecord, records: seq<ArenaRecord>): seq<ArenaRecord>
    requires AllInArena(normalized, records) && InArena(normalized, x)
  {
    if records == [] then [x]
    else if RecLe(RecOf(normalized, x), RecOf(normalized, records[0])) then [x] + records
    else [records[0]] + ArenaInsert(normalized, x, records[1..])
  }

  function ArenaSort(normalized: bytes, records: seq<ArenaRecord>): (sorted: seq<ArenaRecord>)
    requires AllInArena(normalized, records)
    ensures AllInArena(normalized, sorted)
  {
    if records == [] then []
    else
      InsertStaysInArena(normalized, records[0], ArenaSort(normalized, records[1..]));
      ArenaInsert(normalized, records[0], ArenaSort(normalized, records[1..]))
  }

  lemma {:induction false} InsertStaysInArena(normalized: bytes, x: ArenaRecord, records: seq<ArenaRecord>)
    requires AllInArena(normalized, records) && InArena(normalized, x)
    ensures AllInArena(normalized, ArenaInsert(normalized, x, records))
  {
    if records != [] && !RecLe(RecOf(normalized, x), RecOf(normalized, records[0])) {
      InsertStaysInArena(normalized, x, records[1..]);
    }
  }

  lemma RecsInHead(normalized: bytes, x: ArenaRecord, records: seq<ArenaRecord>)
    requires AllInArena(normalized, [x] + records)
    ensures AllInArena(normalized, records) && InArena(normalized, x)
    ensures RecsIn(normalized, [x] + records) == [RecOf(normalized, x)] + RecsIn(normalized, records)
  {
    var all := [x] + records;
    assert all[0] == x;
    forall i | 0 <= i < |records|
      ensures InArena(normalized, records[i])
    {
      assert all[i + 1] == records[i];
    }
  }

  lemma {:induction false} InsertInserts(normalized: bytes, x: ArenaRecord, records: seq<ArenaRecord>)
    requires AllInArena(normalized, records) && InArena(normalized, x)
    ensures AllInArena(normalized, ArenaInsert(normalized, x, records))
    ensures RecsIn(normalized, ArenaInsert(normalized, x, records)) ==
            Insert(RecOf(normalized, x), RecsIn(normalized, records))
  {
    InsertStaysInArena(normalized, x, records);
    if records == [] || RecLe(RecOf(normalized, x), RecOf(normalized, records[0])) {
      NilConcat([x]);
      RecsInHead(normalized, x, records);
    } else {
      InsertInserts(normalized, x, records[1..]);
      HeadTail(records);
      RecsInHead(normalized, records[0], records[1..]);
      RecsInHead(normalized, records[0], ArenaInsert(normalized, x, records[1..]));
    }
  }

  /** Sorting the arena's records sorts what they stand for. */
  lemma {:induction false} ArenaSortSorts(normalized: bytes, records: seq<ArenaRecord>)
    requires AllInArena(normalized, records)
    ensures RecsIn(normalized, ArenaSort(normalized, records)) == SortRecs(RecsIn(normalized, records))
  {
    if records != [] {
      ArenaSortSorts(normalized, records[1..]);
      HeadTail(records);
      RecsInHead(normalized, records[0], records[1..]);
      InsertInserts(normalized, records[0], ArenaSort(normalized, records[1..]));
    }
  }

  class SortBuffer {
    var normalized: bytes
    var records: seq<ArenaRecord>

    ghost predicate Valid()
      reads this
    {
      AllInArena(normalized, records)
    }

    /** What the buffer holds. */
    ghost function Recs(): seq<Rec>
      requires Valid()
      reads this
    {
      RecsIn(normalized, records)
    }

    constructor ()
      ensures Valid() && Recs() == []
    {
      normalized, records := [], [];
    }

    method Clear()
      modifies this
      ensures Valid() && Recs() == []
    {
      normalized, records := [], [];
    }

    /** Appends a record whose key goes to the end of the arena. */
    method Push(key: bytes, ordinal: nat)
      requires Valid()
      modifies this
      ensures Valid() && Recs() == old(Recs()) + [Rec(key, ordinal)]
    {
      ArenaGrows(normalized, key, records);
      ArenaAppends(normalized, key, records, ordinal);
      records := records + [ArenaRecord(|normalized|, |key|, ordinal)];
      normalized := normalized + key;
    }

    method SortRecords()
      requires Valid()
      modifies this
      ensures Valid() && Recs() == SortRecs(old(Recs())) && normalized == old(normalized)
    {
      ArenaSortSorts(normalized, records);
      records := ArenaSort(normalized, records);
    }
  }

  lemma ArenaGrows(normalized: bytes, key: bytes, records: seq<ArenaRecord>)
    requires AllInArena(normalized, records)
    ensures AllInArena(normalized + key, records)
    ensures RecsIn(normalized + key, records) == RecsIn(normalized, records)
  {
    forall i | 0 <= i < |records|
      ensures InArena(normalized + key, records[i])
      ensures RecOf(normalized + key, records[i]) == RecOf(normalized, records[i])
    {
      assert InArena(normalized, records[i]);
      SliceOfPrefix(normalized, key, records[i].start, records[i].start + records[i].len);
    }
  }

  lemma ArenaAppends(normalized: bytes, key: bytes, records: seq<ArenaRecord>, ordinal: nat)
    requires AllInArena(normalized + key, records)
    ensures var record := ArenaRecord(|normalized|, |key|, ordinal);
            && AllInArena(normalized + key, records + [record])
            && RecsIn(normalized + key, records + [record]) == RecsIn(normalized + key, records) + [Rec(key, ordinal)]
  {
    ShiftedSlice(normalized, key, 0, |key|);
    Whole(key);
    var all := records + [ArenaRecord(|normalized|, |key|, ordinal)];
    forall i | 0 <= i < |all|
      ensures InArena(normalized + key, all[i])
    {
      if i < |records| {
        assert InArena(normalized + key, records[i]);
      }
    }
  }

  lemma SliceOfPrefix(a: bytes, b: bytes, i: nat, j: nat)
    requires i <= j <= |a|
    ensures (a + b)[i..j] == a[i..j]
  {
  }

  // ----- writing -----

  /** Writes the order of everything in the buffer. */
  method WriteSortedOrder(file: SectionScratchWriter, buffer: SortBuffer)
    requires buffer.Valid() && file.Valid()
    requires (buffer as object) !in {file as object, file.inner, file.inner.file}
    modifies buffer, file, file.inner, file.inner.file
    ensures file.Valid() && file.Written() == old(file.Written()) + LeTable(4, Ordinals(SortRecs(old(buffer.Recs()))))
  {
    buffer.SortRecords();
    ghost var before, recs := file.Written(), buffer.Recs();
    assert Ordinals(recs[..0]) == [];
    NilConcat(before);
    for i := 0 to |buffer.records|
      invariant buffer.Valid() && buffer.Recs() == recs && file.Valid()
      invariant file.Written() == before + LeTable(4, Ordinals(recs[..i]))
    {
      OrdinalsGrow(recs, i);
      Associative(before, LeTable(4, Ordinals(recs[..i])), Le(4, recs[i].ordinal));
      file.Write(Le(4, buffer.records[i].ordinal));
    }
    Whole(recs);
  }

  /** The body length a run announces. */
  method RunBodyLen(buffer: SortBuffer) returns (r: Result<nat>)
    requires buffer.Valid()
    ensures r == if |Body(buffer.Recs())| <= U64_MAX then Ok(|Body(buffer.Recs())|) else Err(InvalidFormat)
  {
    var bodyLen: nat := 0;
    ghost var recs := buffer.Recs();
    for i := 0 to |buffer.records|
      invariant bodyLen == |Body(recs[..i])| <= U64_MAX
    {
      BodyPrefix(recs, i);
      bodyLen := bodyLen + 12 + buffer.records[i].len;
      if bodyLen > U64_MAX {
        return Err(InvalidFormat);
      }
    }
    Whole(recs);
    return Ok(bodyLen);
  }

  lemma BodyPrefix(recs: seq<Rec>, i: nat)
    requires i < |recs|
    ensures Body(recs[..i + 1]) == Body(recs[..i]) + RecordBytes(recs[i])
    ensures |Body(recs[..i + 1])| <= |Body(recs)|
  {
    PrefixGrows(recs, i);
    BodyAppend(recs[..i], recs[i]);
    SplitAt(recs, i + 1);
    BodyConcat(recs[..i + 1], recs[i + 1..]);
  }

  /** Writes the buffer as one sorted run. */
  method WriteSortedRun(file: BufferedScratchWriter, buffer: SortBuffer) returns (r: Result<()>)
    requires buffer.Valid() && file.Valid() && (buffer as object) !in {file as object, file.file}
    modifies buffer, file, file.file
    ensures file.Valid() && buffer.Valid()
    ensures r.Ok? <==> |Body(old(buffer.Recs()))| <= U64_MAX
    ensures r.Ok? ==> file.Written() == old(file.Written()) + RunBytes(SortRecs(old(buffer.Recs())))
  {
    ghost var before := file.Written();
    SortRecsSorts(buffer.Recs());
    BodyLengthIsConserved(buffer.Recs(), SortRecs(buffer.Recs()));
    buffer.SortRecords();
    ghost var recs := buffer.Recs();
    var bodyLen :- RunBodyLen(buffer);
    file.WriteAll(Le(8, bodyLen));
    file.WriteAll(Le(8, |buffer.records|));
    Associative(before, Le(8, bodyLen), Le(8, |recs|));
    ghost var head := before + (Le(8, bodyLen) + Le(8, |recs|));
    NilConcat(head);
    for i := 0 to |buffer.records|
      invariant buffer.Valid() && buffer.Recs() == recs && file.Valid()
      invariant file.Written() == head + Body(recs[..i])
    {
      WriteRecordOf(file, buffer, i);
      BodyPrefix(recs, i);
      Associative(head, Body(recs[..i]), RecordBytes(recs[i]));
    }
    Whole(recs);
    Associative(before, Le(8, bodyLen) + Le(8, |recs|), Body(recs));
    return Ok(());
  }

  /** Writes one record: key length, key, ordinal. */
  method WriteRecordOf(file: BufferedScratchWriter, buffer: SortBuffer, i: nat)
    requires buffer.Valid() && file.Valid() && i < |buffer.records| && (buffer as object) !in {file as object, file.file}
    modifies file, file.file
    ensures file.Valid() && file.Written() == old(file.Written()) + RecordBytes(buffer.Recs()[i])
  {
    ghost var before := file.Written();
    var record := buffer.records[i];
    assert InArena(buffer.normalized, record);
    var key := buffer.normalized[record.start..record.start + record.len];
    file.WriteAll(Le(8, record.len));
    file.WriteAll(key);
    file.WriteAll(Le(4, record.ordinal));
    Associative(before, Le(8, record.len), key);
    Associative(before, Le(8, record.len) + key, Le(4, record.ordinal));
  }
}
