/**
 * Reading records by ordinal and one after the other (src/mdd.rs, `resource_at` and `resources`): descriptors from the
 * key blocks, bytes from the record stream.
 */
module Entries {
  import opened Bytes
  import opened Dictionary
  import opened Iterators
  import opened KeyBlocks
  import opened RecordSpans
  import opened RecordStream
  import opened Sequences
  import opened Wrappers

  datatype Resource = Resource(ordinal: nat, key: string, data: bytes)

  /** The resource is the one the key blocks describe, with the bytes the record blocks have there. */
  ghost predicate IsResource(dict: Dictionary, records: Records, r: Resource)
    requires dict.Valid() && records.Valid()
  {
    exists d: RecordDescriptor :: Describes(dict, records, d, r)
  }

  ghost predicate Describes(dict: Dictionary, records: Records, d: RecordDescriptor, r: Resource)
    requires dict.Valid() && records.Valid()
  {
    && IsDescriptor(dict, d) && d.ordinal == r.ordinal && d.key == r.key
    && d.start <= d.end && |r.data| == d.end - d.start && records.IsPart(d.start, r.data)
  }

  /** An ordinal has one resource, whatever way it was read. */
  lemma ResourceIsUnique(dict: Dictionary, records: Records, a: Resource, b: Resource)
    requires dict.Valid() && records.Valid() && a.ordinal == b.ordinal
    requires IsResource(dict, records, a) && IsResource(dict, records, b)
    ensures a == b
  {
    var d :| Describes(dict, records, d, a);
    var e :| Describes(dict, records, e, b);
    DescriptorIsUnique(dict, d, e);
    records.PartIsUnique(d.start, a.data, b.data);
  }

  /** Nothing in the file stands in the way of reading all of it. */
  ghost predicate AllReadable(dict: Dictionary, records: Records)
    requires dict.Valid() && records.Valid()
  {
    && dict.AllGood() && records.AllDecode() && records.total == dict.totalRecordLen
    && forall i | 0 <= i < |dict.AllRows()| ::
         SpanEnd(dict.AllRows(), dict.totalRecordLen, i) - dict.AllRows()[i].recordStart <= records.materializedRecordBytes
  }

  lemma DescriptorOrdinal(dict: Dictionary, d: RecordDescriptor)
    requires dict.Valid() && IsDescriptor(dict, d)
    ensures d.ordinal < dict.totalEntries && d.start <= d.end
  {
    var b: nat, i: nat :| IsDescriptorIn(dict, d, b, i);
    dict.BlockLength(b);
    CoversStep(dict.keyBlocks, 0, dict.totalEntries, b);
    if i + 1 == |dict.CheckedBlock(b).value| {
      BlocksMeet(dict, b, d.end);
    }
  }

  /** Reads the bytes a descriptor points at. */
  method ReadResource(reader: RecordReader, ghost dict: Dictionary, d: RecordDescriptor) returns (r: Result<Resource>)
    requires reader.Valid() && dict.Valid() && IsDescriptor(dict, d)
    modifies reader
    ensures reader.Valid()
    ensures r.Ok? ==> r.value.ordinal == d.ordinal < dict.totalEntries && IsResource(dict, reader.records, r.value)
    ensures AllReadable(dict, reader.records) ==> r.Ok?
  {
    DescriptorOrdinal(dict, d);
    if AllReadable(dict, reader.records) {
      dict.RowsBeforeLength(|dict.keyBlocks|);
      DescriptorOfAll(dict, d);
      SpansTile(dict, d.ordinal);
    }
    var data :- reader.ReadRecordSpan(d.start, d.end);
    r := Ok(Resource(d.ordinal, d.key, data));
    assert Describes(dict, reader.records, d, r.value);
  }

  /** The resource at an ordinal. */
  method ResourceAt(file: MdictFile, reader: RecordReader, ordinal: nat) returns (r: Result<Option<Resource>>)
    requires file.Valid() && reader.Valid() && (file as object) != reader
    modifies file, reader
    ensures file.Valid() && reader.Valid()
    ensures r.Ok? ==> (r.value.Some? <==> ordinal < file.dict.totalEntries)
    ensures r.Ok? && r.value.Some? ==>
              r.value.value.ordinal == ordinal && IsResource(file.dict, reader.records, r.value.value)
    ensures AllReadable(file.dict, reader.records) ==> r.Ok?
  {
    var descriptor :- RecordAtOrdinal(file, ordinal);
    if descriptor == None {
      return Ok(None);
    }
    var resource :- ReadResource(reader, file.dict, descriptor.value);
    return Ok(Some(resource));
  }

  class ResourceIter {
    const file: MdictFile
    const reader: RecordReader
    const records: RecordIter
    var done: bool

    ghost predicate Valid()
      reads this, file, reader, records
    {
      && (file as object) !in {reader as object, records, this} && (reader as object) !in {records as object, this}
      && (records as object) != this
      && records.file == file && records.Valid() && reader.Valid()
    }

    ghost function Position(): nat
      requires Valid()
      reads this, file, reader, records
    {
      records.Position()
    }

    /** Nothing more will come. */
    predicate Ended()
      reads this, records
    {
      done || records.done
    }

    constructor (file: MdictFile, reader: RecordReader)
      requires file.Valid() && reader.Valid() && (file as object) != reader
      ensures this.file == file && this.reader == reader && fresh(records)
      ensures Valid() && !Ended() && Position() == 0
    {
      this.file := file;
      this.reader := reader;
      records := new RecordIter(file);
      done := false;
    }

    /** The next resource; an error or the end is final, and a readable file yields every resource. */
    method Next() returns (r: Option<Result<Resource>>)
      requires Valid()
      modifies this, file, reader, records
      ensures Valid()
      ensures old(Ended()) ==> r == None && Ended()
      ensures !old(Ended()) && r == None ==> old(Position()) == file.dict.totalEntries && Ended()
      ensures r.Some? && r.value.Err? ==> Ended() && !AllReadable(file.dict, reader.records)
      ensures r.Some? && r.value.Ok? ==>
                && !Ended() && r.value.value.ordinal == old(Position()) < file.dict.totalEntries
                && Position() == old(Position()) + 1 && IsResource(file.dict, reader.records, r.value.value)
    {
      if done {
        return None;
      }
      var next := records.Next();
      if next == None {
        return None;
      }
      if next.value.Err? {
        done := true;
        return Some(Err(next.value.error));
      }
      var resource := ReadResource(reader, file.dict, next.value.value);
      if resource.Err? {
        done := true;
      }
      return Some(resource);
    }
  }

  // ----- all of them -----

  function DataOf(resources: seq<Resource>): (data: seq<bytes>)
    ensures |data| == |resources|
  {
    seq(|resources|, i requires 0 <= i < |resources| => resources[i].data)
  }

  /** Resources with the ordinals from zero on. */
  ghost predicate FirstResources(dict: Dictionary, records: Records, resources: seq<Resource>)
    requires dict.Valid() && records.Valid()
  {
    forall i | 0 <= i < |resources| :: resources[i].ordinal == i && IsResource(dict, records, resources[i])
  }

  /** In a good file a resource is the slice of the record stream between its start and the next. */
  lemma ResourceIsSlice(dict: Dictionary, records: Records, r: Resource)
    requires dict.Valid() && records.Valid() && IsResource(dict, records, r)
    requires dict.AllGood() && records.AllDecode() && records.total == dict.totalRecordLen
    ensures r.ordinal < |dict.AllRows()| == dict.totalEntries && |records.Stream()| == records.total
    ensures dict.AllRows()[r.ordinal].recordStart <= SpanEnd(dict.AllRows(), records.total, r.ordinal) <= records.total
    ensures r.data == records.Stream()[dict.AllRows()[r.ordinal].recordStart..SpanEnd(dict.AllRows(), records.total, r.ordinal)]
    ensures r.key == dict.AllRows()[r.ordinal].key
  {
    var d :| Describes(dict, records, d, r);
    DescriptorOfAll(dict, d);
    dict.RowsBeforeLength(|dict.keyBlocks|);
    SpansTile(dict, r.ordinal);
    records.PartIsSlice(d.start, r.data);
  }

  /** Resource `i` holds what the stream has from the start of row `i` to the next start. */
  ghost predicate SlicesOf(resources: seq<Resource>, rows: seq<Row>, stream: bytes)
    requires |resources| <= |rows| && StartsAscend(rows) && StartsWithin(rows, |stream|)
  {
    forall i | 0 <= i < |resources| :: resources[i].data == stream[rows[i].recordStart..SpanEnd(rows, |stream|, i)]
  }

  /** Records cut at the starts of consecutive rows are, one behind the other, what the stream has up to the next start. */
  lemma {:induction false} SlicesAreRecords(resources: seq<Resource>, rows: seq<Row>, stream: bytes)
    requires |resources| <= |rows| && StartsAscend(rows) && StartsWithin(rows, |stream|)
    requires SlicesOf(resources, rows, stream)
    ensures Concat(DataOf(resources)) == RecordsBefore(rows, stream, |resources|)
  {
    if resources != [] {
      var front, last := resources[..|resources| - 1], resources[|resources| - 1];
      SlicesAreRecords(front, rows, stream);
      assert DataOf(resources) == DataOf(front) + [last.data];
      ConcatAppend(DataOf(front), last.data);
    }
  }

  lemma ResourcesAreSlices(dict: Dictionary, records: Records, resources: seq<Resource>, rows: seq<Row>, stream: bytes)
    requires dict.Valid() && records.Valid() && FirstResources(dict, records, resources)
    requires dict.AllGood() && records.AllDecode() && records.total == dict.totalRecordLen
    requires rows == dict.AllRows() && stream == records.Stream() && |resources| <= |rows|
    ensures |stream| == records.total && StartsAscend(rows) && StartsWithin(rows, |stream|)
    ensures SlicesOf(resources, rows, stream)
  {
    dict.RowsBeforeAscend(|dict.keyBlocks|);
    records.StreamIsPart(|records.blocks|);
    forall i | 0 <= i < |resources|
      ensures resources[i].data == stream[rows[i].recordStart..SpanEnd(rows, |stream|, i)]
    {
      ResourceIsSlice(dict, records, resources[i]);
    }
  }

  /** All resources of a good file, one behind the other, are its record stream from the first start on. */
  lemma ResourcesAreStream(dict: Dictionary, records: Records, resources: seq<Resource>, rows: seq<Row>, stream: bytes)
    requires dict.Valid() && records.Valid() && FirstResources(dict, records, resources)
    requires dict.AllGood() && records.AllDecode() && records.total == dict.totalRecordLen
    requires rows == dict.AllRows() && stream == records.Stream() && |resources| == dict.totalEntries > 0
    ensures |rows| == dict.totalEntries && rows[0].recordStart <= |stream|
    ensures Concat(DataOf(resources)) == stream[rows[0].recordStart..]
  {
    dict.RowsBeforeLength(|dict.keyBlocks|);
    ResourcesAreSlices(dict, records, resources, rows, stream);
    SlicesAreStream(resources, rows, stream);
  }

  lemma SlicesAreStream(resources: seq<Resource>, rows: seq<Row>, stream: bytes)
    requires |resources| == |rows| > 0 && StartsAscend(rows) && StartsWithin(rows, |stream|)
    requires SlicesOf(resources, rows, stream)
    ensures rows[0].recordStart <= |stream| && Concat(DataOf(resources)) == stream[rows[0].recordStart..]
  {
    SlicesAreRecords(resources, rows, stream);
    RecordsAreStream(rows, stream, |resources|);
  }

  /**
   * Iterates to the end. Whatever the caches held, a complete iteration of a good file gives every record once, and
   * the records, one behind the other, are the whole decoded stream from the first start on.
   */
  method ReadAllResources(file: MdictFile, reader: RecordReader) returns (r: Result<seq<Resource>>)
    requires file.Valid() && reader.Valid() && (file as object) != reader
    modifies file, reader
    ensures file.Valid() && reader.Valid()
    ensures r.Ok? ==> |r.value| == file.dict.totalEntries && FirstResources(file.dict, reader.records, r.value)
    ensures r.Ok? && file.dict.AllGood() && reader.records.AllDecode() && reader.records.total == file.dict.totalRecordLen &&
            r.value != [] ==>
              && |file.dict.AllRows()| == |r.value| && file.dict.AllRows()[0].recordStart <= |reader.records.Stream()|
              && Concat(DataOf(r.value)) == reader.records.Stream()[file.dict.AllRows()[0].recordStart..]
    ensures AllReadable(file.dict, reader.records) ==> r.Ok?
  {
    var resources: seq<Resource> := [];
    var iter := new ResourceIter(file, reader);
    while true
      invariant fresh(iter) && fresh(iter.records) && iter.file == file && iter.reader == reader
      invariant iter.Valid() && !iter.Ended() && iter.Position() == |resources| <= file.dict.totalEntries
      invariant FirstResources(file.dict, reader.records, resources)
      decreases file.dict.totalEntries - |resources|
    {
      var next := iter.Next();
      if next == None {
        break;
      }
      if next.value.Err? {
        return Err(next.value.error);
      }
      resources := resources + [next.value.value];
    }
    if resources != [] && file.dict.AllGood() && reader.records.AllDecode() && reader.records.total == file.dict.totalRecordLen {
      ResourcesAreStream(file.dict, reader.records, resources, file.dict.AllRows(), reader.records.Stream());
    }
    return Ok(resources);
  }
}
