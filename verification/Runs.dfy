/**
 * Sorted runs on a scratch file (src/core/persistent/sort.rs): their wire form, the buffered cursor that reads
 * one, and the record reader.
 */
module Runs {
  import opened Bytes
  import opened RecordOrder
  import opened Scratch
  import opened Sequences
  import opened Utf8
  import opened Wrappers

  // ----- wire form -----

  const RUN_HEADER_BYTES: nat := 16
  const RECORD_OVERHEAD: nat := 12

  /** A record is its key length, its key and its ordinal. */
  function RecordBytes(r: Rec): (s: bytes)
    ensures |s| == RECORD_OVERHEAD + |r.key|
  {
    Le(8, |r.key|) + r.key + Le(4, r.ordinal)
  }

  function Body(recs: seq<Rec>): bytes {
    if recs == [] then [] else RecordBytes(recs[0]) + Body(recs[1..])
  }

  /** A run states its exact body length and row count before its body. */
  function RunBytes(recs: seq<Rec>): bytes {
    Le(8, |Body(recs)|) + Le(8, |recs|) + Body(recs)
  }

  function RunsBytes(runs: seq<seq<Rec>>): bytes {
    if runs == [] then [] else RunBytes(runs[0]) + RunsBytes(runs[1..])
  }

  /** What a record must satisfy to be written and read back. */
  ghost predicate WellFormed(r: Rec, maximum: nat) {
    |r.key| <= maximum && IsUtf8(r.key) && r.ordinal <= U32_MAX
  }

  ghost predicate AllWellFormed(recs: seq<Rec>, maximum: nat) {
    forall i | 0 <= i < |recs| :: WellFormed(recs[i], maximum)
  }

  lemma {:induction false} BodyConcat(a: seq<Rec>, b: seq<Rec>)
    ensures Body(a + b) == Body(a) + Body(b)
  {
    if a == [] {
      NilConcat(b);
    } else {
      BodyConcat(a[1..], b);
      TailOfConcat(a, b);
      Associative(RecordBytes(a[0]), Body(a[1..]), Body(b));
    }
  }

  lemma BodyAppend(recs: seq<Rec>, r: Rec)
    ensures Body(recs + [r]) == Body(recs) + RecordBytes(r)
  {
    BodyConcat(recs, [r]);
    assert [r][1..] == [];
    assert Body([r]) == RecordBytes(r) + Body([]);
  }

  /** A body's length does not depend on the order of its records. */
  lemma {:induction false} BodyLengthIsConserved(a: seq<Rec>, b: seq<Rec>)
    requires multiset(a) == multiset(b)
    ensures |a| == |b| && |Body(a)| == |Body(b)|
  {
    assert |multiset(a)| == |a| && |multiset(b)| == |b|;
    if a != [] {
      HeadTail(a);
      MultisetOfConcat([a[0]], a[1..]);
      assert a[0] in multiset(b);
      var i := TakeOut(b, a[0]);
      BodyLengthIsConserved(a[1..], b[..i] + b[i + 1..]);
      BodyConcat(b[..i], b[i + 1..]);
      BodyConcat(b[..i] + [a[0]], b[i + 1..]);
      BodyAppend(b[..i], a[0]);
    }
  }

  lemma RowsFitBody(recs: seq<Rec>)
    ensures RECORD_OVERHEAD * |recs| <= |Body(recs)|
  {
    if recs != [] {
      RowsFitBody(recs[1..]);
    }
  }

  // ----- the cursor -----

  /** A reading position inside one run, with a read-ahead buffer. */
  class RunCursor {
    var cursor: nat
    const end: nat
    var remaining: nat
    const bodyLen: nat
    var buffer: bytes
    var bufferPosition: nat
    const bufferCapacity: nat

    /** The buffer's unread part is the file's content at the cursor. */
    ghost predicate Valid(data: bytes)
      reads this
    {
      && 0 < bufferCapacity
      && bufferPosition <= |buffer|
      && cursor + (|buffer| - bufferPosition) <= end <= |data|
      && buffer[bufferPosition..] == data[cursor..cursor + (|buffer| - bufferPosition)]
    }

    constructor (start: nat, end: nat, remaining: nat, bodyLen: nat, bufferCapacity: nat)
      ensures cursor == start && this.end == end && this.remaining == remaining && this.bodyLen == bodyLen
      ensures buffer == [] && bufferPosition == 0 && this.bufferCapacity == bufferCapacity
    {
      cursor, this.end, this.remaining, this.bodyLen := start, end, remaining, bodyLen;
      buffer, bufferPosition, this.bufferCapacity := [], 0, bufferCapacity;
    }

    /** Reads ahead once the buffer is used up. */
    method Refill(file: File) returns (r: Result<()>)
      requires Valid(file.contents) && bufferPosition == |buffer|
      modifies this, file`position
      ensures Valid(file.contents) && cursor == old(cursor) && remaining == old(remaining)
      ensures r == if cursor < end then Ok(()) else Err(InvalidFormat)
      ensures r.Ok? ==> bufferPosition < |buffer|
    {
      if cursor >= end {
        return Err(InvalidFormat);
      }
      var readLen := Min(end - cursor, bufferCapacity);
      file.Seek(cursor);
      var filled := file.ReadExact(readLen);
      buffer := filled.value;
      bufferPosition := 0;
      return Ok(());
    }

    /** Takes up to `n` bytes of what is buffered. */
    method TakeBuffered(ghost data: bytes, n: nat) returns (piece: bytes)
      requires Valid(data) && bufferPosition < |buffer| && 0 < n
      modifies this
      ensures Valid(data) && remaining == old(remaining)
      ensures 0 < |piece| <= n && cursor == old(cursor) + |piece| <= end
      ensures piece == data[old(cursor)..cursor]
    {
      ghost var unread := buffer[bufferPosition..];
      var available := |buffer| - bufferPosition;
      var copied := Min(available, n);
      piece := buffer[bufferPosition..bufferPosition + copied];
      assert piece == unread[..copied];
      bufferPosition := bufferPosition + copied;
      cursor := cursor + copied;
      assert buffer[bufferPosition..] == unread[copied..];
    }

    /** The next `n` bytes of the run, refilling the buffer whenever it is used up. */
    method ReadExact(file: File, n: nat) returns (r: Result<bytes>)
      requires Valid(file.contents)
      modifies this, file`position
      ensures Valid(file.contents) && remaining == old(remaining)
      ensures r == if old(cursor) + n <= end
                   then Ok(file.contents[old(cursor)..old(cursor) + n]) else Err(InvalidFormat)
      ensures r.Ok? ==> cursor == old(cursor) + n
    {
      var output: bytes := [];
      ghost var data, start := file.contents, cursor;
      while |output| < n
        invariant Valid(data) && remaining == old(remaining) && |output| <= n
        invariant cursor == start + |output| <= end
        invariant output == data[start..cursor]
        decreases n - |output|
      {
        if bufferPosition == |buffer| {
          var refilled := Refill(file);
          if refilled.Err? {
            return Err(refilled.error);
          }
        }
        ghost var before := cursor;
        var piece := TakeBuffered(data, n - |output|);
        Adjacent(data, start, before, cursor);
        output := output + piece;
      }
      return Ok(output);
    }

    /** The cursor stands before exactly the records `rest` of its run. */
    ghost predicate Holds(data: bytes, rest: seq<Rec>)
      reads this
    {
      Valid(data) && cursor <= end && remaining == |rest| && data[cursor..end] == Body(rest)
    }
  }

  /** Reads the header of the run at `offset`; also returns where the next run starts. */
  method ReadRunHeader(file: File, offset: nat, bufferCapacity: nat) returns (r: Result<(RunCursor, nat)>)
    requires 0 < bufferCapacity
    modifies file`position
    ensures r.Ok? ==> fresh(r.value.0) && r.value.0.Valid(file.contents)
    ensures r.Ok? <==> offset + 16 <= |file.contents| &&
                       offset + 16 + FromLe(file.contents[offset..offset + 8]) <= |file.contents|
    ensures r.Ok? ==>
              var (run, next) := r.value;
              && run.cursor == offset + 16
              && run.bodyLen == FromLe(file.contents[offset..offset + 8])
              && run.remaining == FromLe(file.contents[offset + 8..offset + 16])
              && run.end == next == offset + 16 + run.bodyLen
              && run.bufferCapacity == bufferCapacity
  {
    file.Seek(offset);
    var bodyLenBytes :- file.ReadExact(8);
    var countBytes :- file.ReadExact(8);
    var bodyLen, count := FromLe(bodyLenBytes), FromLe(countBytes);
    var end := offset + 16 + bodyLen;
    if end > |file.contents| {
      return Err(InvalidFormat);
    }
    var run := new RunCursor(offset + 16, end, count, bodyLen, bufferCapacity);
    return Ok((run, end));
  }

  /** What reading one record at `cursor` gives, straight from the file's bytes. */
  function RecordAt(data: bytes, cursor: nat, end: nat, maximum: nat): Result<Rec>
    requires end <= |data|
  {
    if cursor + 8 > end then Err(InvalidFormat)
    else
      var len := FromLe(data[cursor..cursor + 8]);
      if len > maximum then Err(LimitExceeded(BuildMemoryBytes))
      else if cursor + 12 + len > end then Err(InvalidFormat)
      else
        var key := data[cursor + 8..cursor + 8 + len];
        if !IsUtf8(key) then Err(InvalidFormat)
        else Ok(Rec(key, FromLe(data[cursor + 8 + len..cursor + 12 + len])))
  }

  /** Reads one record of a run that still has some. */
  method ReadRecord(file: File, run: RunCursor, maximum: nat) returns (r: Result<Rec>)
    requires run.Valid(file.contents) && run.remaining > 0
    modifies run, file`position
    ensures run.Valid(file.contents)
    ensures r == RecordAt(file.contents, old(run.cursor), run.end, maximum)
    ensures r.Ok? ==> run.cursor == old(run.cursor) + 12 + |r.value.key| && run.remaining == old(run.remaining) - 1
  {
    var recordStart := run.cursor;
    var lenBytes :- run.ReadExact(file, 8);
    var len := FromLe(lenBytes);
    if len > maximum {
      return Err(LimitExceeded(BuildMemoryBytes));
    }
    var recordEnd := recordStart + 12 + len;
    if recordEnd > run.end {
      return Err(InvalidFormat);
    }
    var key := run.ReadExact(file, len);
    var normalized := key.value;
    var ordinalBytes := run.ReadExact(file, 4);
    var ordinal := FromLe(ordinalBytes.value);
    run.remaining := run.remaining - 1;
    if !IsUtf8(normalized) {
      return Err(InvalidFormat);
    }
    return Ok(Rec(normalized, ordinal));
  }

  /** The next record of a run, `None` at its end. */
  method ReadSortRecord(file: File, run: RunCursor, maximum: nat) returns (r: Result<Option<Rec>>)
    requires run.Valid(file.contents)
    modifies run, file`position
    ensures run.Valid(file.contents)
    ensures old(run.remaining) == 0 ==>
              && r == (if run.cursor == run.end then Ok(None) else Err(InvalidFormat))
              && run.remaining == 0 && run.cursor == old(run.cursor)
    ensures old(run.remaining) > 0 ==>
              match RecordAt(file.contents, old(run.cursor), run.end, maximum)
              case Err(e) => r == Err(e)
              case Ok(rec) =>
                && r == Ok(Some(rec))
                && run.cursor == old(run.cursor) + 12 + |rec.key|
                && run.remaining == old(run.remaining) - 1
  {
    if run.remaining == 0 {
      if run.cursor != run.end {
        return Err(InvalidFormat);
      }
      return Ok(None);
    }
    var record :- ReadRecord(file, run, maximum);
    return Ok(Some(record));
  }

  /** Reading a record that was written gives it back. */
  lemma RecordReadsBack(data: bytes, cursor: nat, end: nat, maximum: nat, r: Rec, rest: bytes)
    requires cursor <= end <= |data| && data[cursor..end] == RecordBytes(r) + rest
    requires WellFormed(r, maximum) && |r.key| <= U64_MAX
    ensures cursor + 12 + |r.key| <= end
    ensures RecordAt(data, cursor, end, maximum) == Ok(r)
    ensures data[cursor + 12 + |r.key|..end] == rest
  {
    Ranges();
    LeRoundTrip(8, |r.key|);
    LeRoundTrip(4, r.ordinal);
    RecordSlices(data, cursor, end, Le(8, |r.key|), r.key, Le(4, r.ordinal), rest);
  }

  /** Where the parts of a record lie. */
  lemma RecordSlices(data: bytes, cursor: nat, end: nat, len: bytes, key: bytes, ordinal: bytes, rest: bytes)
    requires cursor <= end <= |data| && data[cursor..end] == len + key + ordinal + rest && |len| == 8 && |ordinal| == 4
    ensures cursor + 12 + |key| <= end
    ensures data[cursor..cursor + 8] == len && data[cursor + 8..cursor + 8 + |key|] == key
    ensures data[cursor + 8 + |key|..cursor + 12 + |key|] == ordinal && data[cursor + 12 + |key|..end] == rest
  {
    SliceOfSlice(data, cursor, end, 0, 8);
    SliceOfSlice(data, cursor, end, 8, 8 + |key|);
    SliceOfSlice(data, cursor, end, 8 + |key|, 12 + |key|);
    SliceOfSlice(data, cursor, end, 12 + |key|, end - cursor);
    Pieces(len, key, ordinal, rest);
  }

  /** On a run written by this module, the cursor yields the records one by one and then `None`. */
  method NextOf(file: File, run: RunCursor, maximum: nat, ghost rest: seq<Rec>) returns (r: Option<Rec>)
    requires run.Holds(file.contents, rest) && |file.contents| <= U64_MAX
    requires AllWellFormed(rest, maximum)
    modifies run, file`position
    ensures r == if rest == [] then None else Some(rest[0])
    ensures run.Holds(file.contents, if rest == [] then rest else rest[1..])
  {
    if rest != [] {
      assert WellFormed(rest[0], maximum);
      RecordReadsBack(file.contents, run.cursor, run.end, maximum, rest[0], Body(rest[1..]));
    } else {
      assert |file.contents[run.cursor..run.end]| == |Body(rest)|;
    }
    var next := ReadSortRecord(file, run, maximum);
    return next.value;
  }
}
