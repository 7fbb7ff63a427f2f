/**
 * The decoded record stream behind lazily decoded blocks (src/core/records.rs, src/format/common/descriptors.rs).
 */
module RecordStream {
  import opened Bytes
  import opened KeyBlocks
  import opened Sequences
  import opened Wrappers

  datatype RecordBlock = RecordBlock(decompOffset: nat, decompSize: nat)

  /** Blocks follow each other without gap or overlap from `start` to `total`; they may be empty. */
  ghost predicate Tiles(blocks: seq<RecordBlock>, start: nat, total: nat) {
    if blocks == [] then start == total
    else blocks[0].decompOffset == start && Tiles(blocks[1..], start + blocks[0].decompSize, total)
  }

  /** Where block `b` starts, or the end of the stream. */
  function OffsetOf(blocks: seq<RecordBlock>, b: nat, total: nat): nat
    requires b <= |blocks|
  {
    if b < |blocks| then blocks[b].decompOffset else total
  }

  lemma {:induction false} TilesEnds(blocks: seq<RecordBlock>, start: nat, total: nat)
    requires Tiles(blocks, start, total)
    ensures start <= total && OffsetOf(blocks, 0, total) == start
  {
    if blocks != [] {
      TilesEnds(blocks[1..], start + blocks[0].decompSize, total);
    }
  }

  lemma {:induction false} TilesStep(blocks: seq<RecordBlock>, start: nat, total: nat, b: nat)
    requires Tiles(blocks, start, total) && b < |blocks|
    ensures OffsetOf(blocks, b + 1, total) == blocks[b].decompOffset + blocks[b].decompSize <= total
    ensures start <= blocks[b].decompOffset
    decreases b
  {
    TilesEnds(blocks, start, total);
    TilesEnds(blocks[1..], start + blocks[0].decompSize, total);
    if b > 0 {
      TilesStep(blocks[1..], start + blocks[0].decompSize, total, b - 1);
    }
  }

  /** The check that runs once per open: it accepts exactly the descriptors that tile the declared length. */
  method VerifyRecordBlocks(blocks: seq<RecordBlock>, total: nat) returns (r: Result<()>)
    requires total <= U64_MAX
    ensures r.Ok? <==> Tiles(blocks, 0, total)
  {
    var expected: nat := 0;
    Whole(blocks);
    for i := 0 to |blocks|
      invariant expected <= U64_MAX && (Tiles(blocks, 0, total) <==> Tiles(blocks[i..], expected, total))
    {
      SuffixShrinks(blocks, i);
      if blocks[i].decompOffset != expected {
        return Err(InvalidData);
      }
      if Tiles(blocks[i..], expected, total) {
        TilesStep(blocks[i..], expected, total, 0);
      }
      expected := blocks[i].decompOffset + blocks[i].decompSize;
      if expected > U64_MAX {
        return Err(InvalidFormat);
      }
    }
    if expected != total {
      return Err(InvalidData);
    }
    return Ok(());
  }

  /** The record part of an open dictionary: its blocks and their decoder. */
  datatype Records = Records(
    blocks: seq<RecordBlock>,
    total: nat,
    /** Reading and decompressing block `b`, without any cache. */
    decode: nat -> Result<bytes>,
    materializedRecordBytes: nat)
  {
    /** What opening establishes and decompression guarantees. */
    ghost predicate Valid() {
      && Tiles(blocks, 0, total) && total <= U64_MAX
      && forall b | 0 <= b < |blocks| && Decoded(b).Ok? :: |Decoded(b).value| == blocks[b].decompSize
    }

    function Decoded(b: nat): Result<bytes> {
      if b < |blocks| then decode(b) else Err(InvalidFormat)
    }

    predicate Holds(b: nat, position: nat) {
      b < |blocks| && blocks[b].decompOffset <= position < blocks[b].decompOffset + blocks[b].decompSize
    }

    /** The stream has `value` at `position`. */
    ghost predicate ByteIs(position: nat, value: byte)
      requires Valid()
    {
      exists b: nat :: ByteIsIn(b, position, value)
    }

    ghost predicate ByteIsIn(b: nat, position: nat, value: byte)
      requires Valid()
    {
      && Holds(b, position) && Decoded(b).Ok?
      && position - blocks[b].decompOffset < |Decoded(b).value|
      && Decoded(b).value[position - blocks[b].decompOffset] == value
    }

    /** `data` is what the stream has from `start` on. */
    ghost predicate IsPart(start: nat, data: bytes)
      requires Valid()
    {
      forall i | 0 <= i < |data| :: ByteIs(start + i, data[i])
    }

    lemma {:induction false} OffsetsAscend(b: nat, c: nat)
      requires Valid() && b < c <= |blocks|
      ensures blocks[b].decompOffset + blocks[b].decompSize <= OffsetOf(blocks, c, total) <= total
      decreases c
    {
      TilesStep(blocks, 0, total, c - 1);
      if b < c - 1 {
        OffsetsAscend(b, c - 1);
      }
    }

    lemma HoldsOnce(b: nat, c: nat, position: nat)
      requires Valid() && Holds(b, position) && Holds(c, position)
      ensures b == c
    {
      if b < c {
        OffsetsAscend(b, c);
      } else if c < b {
        OffsetsAscend(c, b);
      }
    }

    /** A stretch of the stream has one content only. */
    lemma PartIsUnique(start: nat, a: bytes, b: bytes)
      requires Valid() && IsPart(start, a) && IsPart(start, b) && |a| == |b|
      ensures a == b
    {
      forall i | 0 <= i < |a|
        ensures a[i] == b[i]
      {
        assert ByteIs(start + i, a[i]) && ByteIs(start + i, b[i]);
        var x: nat :| ByteIsIn(x, start + i, a[i]);
        var y: nat :| ByteIsIn(y, start + i, b[i]);
        HoldsOnce(x, y, start + i);
      }
    }

    lemma PartsJoin(start: nat, a: bytes, b: bytes)
      requires Valid() && IsPart(start, a) && IsPart(start + |a|, b)
      ensures IsPart(start, a + b)
    {
      forall i | 0 <= i < |a + b|
        ensures ByteIs(start + i, (a + b)[i])
      {
        if i >= |a| {
          assert ByteIs(start + |a| + (i - |a|), b[i - |a|]);
        }
      }
    }

    /** A slice of a decoded block is that part of the stream. */
    lemma SliceIsPart(b: nat, from: nat, to: nat)
      requires Valid() && b < |blocks| && Decoded(b).Ok? && from <= to <= |Decoded(b).value|
      ensures IsPart(blocks[b].decompOffset + from, Decoded(b).value[from..to])
    {
      forall i | 0 <= i < to - from
        ensures ByteIs(blocks[b].decompOffset + from + i, Decoded(b).value[from..to][i])
      {
        assert ByteIsIn(b, blocks[b].decompOffset + from + i, Decoded(b).value[from + i]);
      }
    }

    // ----- the whole stream -----

    ghost predicate AllDecode()
      requires Valid()
    {
      forall b | 0 <= b < |blocks| :: Decoded(b).Ok?
    }

    ghost function StreamBefore(b: nat): bytes
      requires Valid() && AllDecode() && b <= |blocks|
    {
      if b == 0 then [] else StreamBefore(b - 1) + Decoded(b - 1).value
    }

    ghost function Stream(): bytes
      requires Valid() && AllDecode()
    {
      StreamBefore(|blocks|)
    }

    lemma {:induction false} StreamIsPart(b: nat)
      requires Valid() && AllDecode() && b <= |blocks|
      ensures |StreamBefore(b)| == OffsetOf(blocks, b, total) && IsPart(0, StreamBefore(b))
    {
      if b == 0 {
        TilesEnds(blocks, 0, total);
      } else {
        StreamIsPart(b - 1);
        TilesStep(blocks, 0, total, b - 1);
        var data := Decoded(b - 1).value;
        SliceIsPart(b - 1, 0, |data|);
        Whole(data);
        PartsJoin(0, StreamBefore(b - 1), data);
      }
    }

    /** When everything decodes, a part of the stream is a slice of the concatenation of all blocks. */
    lemma PartIsSlice(start: nat, data: bytes)
      requires Valid() && AllDecode() && start + |data| <= total && IsPart(start, data)
      ensures |Stream()| == total && data == Stream()[start..start + |data|]
    {
      StreamIsPart(|blocks|);
      var slice := Stream()[start..start + |data|];
      forall i | 0 <= i < |slice|
        ensures ByteIs(start + i, slice[i])
      {
        assert ByteIs(0 + (start + i), Stream()[start + i]);
      }
      PartIsUnique(start, data, slice);
    }
  }

  /** The block that covers a position, by binary search; `None` behind the end. */
  method FindRecordBlock(records: Records, position: nat) returns (r: Option<nat>)
    requires records.Valid()
    ensures r.Some? <==> position < records.total
    ensures r.Some? ==> records.Holds(r.value, position)
  {
    var blocks, total := records.blocks, records.total;
    var left, right := 0, |blocks|;
    TilesEnds(blocks, 0, total);
    while left < right
      invariant 0 <= left <= right <= |blocks|
      invariant OffsetOf(blocks, left, total) <= position || left == 0
      invariant position < OffsetOf(blocks, right, total) || right == |blocks|
    {
      var mid := (left + right) / 2;
      TilesStep(blocks, 0, total, mid);
      var end := blocks[mid].decompOffset + blocks[mid].decompSize;
      if end > U64_MAX {
        return None;
      }
      if position < blocks[mid].decompOffset {
        right := mid;
      } else if position >= end {
        left := mid + 1;
      } else {
        return Some(mid);
      }
    }
    return None;
  }

  class RecordReader {
    const records: Records
    var recordBlockCache: Option<CachedBlock<bytes>>

    /** A cached value is exactly what decoding gives, a cached failure exactly the decoder's. */
    ghost predicate Valid()
      reads this
    {
      records.Valid() && CacheTrusted(recordBlockCache)
    }

    ghost predicate CacheTrusted(cache: Option<CachedBlock<bytes>>) {
      cache.Some? ==>
        match cache.value.value
        case Ready(data) => records.Decoded(cache.value.index) == Ok(data)
        case Failed(error) => records.Decoded(cache.value.index) == Err(error)
    }

    constructor (records: Records)
      requires records.Valid()
      ensures this.records == records && Valid()
    {
      this.records := records;
      recordBlockCache := None;
    }

    /** Block `index`; unlike key blocks, record blocks answer the same in every cache state. */
    method DecodeRecordBlock(index: nat) returns (r: Result<bytes>)
      requires Valid()
      modifies this
      ensures Valid() && r == records.Decoded(index)
    {
      if recordBlockCache.Some? && recordBlockCache.value.index == index {
        match recordBlockCache.value.value
        case Ready(data) => return Ok(data);
        case Failed(error) => return Err(error);
      }
      recordBlockCache := None;
      r := records.Decoded(index);
      match r {
        case Ok(decoded) =>
          recordBlockCache := Some(CachedBlock(index, Ready(decoded)));
        case Err(error) =>
          var captured := Capture(error);
          if captured.Some? {
            recordBlockCache := Some(CachedBlock(index, Failed(captured.value)));
          }
      }
    }

    method ValidateRecordSpan(start: nat, end: nat) returns (r: Result<nat>)
      ensures r == if start <= end <= records.total then Ok(end - start) else Err(InvalidFormat)
    {
      if end < start {
        return Err(InvalidFormat);
      }
      if end > records.total {
        return Err(InvalidFormat);
      }
      return Ok(end - start);
    }

    /** The next chunk of a span: what the block at `cursor` holds of it. */
    method NextChunk(cursor: nat, end: nat) returns (r: Result<(bytes, nat)>)
      requires Valid() && cursor < end <= records.total
      modifies this
      ensures Valid()
      ensures r.Err? ==> SpanFailure(records, cursor, end, r.error)
      ensures r.Ok? ==> r.value.0 != [] && records.IsPart(cursor, r.value.0) && cursor + |r.value.0| == r.value.1 <= end
    {
      var found := FindRecordBlock(records, cursor);
      if found == None {
        return Err(InvalidFormat);
      }
      var blockIndex := found.value;
      var block := records.blocks[blockIndex];
      var decoded := DecodeRecordBlock(blockIndex);
      if decoded.Err? {
        assert FailsIn(records, blockIndex, cursor, end, decoded.error);
        return Err(decoded.error);
      }
      var localStart := cursor - block.decompOffset;
      var chunkEnd := Min(end, block.decompOffset + block.decompSize);
      var localEnd := chunkEnd - block.decompOffset;
      if localStart > localEnd || localEnd > |decoded.value| {
        return Err(InvalidFormat);
      }
      records.SliceIsPart(blockIndex, localStart, localEnd);
      var nextCursor := block.decompOffset + localEnd;
      if nextCursor <= cursor {
        return Err(InvalidFormat);
      }
      return Ok((decoded.value[localStart..localEnd], nextCursor));
    }

    /**
     * Visits a span chunk by chunk. The chunks are not empty and together are exactly the span; the only failures
     * are a bad span and a block of the span that does not decode.
     */
    method VisitRecordSpan(start: nat, end: nat) returns (r: Result<seq<bytes>>)
      requires Valid()
      modifies this
      ensures Valid()
      ensures r.Ok? ==>
                && start <= end <= records.total
                && |Concat(r.value)| == end - start && records.IsPart(start, Concat(r.value))
                && forall i | 0 <= i < |r.value| :: r.value[i] != []
      ensures r.Err? ==> if start <= end <= records.total then SpanFailure(records, start, end, r.error) else r.error == InvalidFormat
    {
      var len :- ValidateRecordSpan(start, end);
      var cursor, chunks: seq<bytes> := start, [];
      while cursor < end
        invariant Valid() && start <= cursor <= end
        invariant |Concat(chunks)| == cursor - start && records.IsPart(start, Concat(chunks))
        invariant forall i | 0 <= i < |chunks| :: chunks[i] != []
        decreases end - cursor
      {
        var found := NextChunk(cursor, end);
        if found.Err? {
          FailureIsInSpan(records, start, cursor, end, found.error);
          return Err(found.error);
        }
        var next := found.value;
        ConcatAppend(chunks, next.0);
        records.PartsJoin(start, Concat(chunks), next.0);
        chunks := chunks + [next.0];
        cursor := next.1;
      }
      return Ok(chunks);
    }

    /** A whole record in memory. */
    method ReadRecordSpan(start: nat, end: nat) returns (r: Result<bytes>)
      requires Valid()
      modifies this
      ensures Valid()
      ensures r.Ok? ==> |r.value| == end - start <= records.materializedRecordBytes && records.IsPart(start, r.value)
      ensures r.Ok? && records.AllDecode() ==> start <= end <= |records.Stream()| && r.value == records.Stream()[start..end]
      ensures records.AllDecode() && start <= end <= records.total && end - start <= records.materializedRecordBytes ==> r.Ok?
    {
      var len :- ValidateRecordSpan(start, end);
      if len > records.materializedRecordBytes {
        return Err(LimitExceeded(MaterializedRecordBytes));
      }
      var chunks :- VisitRecordSpan(start, end);
      if records.AllDecode() {
        records.PartIsSlice(start, Concat(chunks));
      }
      return Ok(Concat(chunks));
    }
  }

  /** Block `b` is touched by the span and fails to decode like this. */
  ghost predicate FailsIn(records: Records, b: nat, start: nat, end: nat, error: Error) {
    && b < |records.blocks| && records.Decoded(b) == Err(error)
    && records.blocks[b].decompOffset < end && start < records.blocks[b].decompOffset + records.blocks[b].decompSize
  }

  ghost predicate SpanFailure(records: Records, start: nat, end: nat, error: Error) {
    exists b: nat :: FailsIn(records, b, start, end, error)
  }

  lemma FailureIsInSpan(records: Records, start: nat, cursor: nat, end: nat, error: Error)
    requires start <= cursor && SpanFailure(records, cursor, end, error)
    ensures SpanFailure(records, start, end, error)
  {
    var b: nat :| FailsIn(records, b, cursor, end, error);
    assert FailsIn(records, b, start, end, error);
  }
}
