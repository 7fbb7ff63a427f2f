/**
 * The chunk cache in front of an index file (src/core/persistent/cache.rs): one chunk per section and one page
 * of the checksum table. Whatever is cached, every read answers as the file itself does.
 */
module IndexCache {
  import opened Adler
  import opened Bytes
  import opened ChunkCopy
  import opened IndexFormat
  import opened IndexLayout
  import opened IndexOptions
  import opened IndexView
  import opened RecordOrder
  import opened Scratch
  import opened Sequences
  import opened Utf8
  import opened Wrappers

  const CHECKSUM_PAGE_BYTES: nat := 4096

  /** A cached chunk or page and its number; `None` while nothing trustworthy is held. */
  datatype CachedChunk = CachedChunk(number: Option<nat>, data: bytes)

  /** Page `page` of the checksum table. */
  function TablePage(v: View, page: nat): (p: bytes)
    requires v.Valid() && page * CHECKSUM_PAGE_BYTES <= 4 * v.header.checksumCount
    ensures |p| == TablePageLen(v, page)
  {
    assert TableEnd(v.header.checksumCount) <= |v.source| by {
      var d := v.Section(0);
    }
    var start := HEADER_BYTES + page * CHECKSUM_PAGE_BYTES;
    v.source[start..start + TablePageLen(v, page)]
  }

  function TablePageLen(v: View, page: nat): nat
    requires page * CHECKSUM_PAGE_BYTES <= 4 * v.header.checksumCount
  {
    Min(CHECKSUM_PAGE_BYTES, 4 * v.header.checksumCount - page * CHECKSUM_PAGE_BYTES)
  }

  /** A slot lies inside one page of the table. */
  lemma SlotInPage(v: View, page: nat, index: nat)
    requires v.Valid() && index < v.header.checksumCount && page == 4 * index / CHECKSUM_PAGE_BYTES
    ensures page * CHECKSUM_PAGE_BYTES <= 4 * index
    ensures 4 * index + 4 <= page * CHECKSUM_PAGE_BYTES + TablePageLen(v, page)
    ensures var relative := 4 * index - page * CHECKSUM_PAGE_BYTES;
            FromLe(TablePage(v, page)[relative..relative + 4]) == v.Slot(index)
  {
    assert TableEnd(v.header.checksumCount) <= |v.source| by {
      var d := v.Section(0);
    }
    var start, relative := HEADER_BYTES + page * CHECKSUM_PAGE_BYTES, 4 * index - page * CHECKSUM_PAGE_BYTES;
    SliceOfSlice(v.source, start, start + TablePageLen(v, page), relative, relative + 4);
  }

  /** `r` reports the failure `want`, or `output` holds it. */
  ghost predicate Delivers(want: Result<bytes>, r: Result<()>, output: bytes) {
    match want
    case Err(e) => r == Err(e)
    case Ok(s) => r.Ok? && s == output
  }

  /** Only whether it succeeded. */
  function Done(r: Result<bytes>): Result<()> {
    match r
    case Err(e) => Err(e)
    case Ok(_) => Ok(())
  }

  /** Whether every numbered chunk is that chunk, and verified, and a numbered page is that page. */
  datatype Trust = Trusted | Stale

  ghost function TrustOf(view: View, chunkCache: seq<CachedChunk>, checksumCache: CachedChunk): Trust
    requires view.Valid()
  {
    if && |chunkCache| == SECTION_COUNT
       && (forall k | 0 <= k < SECTION_COUNT :: ChunkTrusted(view, k, chunkCache[k]))
       && PageTrusted(view, checksumCache)
    then Trusted else Stale
  }

  ghost predicate ChunkTrusted(view: View, k: nat, c: CachedChunk)
    requires view.Valid() && k < SECTION_COUNT
  {
    c.number.Some? ==> view.VerifiedChunk(k, c.number.value) == Ok(c.data)
  }

  ghost predicate PageTrusted(view: View, c: CachedChunk)
    requires view.Valid()
  {
    c.number.Some? ==>
      && c.number.value * CHECKSUM_PAGE_BYTES <= 4 * view.header.checksumCount
      && c.data == TablePage(view, c.number.value)
  }

  class PersistentKeyIndex {
    const view: View
    var chunkCache: seq<CachedChunk>
    var checksumCache: CachedChunk

    /** What every reachable cache state satisfies. */
    ghost predicate Valid()
      reads this
    {
      view.Valid() && TrustOf(view, chunkCache, checksumCache) == Trusted
    }

    constructor (view: View)
      requires view.Valid()
      ensures this.view == view && Valid()
    {
      this.view := view;
      chunkCache := seq(SECTION_COUNT, i => CachedChunk(None, []));
      checksumCache := CachedChunk(None, []);
    }

    method LoadPage(page: nat) returns (r: Result<bytes>)
      requires view.Valid() && page * CHECKSUM_PAGE_BYTES <= 4 * view.header.checksumCount
      ensures r == Ok(TablePage(view, page))
    {
      assert TableEnd(view.header.checksumCount) <= |view.source| by {
        var d := view.Section(0);
      }
      r := ReadAt(view.source, view.header.headerLen + page * CHECKSUM_PAGE_BYTES, TablePageLen(view, page));
    }

    /** Checksum slot `index`, through the page cache. */
    method ExpectedChecksum(index: nat) returns (r: Result<nat>)
      requires Valid()
      modifies this`checksumCache
      ensures Valid()
      ensures r == if index < view.header.checksumCount then Ok(view.Slot(index)) else Err(Reject(InvalidLayout))
    {
      if index >= view.header.checksumCount {
        return Err(Reject(InvalidLayout));
      }
      var byteOffset := 4 * index;
      var page := byteOffset / CHECKSUM_PAGE_BYTES;
      SlotInPage(view, page, index);
      var cached := checksumCache;
      if cached.number != Some(page) || |cached.data| != TablePageLen(view, page) {
        checksumCache := checksumCache.(number := None);
        var loaded := LoadPage(page);
        checksumCache := CachedChunk(Some(page), loaded.value);
      }
      var relative := byteOffset - page * CHECKSUM_PAGE_BYTES;
      return Ok(FromLe(checksumCache.data[relative..relative + 4]));
    }

    /** Chunk `chunk` of section `k` from the file, against the checksum `expected` of it. */
    method ReadChunk(k: nat, chunk: nat, expected: nat) returns (r: Result<bytes>)
      requires view.Valid() && k < SECTION_COUNT && chunk < view.Section(k).checksumCount
      requires view.policy == Verify ==> expected == view.Slot(view.Section(k).checksumStart + chunk)
      ensures r == view.VerifiedChunk(k, chunk)
    {
      var offset := view.Section(k).offset + view.ChunkStart(k, chunk);
      var data := ReadAt(view.source, offset, view.ChunkLen(k, chunk)).value;
      if view.policy == Verify {
        var actual := Adler32(data);
        if expected != actual {
          return Err(Reject(ChunkChecksumMismatch(k, chunk, expected, actual)));
        }
      }
      return Ok(data);
    }

    /** Reads chunk `chunk` into its slot, which holds nothing trustworthy until the chunk verified. */
    method FillSlot(k: nat, chunk: nat, expected: nat) returns (r: Result<bytes>)
      requires Valid() && k < SECTION_COUNT && chunk < view.Section(k).checksumCount
      requires view.policy == Verify ==> expected == view.Slot(view.Section(k).checksumStart + chunk)
      modifies this`chunkCache
      ensures Valid() && r == view.VerifiedChunk(k, chunk)
    {
      chunkCache := chunkCache[k := CachedChunk(None, [])];
      var data :- ReadChunk(k, chunk, expected);
      chunkCache := chunkCache[k := CachedChunk(Some(chunk), data)];
      return Ok(data);
    }

    /** Chunk `chunk` of section `k`, from the cache or freshly read and verified. */
    method LoadVerifiedChunk(k: nat, chunk: nat) returns (r: Result<bytes>)
      requires Valid() && k < SECTION_COUNT
      modifies this
      ensures Valid() && r == view.VerifiedChunk(k, chunk)
    {
      var descriptor := view.Section(k);
      if chunk >= descriptor.checksumCount {
        return Err(Reject(InvalidLayout));
      }
      var expected := 0;
      if view.policy == Verify {
        var slot := ExpectedChecksum(descriptor.checksumStart + chunk);
        expected := slot.value;
      }
      var slot := chunkCache[k];
      if slot.number == Some(chunk) && |slot.data| == view.ChunkLen(k, chunk) {
        return Ok(slot.data);
      }
      r := FillSlot(k, chunk, expected);
    }

    /** Loads chunk `chunk` and copies what it holds of the stretch into its place. */
    method FillChunk(k: nat, chunk: nat, offset: nat, output: array<byte>, ghost section: bytes) returns (r: Result<()>)
      requires Valid() && k < SECTION_COUNT && section == view.SectionBytes(k)
      requires offset + output.Length <= |section|
      requires Touches(view.header.chunkBytes, chunk, offset, offset + output.Length)
      requires FillingOf(output[..], section, view.header.chunkBytes, offset, chunk) == InStep
      modifies this, output
      ensures Valid()
      ensures r == Done(view.VerifiedChunk(k, chunk))
      ensures r.Ok? ==> FillingOf(output[..], section, view.header.chunkBytes, offset, chunk + 1) == InStep
    {
      var data :- LoadVerifiedChunk(k, chunk);
      view.VerifiedIsSlice(k, chunk);
      CopyChunk(output, view.header.chunkBytes, chunk, offset, data, section);
      return Ok(());
    }

    /** Fills `output` from the chunks `first..upTo`, all of which it touches, until chunk `at` fails. */
    method FillChunks(k: nat, offset: nat, output: array<byte>, first: nat, upTo: nat, ghost section: bytes)
      returns (r: Result<()>, ghost at: nat)
      requires Valid() && k < SECTION_COUNT && section == view.SectionBytes(k)
      requires offset + output.Length <= |section| && first <= upTo
      requires AllTouched(view.header.chunkBytes, first, upTo, offset, offset + output.Length)
      requires FillingOf(output[..], section, view.header.chunkBytes, offset, first) == InStep
      modifies this, output
      ensures Valid() && first <= at <= upTo && view.AllVerify(k, first, at)
      ensures r.Err? ==> at < upTo && r == Done(view.VerifiedChunk(k, at))
      ensures r.Ok? ==> at == upTo && FillingOf(output[..], section, view.header.chunkBytes, offset, upTo) == InStep
    {
      for chunk := first to upTo
        invariant Valid() && view.AllVerify(k, first, chunk)
        invariant FillingOf(output[..], section, view.header.chunkBytes, offset, chunk) == InStep
      {
        at := chunk;
        var done :- FillChunk(k, chunk, offset, output, section);
      }
      return Ok(()), upTo;
    }

    /** Fills `output` from the chunks `first` to `last`. */
    method FillFrom(k: nat, offset: nat, output: array<byte>, first: nat, last: nat, ghost section: bytes) returns (r: Result<()>)
      requires Valid() && k < SECTION_COUNT && section == view.SectionBytes(k)
      requires 0 < output.Length && offset + output.Length <= |section|
      requires first == view.ChunkOf(offset) && last == view.ChunkOf(offset + output.Length - 1)
      modifies this, output
      ensures Valid()
      ensures Delivers(Unless(view.FirstFailure(k, first, last + 1), section[offset..offset + output.Length]),
                       r, output[..])
    {
      FillingStarts(output[..], section, view.header.chunkBytes, offset);
      ghost var at;
      r, at := FillChunks(k, offset, output, first, last + 1, section);
      view.AllVerifyUpTo(k, first, at, last + 1);
      if r.Ok? {
        FillingEnds(output[..], section, view.header.chunkBytes, offset, last);
      }
    }

    /** Fills `output` from section `k` at `offset`, one verified chunk at a time. */
    method ReadSectionInto(k: nat, offset: nat, output: array<byte>) returns (r: Result<()>)
      requires Valid() && k < SECTION_COUNT
      modifies this, output
      ensures Valid()
      ensures Delivers(view.Read(k, offset, output.Length), r, output[..])
    {
      var end := offset + output.Length;
      if end > view.Section(k).len {
        return Err(Reject(InvalidLayout));
      }
      if output.Length == 0 {
        assert output[..] == [];
        return Ok(());
      }
      var first, last := view.ChunkOf(offset), view.ChunkOf(end - 1);
      view.ReadIs(k, offset, output.Length, first, last);
      r := FillFrom(k, offset, output, first, last, view.SectionBytes(k));
    }

    /** `len` bytes of section `k` from `offset`. */
    method ReadSection(k: nat, offset: nat, len: nat) returns (r: Result<bytes>)
      requires Valid() && k < SECTION_COUNT
      modifies this
      ensures Valid() && r == view.Read(k, offset, len)
    {
      if offset + len > view.Section(k).len {
        return Err(Reject(InvalidLayout));
      }
      var output := new byte[len](i => 0);
      var done :- ReadSectionInto(k, offset, output);
      return Ok(output[..]);
    }

    method ReadUnsignedAt(k: nat, offset: nat, width: nat) returns (r: Result<nat>)
      requires Valid() && k < SECTION_COUNT
      modifies this
      ensures Valid() && r == view.ReadUnsigned(k, offset, width)
    {
      var output := new byte[width](i => 0);
      var done :- ReadSectionInto(k, offset, output);
      return Ok(FromLe(output[..]));
    }

    method BoundAt(index: nat) returns (r: Result<nat>)
      requires Valid()
      modifies this
      ensures Valid() && r == view.Bound(index)
    {
      if index > view.Rows() {
        return Err(Reject(InvalidLayout));
      }
      r := ReadUnsignedAt(BOUNDS, 8 * index, 8);
    }

    method OrderAt(position: nat) returns (r: Result<nat>)
      requires Valid()
      modifies this
      ensures Valid() && r == view.Order(position)
    {
      if position >= view.Rows() {
        return Err(Reject(InvalidLayout));
      }
      r := ReadUnsignedAt(ORDER, 4 * position, 4);
    }

    method RawDigestAt(ordinal: nat) returns (r: Result<nat>)
      requires Valid()
      modifies this
      ensures Valid() && r == view.Digest(ordinal)
    {
      if ordinal >= view.Rows() {
        return Err(Reject(InvalidLayout));
      }
      r := ReadUnsignedAt(RAW, 4 * ordinal, 4);
    }

    /** The normalized text of row `ordinal`, whatever the bounds in the file say. */
    method RowText(ordinal: nat) returns (r: Result<bytes>)
      requires Valid()
      modifies this
      ensures Valid() && r == view.RowText(ordinal)
    {
      if ordinal >= view.Rows() {
        return Err(Reject(InvalidLayout));
      }
      var start :- BoundAt(ordinal);
      var end :- BoundAt(ordinal + 1);
      if end < start || end > view.header.normalizedTextLen {
        return Err(Reject(InvalidLayout));
      }
      if end - start > view.maxRowBytes {
        return Err(LimitExceeded(RowBytes));
      }
      var text :- ReadSection(TEXT, start, end - start);
      if !IsUtf8(text) {
        return Err(Reject(InvalidLayout));
      }
      return Ok(text);
    }

    /** Whether the search for `query` turns left at the row the order has at `position`. */
    method TurnAt(position: nat, query: bytes, inclusiveEnd: bool) returns (r: Result<bool>)
      requires Valid() && position < view.Rows()
      modifies this
      ensures Valid()
      ensures r.Ok? ==> view.Turns(position, query, inclusiveEnd, r.value)
      ensures view.AllReadable() ==> r.Ok?
    {
      var ordinal :- OrderAt(position);
      var row :- RowText(ordinal);
      return Ok(GoesLeft(row, query, inclusiveEnd));
    }

    /**
     * Binary search over the order. It ends in range and at a place where the search changes direction, even in
     * an index that is not sorted.
     */
    method LowerBound(query: bytes, inclusiveEnd: bool) returns (r: Result<nat>)
      requires Valid()
      modifies this
      ensures Valid()
      ensures r.Ok? ==> view.IsBoundary(r.value, query, inclusiveEnd)
      ensures view.AllReadable() ==> r.Ok?
    {
      var left, right := 0, view.Rows();
      while left < right
        invariant Valid() && 0 <= left <= right
        invariant view.Searching(left, right, query, inclusiveEnd)
        decreases right - left
      {
        var middle := left + (right - left) / 2;
        var goesLeft :- TurnAt(middle, query, inclusiveEnd);
        if goesLeft {
          right := middle;
        } else {
          left := middle + 1;
        }
      }
      return Ok(left);
    }

    /** The positions at which the order holds rows equal to `query`, if there are any. */
    method EqualRange(query: bytes) returns (r: Result<Option<(nat, nat)>>)
      requires Valid()
      modifies this
      ensures Valid()
      ensures r.Ok? ==> IsEqualRange(view, query, r.value)
      ensures view.AllReadable() ==> r.Ok?
    {
      var start :- LowerBound(query, false);
      var end :- LowerBound(query, true);
      assert Brackets(view, query, start, end);
      return Ok(RangeOf(start, end));
    }

    method OrdinalsIn(start: nat, end: nat) returns (r: Result<seq<nat>>)
      requires Valid()
      modifies this
      ensures Valid()
      ensures r.Ok? ==> start <= end && OrdersAre(view, start, r.value) && |r.value| == end - start
      ensures view.AllReadable() && start <= end <= view.Rows() ==> r.Ok?
    {
      if end < start {
        return Err(Reject(InvalidLayout));
      }
      var ordinals := [];
      for position := start to end
        invariant Valid() && |ordinals| == position - start
        invariant OrdersAre(view, start, ordinals)
      {
        var ordinal :- OrderAt(position);
        ordinals := ordinals + [ordinal];
      }
      return Ok(ordinals);
    }
  }

  /** `range` is what two binary searches for `query` bracket. */
  ghost predicate IsEqualRange(v: View, query: bytes, range: Option<(nat, nat)>)
    requires v.Valid()
  {
    exists start: nat, end: nat :: Brackets(v, query, start, end) && range == RangeOf(start, end)
  }

  ghost predicate Brackets(v: View, query: bytes, start: nat, end: nat)
    requires v.Valid()
  {
    v.IsBoundary(start, query, false) && v.IsBoundary(end, query, true)
  }

  function RangeOf(start: nat, end: nat): Option<(nat, nat)> {
    if start < end then Some((start, end)) else None
  }

  /** The order from `start` on begins with `ordinals`. */
  ghost predicate OrdersAre(v: View, start: nat, ordinals: seq<nat>)
    requires v.Valid()
  {
    forall j | 0 <= j < |ordinals| :: v.Order(start + j) == Ok(ordinals[j])
  }
}
