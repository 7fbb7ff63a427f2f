/**
 * What an open index file says, straight from its bytes: the specification of every cached read
 * (src/core/persistent/cache.rs).
 */
module IndexView {
  import opened Adler
  import opened Arithmetic
  import opened Bytes
  import opened ChunkCopy
  import opened IndexFormat
  import opened IndexLayout
  import opened IndexOptions
  import opened RecordOrder
  import opened Scratch
  import opened Sequences
  import opened Utf8
  import opened Wrappers

  /** The value, unless something failed. */
  function Unless<T>(failure: Option<Error>, value: T): Result<T> {
    match failure
    case Some(e) => Err(e)
    case None => Ok(value)
  }

  /** An index file whose header was accepted. */
  datatype View = View(source: bytes, header: IndexHeader, policy: ChecksumPolicy, maxRowBytes: nat) {

    ghost predicate Valid() {
      && LaidOut(header)
      && header.totalLen == |source| <= U64_MAX
      && header.chunkBytes <= U32_MAX
      && header.identity.keyCount <= U32_MAX
      && LengthsMatch(header.sections, header.identity.keyCount, header.normalizedTextLen)
    }

    function Rows(): nat {
      header.identity.keyCount
    }

    function Section(k: nat): (d: SectionDescriptor)
      requires Valid() && k < SECTION_COUNT
      ensures d.offset + d.len <= |source|
      ensures d.checksumStart + d.checksumCount <= header.checksumCount
      ensures d.checksumCount == ChunkCount(d.len, header.chunkBytes)
      ensures TableEnd(header.checksumCount) <= |source|
    {
      LayAt(TableEnd(header.checksumCount), 0, LensOf(header.sections), header.chunkBytes, k);
      LayEndIsBehind(TableEnd(header.checksumCount), LensOf(header.sections));
      header.sections[k]
    }

    function SectionBytes(k: nat): (s: bytes)
      requires Valid() && k < SECTION_COUNT
      ensures |s| == Section(k).len
    {
      source[Section(k).offset..Section(k).offset + Section(k).len]
    }

    /** Checksum slot `index`. */
    function Slot(index: nat): nat
      requires Valid() && index < header.checksumCount
    {
      assert TableEnd(header.checksumCount) <= |source| by {
        var d := Section(0);
      }
      Field(source, HEADER_BYTES + 4 * index, 4)
    }

    /** Where chunk `chunk` starts inside its section. */
    function ChunkStart(k: nat, chunk: nat): (start: nat)
      requires Valid() && k < SECTION_COUNT && chunk < Section(k).checksumCount
      ensures start < Section(k).len
    {
      ChunkStartsInside(Section(k).len, header.chunkBytes, chunk);
      header.chunkBytes * chunk
    }

    function ChunkLen(k: nat, chunk: nat): (len: nat)
      requires Valid() && k < SECTION_COUNT && chunk < Section(k).checksumCount
      ensures 0 < len <= header.chunkBytes && ChunkStart(k, chunk) + len <= Section(k).len
    {
      Min(Section(k).len - ChunkStart(k, chunk), header.chunkBytes)
    }

    function ChunkBytes(k: nat, chunk: nat): (s: bytes)
      requires Valid() && k < SECTION_COUNT && chunk < Section(k).checksumCount
      ensures |s| == ChunkLen(k, chunk)
    {
      var at := Section(k).offset + ChunkStart(k, chunk);
      source[at..at + ChunkLen(k, chunk)]
    }

    /** The chunk is the section's, cut at multiples of the chunk length. */
    lemma ChunkBytesAreSlice(k: nat, chunk: nat)
      requires Valid() && k < SECTION_COUNT && chunk < Section(k).checksumCount
      ensures ChunkBytes(k, chunk) == SectionBytes(k)[ChunkStart(k, chunk)..ChunkStart(k, chunk) + ChunkLen(k, chunk)]
    {
      var d, start, len := Section(k), ChunkStart(k, chunk), ChunkLen(k, chunk);
      SliceOfSlice(source, d.offset, d.offset + d.len, start, start + len);
    }

    lemma ChunkBytesAreChunk(k: nat, chunk: nat)
      requires Valid() && k < SECTION_COUNT && chunk < Section(k).checksumCount
      ensures header.chunkBytes * chunk <= |SectionBytes(k)|
      ensures ChunkBytes(k, chunk) == Chunk(SectionBytes(k), header.chunkBytes, chunk)
    {
      var d, start, len := Section(k), ChunkStart(k, chunk), ChunkLen(k, chunk);
      ChunkBytesAreSlice(k, chunk);
      SliceOfSlice(SectionBytes(k), start, d.len, 0, len);
    }

    /** Chunk `chunk` of section `k`, verified if the policy asks for it. */
    function VerifiedChunk(k: nat, chunk: nat): Result<bytes>
      requires Valid() && k < SECTION_COUNT
    {
      if chunk >= Section(k).checksumCount then Err(Reject(InvalidLayout))
      else
        var expected, actual := Slot(Section(k).checksumStart + chunk), Checksum(ChunkBytes(k, chunk));
        if policy == Verify && expected != actual then
          Err(Reject(ChunkChecksumMismatch(k, chunk, expected, actual)))
        else Ok(ChunkBytes(k, chunk))
    }

    /** What a chunk that verified holds. */
    lemma VerifiedIsSlice(k: nat, chunk: nat)
      requires Valid() && k < SECTION_COUNT && VerifiedChunk(k, chunk).Ok?
      ensures ChunkFrom(header.chunkBytes, chunk) <= |SectionBytes(k)|
      ensures VerifiedChunk(k, chunk).value ==
              SectionBytes(k)[ChunkFrom(header.chunkBytes, chunk)..ChunkTo(header.chunkBytes, chunk, |SectionBytes(k)|)]
    {
      ChunkBytesAreSlice(k, chunk);
    }

    /** The chunk a position inside a section lies in. */
    function ChunkOf(position: nat): nat
      requires Valid()
    {
      position / header.chunkBytes
    }

    /** The first failure among the chunks `first..last`, if any. */
    function FirstFailure(k: nat, first: nat, last: nat): Option<Error>
      requires Valid() && k < SECTION_COUNT
      decreases last - first
    {
      if first >= last then None
      else
        match VerifiedChunk(k, first)
        case Err(e) => Some(e)
        case Ok(_) => FirstFailure(k, first + 1, last)
    }

    /** Every chunk in `first..last` verifies. */
    ghost predicate AllVerify(k: nat, first: nat, last: nat)
      requires Valid() && k < SECTION_COUNT
    {
      forall chunk {:trigger VerifiedChunk(k, chunk)} | first <= chunk < last :: VerifiedChunk(k, chunk).Ok?
    }

    lemma {:induction false} AllVerifyUpTo(k: nat, first: nat, at: nat, last: nat)
      requires Valid() && k < SECTION_COUNT && first <= at <= last && AllVerify(k, first, at)
      ensures FirstFailure(k, first, last) == FirstFailure(k, at, last)
      decreases at - first
    {
      if first < at {
        AllVerifyUpTo(k, first + 1, at, last);
      }
    }

    /** `len` bytes of section `k` from `offset`, if every chunk they touch verifies. */
    function Read(k: nat, offset: nat, len: nat): Result<bytes>
      requires Valid() && k < SECTION_COUNT
    {
      if offset + len > Section(k).len then Err(Reject(InvalidLayout))
      else if len == 0 then Ok([])
      else
        Unless(FirstFailure(k, ChunkOf(offset), ChunkOf(offset + len - 1) + 1), SectionBytes(k)[offset..offset + len])
    }

    lemma ReadIs(k: nat, offset: nat, len: nat, first: nat, last: nat)
      requires Valid() && k < SECTION_COUNT && 0 < len && offset + len <= |SectionBytes(k)|
      requires first == ChunkOf(offset) && last == ChunkOf(offset + len - 1)
      ensures Read(k, offset, len) == Unless(FirstFailure(k, first, last + 1), SectionBytes(k)[offset..offset + len])
    {
    }

    function ReadUnsigned(k: nat, offset: nat, width: nat): Result<nat>
      requires Valid() && k < SECTION_COUNT
    {
      match Read(k, offset, width)
      case Err(e) => Err(e)
      case Ok(s) => Ok(FromLe(s))
    }

    function Bound(index: nat): Result<nat>
      requires Valid()
    {
      if index > Rows() then Err(Reject(InvalidLayout)) else ReadUnsigned(BOUNDS, 8 * index, 8)
    }

    function Order(position: nat): Result<nat>
      requires Valid()
    {
      if position >= Rows() then Err(Reject(InvalidLayout)) else ReadUnsigned(ORDER, 4 * position, 4)
    }

    function Digest(ordinal: nat): Result<nat>
      requires Valid()
    {
      if ordinal >= Rows() then Err(Reject(InvalidLayout)) else ReadUnsigned(RAW, 4 * ordinal, 4)
    }

    /** The normalized bytes stored for row `ordinal`. */
    function RowText(ordinal: nat): Result<bytes>
      requires Valid()
    {
      if ordinal >= Rows() then Err(Reject(InvalidLayout))
      else
        match Bound(ordinal)
        case Err(e) => Err(e)
        case Ok(start) =>
          match Bound(ordinal + 1)
          case Err(e) => Err(e)
          case Ok(end) =>
            if end < start || end > header.normalizedTextLen then Err(Reject(InvalidLayout))
            else if end - start > maxRowBytes then Err(LimitExceeded(RowBytes))
            else
              match Read(TEXT, start, end - start)
              case Err(e) => Err(e)
              case Ok(s) => if IsUtf8(s) then Ok(s) else Err(Reject(InvalidLayout))
    }

    /** A chunk whose slot holds its checksum verifies. */
    lemma MatchingChunkVerifies(k: nat, chunk: nat)
      requires Valid() && k < SECTION_COUNT && chunk < Section(k).checksumCount
      requires Slot(Section(k).checksumStart + chunk) == Checksum(ChunkBytes(k, chunk))
      ensures VerifiedChunk(k, chunk).Ok?
    {
    }

    /** A row whose bounds and text can be read. */
    lemma RowTextIs(ordinal: nat, start: nat, end: nat, text: bytes)
      requires Valid() && ordinal < Rows() && Bound(ordinal) == Ok(start) && Bound(ordinal + 1) == Ok(end)
      requires start <= end <= header.normalizedTextLen && end - start <= maxRowBytes
      requires Read(TEXT, start, end - start) == Ok(text) && IsUtf8(text)
      ensures RowText(ordinal) == Ok(text)
    {
    }

    lemma RowTextIsShort(ordinal: nat)
      requires Valid() && RowText(ordinal).Ok?
      ensures |RowText(ordinal).value| <= USIZE_MAX
    {
      var start, end := Bound(ordinal).value, Bound(ordinal + 1).value;
      assert Read(TEXT, start, end - start).Ok?;
    }

    /** The index answers every read as an index of these rows must. */
    ghost predicate Represents(texts: seq<bytes>, digests: seq<nat>) {
      && Valid()
      && Rows() == |texts| == |digests|
      && (forall i | 0 <= i < |texts| :: RowText(i) == Ok(texts[i]))
      && (forall i | 0 <= i < |texts| :: Digest(i) == Ok(digests[i]))
      && |OrderOf(texts)| == |texts|
      && (forall j | 0 <= j < |texts| :: Order(j) == Ok(OrderOf(texts)[j]))
    }

    /** The row at `position` of the order can be read and the search turns left, or right, there. */
    ghost predicate Turns(position: nat, query: bytes, inclusiveEnd: bool, left: bool)
      requires Valid()
    {
      && Order(position).Ok?
      && RowText(Order(position).value).Ok?
      && left == GoesLeft(RowText(Order(position).value).value, query, inclusiveEnd)
    }

    /** A binary search is between `left` and `right`: it turned right before the one and left at the other. */
    ghost predicate Searching(left: nat, right: nat, query: bytes, inclusiveEnd: bool)
      requires Valid()
    {
      && left <= right <= Rows()
      && (left > 0 ==> Turns(left - 1, query, inclusiveEnd, false))
      && (right < Rows() ==> Turns(right, query, inclusiveEnd, true))
    }

    /** What a binary search ends at, even in an index that is not sorted. */
    ghost predicate IsBoundary(position: nat, query: bytes, inclusiveEnd: bool)
      requires Valid()
    {
      Searching(position, position, query, inclusiveEnd)
    }

    /** Every row the order names can be read. */
    ghost predicate AllReadable()
      requires Valid()
    {
      forall j | 0 <= j < Rows() :: Order(j).Ok? && RowText(Order(j).value).Ok?
    }

    /** Every byte a read returns lies in a chunk that verified. */
    lemma ReadsAreVerified(k: nat, offset: nat, len: nat, position: nat)
      requires Valid() && k < SECTION_COUNT && Read(k, offset, len).Ok? && offset <= position < offset + len
      ensures VerifiedChunk(k, ChunkOf(position)).Ok?
    {
      ChunkIsBetween(offset, offset + len - 1, position);
      NoFailureUpTo(k, ChunkOf(offset), ChunkOf(offset + len - 1) + 1, ChunkOf(position));
    }

    lemma ChunkIsBetween(first: nat, last: nat, position: nat)
      requires Valid() && first <= position <= last
      ensures ChunkOf(first) <= ChunkOf(position) <= ChunkOf(last)
    {
      QuotientIsMonotone(first, position, header.chunkBytes);
      QuotientIsMonotone(position, last, header.chunkBytes);
    }

    /** With checksums on, a chunk verifies exactly when its Adler-32 is what its slot says. */
    lemma VerifiedMatches(k: nat, chunk: nat)
      requires Valid() && k < SECTION_COUNT && policy == Verify && chunk < Section(k).checksumCount
      ensures header.chunkBytes * chunk <= |SectionBytes(k)|
      ensures VerifiedChunk(k, chunk).Ok? <==>
              Checksum(Chunk(SectionBytes(k), header.chunkBytes, chunk)) == Slot(Section(k).checksumStart + chunk)
    {
      ChunkBytesAreChunk(k, chunk);
    }

    lemma {:induction false} NoFailureUpTo(k: nat, first: nat, last: nat, chunk: nat)
      requires Valid() && k < SECTION_COUNT && FirstFailure(k, first, last) == None && first <= chunk < last
      ensures VerifiedChunk(k, chunk).Ok?
      decreases last - first
    {
      if first < chunk {
        NoFailureUpTo(k, first + 1, last, chunk);
      }
    }
  }
}
