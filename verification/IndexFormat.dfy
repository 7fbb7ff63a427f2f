/** Building, writing and reading back a key-index file (src/core/persistent/format.rs). */
module IndexFormat {
  import opened Adler
  import opened Bytes
  import opened IndexLayout
  import opened IndexOptions
  import opened Scratch
  import opened Sequences
  import opened Wrappers

  // ----- parsing -----

  class HeaderCursor {
    const source: bytes
    var position: nat

    constructor (source: bytes)
      ensures this.source == source && position == 0
    {
      this.source, position := source, 0;
    }

    method ReadArray(n: nat) returns (r: Result<bytes>)
      modifies this
      ensures r == if old(position) + n <= |source|
                   then Ok(source[old(position)..old(position) + n]) else Err(Reject(InvalidLayout))
      ensures r.Ok? ==> position == old(position) + n
    {
      if position + n > |source| {
        return Err(Reject(InvalidLayout));
      }
      r := Ok(source[position..position + n]);
      position := position + n;
    }

    /** An unsigned little-endian field of `n` bytes. */
    method ReadUnsigned(n: nat) returns (r: Result<nat>)
      modifies this
      ensures r == if old(position) + n <= |source| then Ok(Field(source, old(position), n)) else Err(Reject(InvalidLayout))
      ensures r.Ok? ==> position == old(position) + n
    {
      var field :- ReadArray(n);
      return Ok(FromLe(field));
    }

    /** A signed 128-bit little-endian field. */
    method ReadSigned() returns (r: Result<int>)
      modifies this
      ensures r == if old(position) + 16 <= |source| then Ok(SignedField(source, old(position))) else Err(Reject(InvalidLayout))
      ensures r.Ok? ==> position == old(position) + 16
    {
      var at := position;
      var field :- ReadArray(16);
      return Ok(SignedField(source, at));
    }
  }

  /** The fields up to the section count are present and supported. */
  ghost predicate PreludeOk(s: bytes, actualLen: nat, options: KeyIndexOptions) {
    && 48 <= |s|
    && s[0..8] == Magic()
    && Field(s, 8, 4) == FORMAT_REVISION
    && Field(s, 12, 4) == ENDIAN_MARKER
    && Field(s, 16, 8) == |s|
    && Field(s, 24, 8) == actualLen <= options.maxIndexBytes
    && Field(s, 32, 4) == PARSER_REVISION
    && Field(s, 36, 4) == NORMALIZATION_REVISION
    && MIN_CHUNK_BYTES <= Field(s, 40, 4) <= options.chunkBytes && IsPowerOfTwo(Field(s, 40, 4))
    && Field(s, 44, 4) == SECTION_COUNT
  }

  method ParsePrelude(cursor: HeaderCursor, actualLen: nat, options: KeyIndexOptions) returns (r: Result<nat>)
    requires cursor.position == 0
    modifies cursor
    ensures r.Ok? <==> PreludeOk(cursor.source, actualLen, options)
    ensures r.Ok? ==> cursor.position == 48 && r.value == Field(cursor.source, 40, 4)
  {
    var magic :- cursor.ReadArray(8);
    if magic != Magic() {
      return Err(Reject(InvalidMagic));
    }
    var formatRevision :- cursor.ReadUnsigned(4);
    if formatRevision != FORMAT_REVISION {
      return Err(Reject(UnsupportedFormatRevision(formatRevision)));
    }
    var endian :- cursor.ReadUnsigned(4);
    if endian != ENDIAN_MARKER {
      return Err(Reject(UnsupportedEndianMarker(endian)));
    }
    var headerLen :- cursor.ReadUnsigned(8);
    if headerLen != |cursor.source| {
      return Err(Reject(InvalidLayout));
    }
    var totalLen :- cursor.ReadUnsigned(8);
    if totalLen != actualLen {
      return Err(Reject(FileLengthMismatch(totalLen, actualLen)));
    }
    if totalLen > options.maxIndexBytes {
      return Err(LimitExceeded(IndexBytes));
    }
    var parserRevision :- cursor.ReadUnsigned(4);
    if parserRevision != PARSER_REVISION {
      return Err(Reject(IncompatibleParserRevision(parserRevision)));
    }
    var normalizationRevision :- cursor.ReadUnsigned(4);
    if normalizationRevision != NORMALIZATION_REVISION {
      return Err(Reject(IncompatibleNormalizationRevision(normalizationRevision)));
    }
    var chunkBytes :- cursor.ReadUnsigned(4);
    if chunkBytes < MIN_CHUNK_BYTES || !IsPowerOfTwo(chunkBytes) {
      return Err(Reject(InvalidLayout));
    }
    if chunkBytes > options.chunkBytes {
      return Err(LimitExceeded(ChunkBytes));
    }
    var sectionCount :- cursor.ReadUnsigned(4);
    if sectionCount != SECTION_COUNT {
      return Err(Reject(InvalidLayout));
    }
    return Ok(chunkBytes);
  }

  method ParseIdentity(cursor: HeaderCursor) returns (r: Result<(SourceIdentity, nat)>)
    requires cursor.position == 48
    modifies cursor
    ensures r.Ok? <==> 88 <= |cursor.source| && Field(cursor.source, 72, 8) <= U32_MAX
    ensures r.Ok? ==>
              && cursor.position == 88
              && r.value == (SourceIdentity(Field(cursor.source, 48, 8), SignedField(cursor.source, 56),
                                            Field(cursor.source, 72, 8)),
                             Field(cursor.source, 80, 8))
  {
    var sourceBytes :- cursor.ReadUnsigned(8);
    var sourceModified :- cursor.ReadSigned();
    var keyCount :- cursor.ReadUnsigned(8);
    if keyCount > U32_MAX {
      return Err(Reject(InvalidLayout));
    }
    var normalizedTextLen :- cursor.ReadUnsigned(8);
    return Ok((SourceIdentity(sourceBytes, sourceModified, keyCount), normalizedTextLen));
  }

  method ParseDescriptors(cursor: HeaderCursor) returns (r: Result<seq<SectionDescriptor>>)
    requires cursor.position == 88
    modifies cursor
    ensures r.Ok? <==> HEADER_FIELDS_BYTES <= |cursor.source|
    ensures r.Ok? ==>
              && cursor.position == HEADER_FIELDS_BYTES && |r.value| == SECTION_COUNT
              && forall i | 0 <= i < SECTION_COUNT :: EncodesDescriptor(cursor.source, i, r.value[i])
  {
    var sections: seq<SectionDescriptor> := [];
    for i := 0 to SECTION_COUNT
      invariant |sections| == i && cursor.position == 88 + 32 * i
      invariant i > 0 ==> 88 + 32 * i <= |cursor.source|
      invariant HEADER_FIELDS_BYTES <= |cursor.source| ==>
                  forall k | 0 <= k < i :: EncodesDescriptor(cursor.source, k, sections[k])
    {
      var offset :- cursor.ReadUnsigned(8);
      var len :- cursor.ReadUnsigned(8);
      var checksumStart :- cursor.ReadUnsigned(8);
      var checksumCount :- cursor.ReadUnsigned(8);
      sections := sections + [SectionDescriptor(offset, len, checksumStart, checksumCount)];
    }
    return Ok(sections);
  }

  /** Checks that checksum slots follow each other and match the section lengths; returns their number. */
  method CheckSlots(sections: seq<SectionDescriptor>, chunkBytes: nat) returns (r: Result<nat>)
    requires 0 < chunkBytes <= U32_MAX
    ensures r.Ok? <==> SlotsContiguous(sections, chunkBytes) && Slots(LensOf(sections), chunkBytes) <= U64_MAX
    ensures r.Ok? ==> r.value == Slots(LensOf(sections), chunkBytes)
  {
    var expectedStart: nat := 0;
    for i := 0 to |sections|
      invariant expectedStart == Slots(LensOf(sections[..i]), chunkBytes) <= U64_MAX
      invariant forall k | 0 <= k < i :: SlotOk(sections, k, chunkBytes)
    {
      var descriptor := sections[i];
      assert SlotsContiguous(sections, chunkBytes) ==> SlotOk(sections, i, chunkBytes);
      SlotsStep(sections, i, chunkBytes);
      SlotsArePrefixMonotone(LensOf(sections), i + 1, chunkBytes);
      assert LensOf(sections)[..i + 1] == LensOf(sections[..i + 1]);
      if descriptor.checksumStart != expectedStart {
        return Err(Reject(InvalidLayout));
      }
      ChunkCountCheckedIs(descriptor.len, chunkBytes);
      var expectedCount :- ChunkCountChecked(descriptor.len, chunkBytes);
      if descriptor.checksumCount != expectedCount {
        return Err(Reject(InvalidLayout));
      }
      assert SlotOk(sections, i, chunkBytes);
      expectedStart := expectedStart + descriptor.checksumCount;
      if expectedStart > U64_MAX {
        return Err(Reject(InvalidLayout));
      }
    }
    Whole(sections);
    return Ok(expectedStart);
  }

  /** Whether the bytes behind `position` are zero up to the header checksum. */
  predicate PaddingIsZero(s: bytes, position: nat, paddingEnd: nat)
    requires paddingEnd <= |s|
  {
    forall i | position <= i < paddingEnd :: s[i] == 0
  }

  /** The section lengths a header with these counts must declare. */
  predicate LengthsMatch(sections: seq<SectionDescriptor>, keyCount: nat, normalizedTextLen: nat)
    requires |sections| == SECTION_COUNT
  {
    && sections[TEXT].len == normalizedTextLen
    && sections[BOUNDS].len == 8 * (keyCount + 1)
    && sections[RAW].len == 4 * keyCount
    && sections[ORDER].len == 4 * keyCount
  }

  /**
   * Parses a header. The result is the one header these bytes encode, provided it is admissible; nothing else
   * is accepted.
   */
  method ParseHeader(s: bytes, actualLen: nat, options: KeyIndexOptions) returns (r: Result<IndexHeader>)
    requires ValidOptions(options)
    ensures r.Ok? ==> Encodes(s, r.value) && r.value.headerLen == |s| && Admissible(r.value, actualLen, options)
    ensures forall h | Encodes(s, h) && h.headerLen == |s| && Admissible(h, actualLen, options) :: r == Ok(h)
  {
    var cursor := new HeaderCursor(s);
    var chunkBytes :- ParsePrelude(cursor, actualLen, options);
    var identityAndLen :- ParseIdentity(cursor);
    var (identity, normalizedTextLen) := identityAndLen;
    var sections :- ParseDescriptors(cursor);
    SectionsAreUnambiguous(s, sections);
    var checksumCount :- CheckSlots(sections, chunkBytes);
    if 4 * checksumCount > U64_MAX || |s| + 4 * checksumCount > U64_MAX {
      return Err(Reject(InvalidLayout));
    }
    if |s| + 4 * checksumCount > options.maxMetadataBytes {
      return Err(LimitExceeded(MetadataBytes));
    }
    if |s| < HEADER_CHECKSUM_BYTES || cursor.position > |s| - HEADER_CHECKSUM_BYTES {
      return Err(Reject(InvalidLayout));
    }
    if !PaddingIsZero(s, cursor.position, |s| - HEADER_CHECKSUM_BYTES) {
      return Err(Reject(InvalidLayout));
    }
    var expectedBounds, expectedOrdinals := 8 * (identity.keyCount + 1), 4 * identity.keyCount;
    if sections[TEXT].len != normalizedTextLen || sections[BOUNDS].len != expectedBounds
       || sections[RAW].len != expectedOrdinals || sections[ORDER].len != expectedOrdinals {
      return Err(Reject(InvalidLayout));
    }
    return Ok(IndexHeader(|s|, actualLen, chunkBytes, identity, normalizedTextLen, sections, checksumCount));
  }

  lemma SectionsAreUnambiguous(s: bytes, sections: seq<SectionDescriptor>)
    requires HEADER_FIELDS_BYTES <= |s| && |sections| == SECTION_COUNT
    requires forall i | 0 <= i < SECTION_COUNT :: EncodesDescriptor(s, i, sections[i])
    ensures forall h | Encodes(s, h) :: h.sections == sections
  {
    forall h | Encodes(s, h)
      ensures h.sections == sections
    {
      assert forall i | 0 <= i < SECTION_COUNT :: EncodesDescriptor(s, i, h.sections[i]);
    }
  }

  /** The first `n` bytes at `offset` of an index file. */
  function ReadAt(source: bytes, offset: nat, n: nat): Result<bytes> {
    if offset + n > |source| then Err(Reject(InvalidLayout)) else Ok(source[offset..offset + n])
  }

  const HEADER_PREFIX_BYTES: nat := 24

  /** The stored header checksum is right, or nobody asked. */
  predicate HeaderChecksumOk(header: bytes, policy: ChecksumPolicy)
    requires |header| == HEADER_BYTES
  {
    policy == Verify ==> Field(header, HEADER_BYTES - HEADER_CHECKSUM_BYTES, 4) ==
                         Checksum(header[..HEADER_BYTES - HEADER_CHECKSUM_BYTES])
  }

  /** Reads and checks the header of an index file. */
  method ReadIndexHeader(source: bytes, options: KeyIndexOptions) returns (r: Result<IndexHeader>)
    requires ValidOptions(options)
    ensures r.Ok? ==>
              && HEADER_BYTES <= |source| && HeaderChecksumOk(source[..HEADER_BYTES], options.checksumPolicy)
              && Encodes(source[..HEADER_BYTES], r.value) && r.value.headerLen == HEADER_BYTES
              && Admissible(r.value, |source|, options)
    ensures HEADER_BYTES <= |source| && HeaderChecksumOk(source[..HEADER_BYTES], options.checksumPolicy) ==>
              forall h | Encodes(source[..HEADER_BYTES], h) && h.headerLen == HEADER_BYTES
                         && Admissible(h, |source|, options) :: r == Ok(h)
  {
    if HEADER_BYTES <= |source| {
      PrefixFields(source);
    }
    if |source| < HEADER_PREFIX_BYTES {
      return Err(Reject(InvalidLayout));
    }
    var prefix := source[..HEADER_PREFIX_BYTES];
    if prefix[0..8] != Magic() {
      return Err(Reject(InvalidMagic));
    }
    if Field(prefix, 8, 4) != FORMAT_REVISION {
      return Err(Reject(UnsupportedFormatRevision(Field(prefix, 8, 4))));
    }
    if Field(prefix, 12, 4) != ENDIAN_MARKER {
      return Err(Reject(UnsupportedEndianMarker(Field(prefix, 12, 4))));
    }
    var headerLen := Field(prefix, 16, 8);
    if headerLen > options.maxMetadataBytes {
      return Err(LimitExceeded(HeaderBytes));
    }
    if headerLen != HEADER_BYTES || headerLen > |source| {
      return Err(Reject(InvalidLayout));
    }
    var headerRead := ReadAt(source, 0, headerLen);
    var headerBytes := headerRead.value;
    Whole(headerBytes);
    var checksumAt := headerLen - HEADER_CHECKSUM_BYTES;
    var expected := Field(headerBytes, checksumAt, 4);
    if options.checksumPolicy == Verify {
      var actual := Adler32(headerBytes[..checksumAt]);
      if expected != actual {
        return Err(Reject(HeaderChecksumMismatch));
      }
    }
    r := ParseHeader(headerBytes, |source|, options);
  }

  lemma PrefixFields(source: bytes)
    requires HEADER_BYTES <= |source|
    ensures var prefix, header := source[..HEADER_PREFIX_BYTES], source[..HEADER_BYTES];
            && prefix[0..8] == header[0..8]
            && Field(prefix, 8, 4) == Field(header, 8, 4)
            && Field(prefix, 12, 4) == Field(header, 12, 4)
            && Field(prefix, 16, 8) == Field(header, 16, 8)
            && source[0..HEADER_BYTES] == header
  {
    var prefix, header := source[..HEADER_PREFIX_BYTES], source[..HEADER_BYTES];
    assert prefix[8..12] == header[8..12] && prefix[12..16] == header[12..16] && prefix[16..24] == header[16..24];
  }

  // ----- layout -----

  /** Offsets that follow each other as the writer lays sections out are the writer's offsets. */
  lemma LayIsDetermined(offset: nat, sections: seq<SectionDescriptor>, chunk: nat)
    requires chunk > 0 && SlotsContiguous(sections, chunk)
    requires forall i | 0 <= i < |sections| :: sections[i].offset == Align(LayEnd(offset, LensOf(sections)[..i]))
    ensures sections == Lay(offset, 0, LensOf(sections), chunk)
  {
    var lens := LensOf(sections);
    forall i | 0 <= i < |sections|
      ensures sections[i] == Lay(offset, 0, lens, chunk)[i]
    {
      LayAt(offset, 0, lens, chunk, i);
      assert SlotOk(sections, i, chunk);
      assert LensOf(sections[..i]) == lens[..i];
    }
  }

  lemma LayEndStep(offset: nat, lens: seq<nat>, i: nat)
    requires i < |lens|
    ensures LayEnd(offset, lens[..i + 1]) == Align(LayEnd(offset, lens[..i])) + lens[i]
    ensures LayEnd(offset, lens[..i + 1]) <= LayEnd(offset, lens)
  {
    PrefixGrows(lens, i);
    LayEndAppend(offset, lens[..i], lens[i]);
    SplitAt(lens, i + 1);
    LayEndSplit(offset, lens[..i + 1], lens[i + 1..]);
    LayEndIsBehind(LayEnd(offset, lens[..i + 1]), lens[i + 1..]);
  }

  lemma {:induction false} LayEndSplit(offset: nat, a: seq<nat>, b: seq<nat>)
    ensures LayEnd(offset, a + b) == LayEnd(LayEnd(offset, a), b)
    decreases |a|
  {
    if a == [] {
      NilConcat(b);
    } else {
      TailOfConcat(a, b);
      LayEndSplit(Align(offset) + a[0], a[1..], b);
    }
  }

  lemma LayEndAppend(offset: nat, lens: seq<nat>, last: nat)
    ensures LayEnd(offset, lens + [last]) == Align(LayEnd(offset, lens)) + last
  {
    LayEndSplit(offset, lens, [last]);
    assert [last][1..] == [];
  }

  /** Where the writer would end the first `i` sections. */
  ghost function EndOf(h: IndexHeader, i: nat): nat
    requires i <= |h.sections|
  {
    LayEnd(TableEnd(h.checksumCount), LensOf(h.sections)[..i])
  }

  /** The first `i` sections are where the writer would place them. */
  ghost predicate PlacedUpTo(h: IndexHeader, i: nat)
    requires i <= |h.sections|
  {
    forall k {:trigger EndOf(h, k)} | 0 <= k < i :: h.sections[k].offset == Align(EndOf(h, k))
  }

  lemma EndStep(h: IndexHeader, i: nat)
    requires h.chunkBytes > 0 && i < |h.sections|
    ensures EndOf(h, i + 1) == Align(EndOf(h, i)) + h.sections[i].len
    ensures LaidOut(h) ==> h.sections[i].offset == Align(EndOf(h, i)) && EndOf(h, i + 1) <= h.totalLen
  {
    LayEndStep(TableEnd(h.checksumCount), LensOf(h.sections), i);
    LayAt(TableEnd(h.checksumCount), 0, LensOf(h.sections), h.chunkBytes, i);
  }

  lemma AllPlaced(h: IndexHeader)
    requires h.chunkBytes > 0 && h.headerLen == HEADER_BYTES && |h.sections| == SECTION_COUNT
    requires SlotsContiguous(h.sections, h.chunkBytes) && h.checksumCount == Slots(LensOf(h.sections), h.chunkBytes)
    requires PlacedUpTo(h, SECTION_COUNT)
    ensures LaidOut(h) <==> h.totalLen == EndOf(h, SECTION_COUNT)
  {
    Whole(LensOf(h.sections));
    forall i | 0 <= i < SECTION_COUNT
      ensures h.sections[i].offset == Align(LayEnd(TableEnd(h.checksumCount), LensOf(h.sections)[..i]))
    {
      assert h.sections[i].offset == Align(EndOf(h, i));
    }
    LayIsDetermined(TableEnd(h.checksumCount), h.sections, h.chunkBytes);
  }

  /** Checks one section against the cursor and moves the cursor behind it. */
  method ValidateSlot(sourceLen: nat, descriptor: SectionDescriptor, cursor: nat) returns (r: Result<nat>)
    requires cursor <= U64_MAX && sourceLen <= U64_MAX
    ensures r.Ok? <==> descriptor.offset == Align(cursor) && descriptor.offset + descriptor.len <= sourceLen
    ensures r.Ok? ==> r.value == descriptor.offset + descriptor.len
  {
    AlignFacts(cursor);
    var aligned :- Align8(cursor);
    if descriptor.offset != aligned || descriptor.offset % 8 != 0 {
      return Err(Reject(InvalidLayout));
    }
    var end := descriptor.offset + descriptor.len;
    if end > U64_MAX || end > sourceLen {
      return Err(Reject(InvalidLayout));
    }
    return Ok(end);
  }

  /** Accepts exactly the headers whose sections are laid out as the writer does, ending at the total length. */
  method ValidateSectionLayout(sourceLen: nat, h: IndexHeader) returns (r: Result<()>)
    requires h.chunkBytes > 0 && h.headerLen == HEADER_BYTES && |h.sections| == SECTION_COUNT
    requires SlotsContiguous(h.sections, h.chunkBytes)
    requires h.checksumCount == Slots(LensOf(h.sections), h.chunkBytes) && h.totalLen <= sourceLen <= U64_MAX
    ensures r.Ok? <==> LaidOut(h)
  {
    FirstSectionIsInside(h);
    if 4 * h.checksumCount > U64_MAX || h.headerLen + 4 * h.checksumCount > U64_MAX {
      return Err(Reject(InvalidLayout));
    }
    var cursor: nat := h.headerLen + 4 * h.checksumCount;
    AlignFacts(cursor);
    if cursor % 8 != 0 {
      cursor :- Align8(cursor);
    }
    r := ValidateSlots(sourceLen, h, cursor);
  }

  /** Checks the sections one behind the other. */
  method ValidateSlots(sourceLen: nat, h: IndexHeader, start: nat) returns (r: Result<()>)
    requires h.chunkBytes > 0 && h.headerLen == HEADER_BYTES && |h.sections| == SECTION_COUNT
    requires SlotsContiguous(h.sections, h.chunkBytes)
    requires h.checksumCount == Slots(LensOf(h.sections), h.chunkBytes) && h.totalLen <= sourceLen <= U64_MAX
    requires start <= U64_MAX && Align(start) == Align(TableEnd(h.checksumCount))
    ensures r.Ok? <==> LaidOut(h)
  {
    var cursor: nat := start;
    for i := 0 to SECTION_COUNT
      invariant cursor <= U64_MAX && Align(cursor) == Align(EndOf(h, i))
      invariant (i > 0 ==> cursor == EndOf(h, i)) && PlacedUpTo(h, i)
    {
      EndStep(h, i);
      cursor :- ValidateSlot(sourceLen, h.sections[i], cursor);
    }
    AllPlaced(h);
    if cursor != h.totalLen {
      return Err(Reject(InvalidLayout));
    }
    return Ok(());
  }

  lemma FirstSectionIsInside(h: IndexHeader)
    requires h.chunkBytes > 0 && |h.sections| == SECTION_COUNT && h.totalLen <= U64_MAX
    ensures LaidOut(h) ==> TableEnd(h.checksumCount) + 7 <= U64_MAX
  {
    if LaidOut(h) {
      LayAt(TableEnd(h.checksumCount), 0, LensOf(h.sections), h.chunkBytes, 0);
      AlignFacts(TableEnd(h.checksumCount));
    }
  }
}
