/** The header builder and the file writer (src/core/persistent/format.rs). */
module IndexWriter {
  import opened Adler
  import opened Bytes
  import opened IndexFormat
  import opened IndexLayout
  import opened IndexOptions
  import opened Scratch
  import opened Sequences
  import opened Wrappers

  // ----- the header -----

  /** The header of an index with sections of these lengths. */
  function HeaderOf(lens: seq<nat>, identity: SourceIdentity, normalizedTextLen: nat, chunk: nat): IndexHeader
    requires chunk > 0
  {
    var slots := Slots(lens, chunk);
    IndexHeader(HEADER_BYTES, LayEnd(TableEnd(slots), lens), chunk, identity, normalizedTextLen,
                Lay(TableEnd(slots), 0, lens, chunk), slots)
  }

  /** The values fit the fields they are written to. */
  predicate FitsFields(h: IndexHeader) {
    && h.headerLen <= U64_MAX && h.totalLen <= U64_MAX && h.chunkBytes <= U32_MAX
    && h.identity.sourceBytes <= U64_MAX
    && -(Range(16) / 2) <= h.identity.modifiedUnixNanos < Range(16) / 2
    && h.identity.keyCount <= U64_MAX && h.normalizedTextLen <= U64_MAX
    && |h.sections| == SECTION_COUNT
    && forall i | 0 <= i < SECTION_COUNT :: DescriptorFits(h.sections[i])
  }

  predicate DescriptorFits(d: SectionDescriptor) {
    d.offset <= U64_MAX && d.len <= U64_MAX && d.checksumStart <= U64_MAX && d.checksumCount <= U64_MAX
  }

  // The field groups, in writing order.

  function FormatBytes(h: IndexHeader): (s: bytes)
    ensures |s| == 24
  {
    Magic() + Le(4, FORMAT_REVISION) + Le(4, ENDIAN_MARKER) + Le(8, h.headerLen)
  }

  function RevisionBytes(h: IndexHeader): (s: bytes)
    ensures |s| == 24
  {
    Le(8, h.totalLen) + (Le(4, PARSER_REVISION) + Le(4, NORMALIZATION_REVISION)) + Le(4, h.chunkBytes) + Le(4, SECTION_COUNT)
  }

  function IdentityBytes(h: IndexHeader): (s: bytes)
    requires -(Range(16) / 2) <= h.identity.modifiedUnixNanos < Range(16) / 2
    ensures |s| == 40
  {
    Le(8, h.identity.sourceBytes) + Le(16, ToUnsigned(16, h.identity.modifiedUnixNanos)) +
    Le(8, h.identity.keyCount) + Le(8, h.normalizedTextLen)
  }

  function DescriptorBytes(d: SectionDescriptor): (s: bytes)
    ensures |s| == 32
  {
    Le(8, d.offset) + Le(8, d.len) + Le(8, d.checksumStart) + Le(8, d.checksumCount)
  }

  function DescriptorsBytes(h: IndexHeader): (s: bytes)
    requires |h.sections| == SECTION_COUNT
    ensures |s| == 128
  {
    DescriptorBytes(h.sections[0]) + DescriptorBytes(h.sections[1]) +
    DescriptorBytes(h.sections[2]) + DescriptorBytes(h.sections[3])
  }

  /** The header without its checksum. */
  function UncheckedHeader(h: IndexHeader): (s: bytes)
    requires FitsFields(h)
    ensures |s| == HEADER_BYTES - HEADER_CHECKSUM_BYTES
  {
    (FormatBytes(h) + RevisionBytes(h)) + IdentityBytes(h) + DescriptorsBytes(h) + [0, 0, 0, 0]
  }

  lemma FieldIs(s: bytes, at: nat, width: nat, n: nat)
    requires at + width <= |s| && s[at..at + width] == Le(width, n) && n < Range(width)
    ensures Field(s, at, width) == n
  {
    LeRoundTrip(width, n);
  }

  /** Four pieces written from `from` on are found at their offsets. */
  lemma FourSlices(s: bytes, from: nat, a: bytes, b: bytes, c: bytes, d: bytes)
    requires from + |a| + |b| + |c| + |d| <= |s|
    requires s[from..from + |a| + |b| + |c| + |d|] == a + b + c + d
    ensures s[from..from + |a|] == a
    ensures s[from + |a|..from + |a| + |b|] == b
    ensures s[from + |a| + |b|..from + |a| + |b| + |c|] == c
    ensures s[from + |a| + |b| + |c|..from + |a| + |b| + |c| + |d|] == d
  {
    var n := |a| + |b| + |c| + |d|;
    Pieces(a, b, c, d);
    SliceOfSlice(s, from, from + n, 0, |a|);
    SliceOfSlice(s, from, from + n, |a|, |a| + |b|);
    SliceOfSlice(s, from, from + n, |a| + |b|, |a| + |b| + |c|);
    SliceOfSlice(s, from, from + n, |a| + |b| + |c|, n);
  }

  lemma FormatIsEncoded(s: bytes, h: IndexHeader)
    requires 24 <= |s| && s[0..24] == FormatBytes(h) && h.headerLen <= U64_MAX
    ensures s[0..8] == Magic()
    ensures Field(s, 8, 4) == FORMAT_REVISION && Field(s, 12, 4) == ENDIAN_MARKER && Field(s, 16, 8) == h.headerLen
  {
    Ranges();
    FourSlices(s, 0, Magic(), Le(4, FORMAT_REVISION), Le(4, ENDIAN_MARKER), Le(8, h.headerLen));
    FieldIs(s, 8, 4, FORMAT_REVISION);
    FieldIs(s, 12, 4, ENDIAN_MARKER);
    FieldIs(s, 16, 8, h.headerLen);
  }

  lemma RevisionsAreEncoded(s: bytes, h: IndexHeader)
    requires 48 <= |s| && s[24..48] == RevisionBytes(h) && h.totalLen <= U64_MAX && h.chunkBytes <= U32_MAX
    ensures Field(s, 24, 8) == h.totalLen && Field(s, 40, 4) == h.chunkBytes && Field(s, 44, 4) == SECTION_COUNT
    ensures Field(s, 32, 4) == PARSER_REVISION && Field(s, 36, 4) == NORMALIZATION_REVISION
  {
    Ranges();
    var revisions := Le(4, PARSER_REVISION) + Le(4, NORMALIZATION_REVISION);
    FourSlices(s, 24, Le(8, h.totalLen), revisions, Le(4, h.chunkBytes), Le(4, SECTION_COUNT));
    NilConcat(revisions);
    NilConcat(Le(4, PARSER_REVISION));
    FourSlices(s, 32, [], [], Le(4, PARSER_REVISION), Le(4, NORMALIZATION_REVISION));
    FieldIs(s, 24, 8, h.totalLen);
    FieldIs(s, 32, 4, PARSER_REVISION);
    FieldIs(s, 36, 4, NORMALIZATION_REVISION);
    FieldIs(s, 40, 4, h.chunkBytes);
    FieldIs(s, 44, 4, SECTION_COUNT);
  }

  lemma IdentityIsEncoded(s: bytes, h: IndexHeader)
    requires 88 <= |s| && FitsFields(h) && s[48..88] == IdentityBytes(h)
    ensures Field(s, 48, 8) == h.identity.sourceBytes && SignedField(s, 56) == h.identity.modifiedUnixNanos
    ensures Field(s, 72, 8) == h.identity.keyCount && Field(s, 80, 8) == h.normalizedTextLen
  {
    Ranges();
    var nanos := ToUnsigned(16, h.identity.modifiedUnixNanos);
    FourSlices(s, 48, Le(8, h.identity.sourceBytes), Le(16, nanos), Le(8, h.identity.keyCount), Le(8, h.normalizedTextLen));
    FieldIs(s, 48, 8, h.identity.sourceBytes);
    FieldIs(s, 56, 16, nanos);
    FieldIs(s, 72, 8, h.identity.keyCount);
    FieldIs(s, 80, 8, h.normalizedTextLen);
  }

  lemma DescriptorIsEncoded(s: bytes, i: nat, d: SectionDescriptor)
    requires HEADER_FIELDS_BYTES <= |s| && i < SECTION_COUNT && DescriptorFits(d)
    requires s[88 + 32 * i..120 + 32 * i] == DescriptorBytes(d)
    ensures EncodesDescriptor(s, i, d)
  {
    Ranges();
    var at := 88 + 32 * i;
    FourSlices(s, at, Le(8, d.offset), Le(8, d.len), Le(8, d.checksumStart), Le(8, d.checksumCount));
    FieldIs(s, at, 8, d.offset);
    FieldIs(s, at + 8, 8, d.len);
    FieldIs(s, at + 16, 8, d.checksumStart);
    FieldIs(s, at + 24, 8, d.checksumCount);
  }

  lemma DescriptorsAreEncoded(s: bytes, h: IndexHeader)
    requires HEADER_FIELDS_BYTES <= |s| && FitsFields(h) && s[88..216] == DescriptorsBytes(h)
    ensures forall i | 0 <= i < SECTION_COUNT :: EncodesDescriptor(s, i, h.sections[i])
  {
    var d := h.sections;
    FourSlices(s, 88, DescriptorBytes(d[0]), DescriptorBytes(d[1]), DescriptorBytes(d[2]), DescriptorBytes(d[3]));
    forall i | 0 <= i < SECTION_COUNT
      ensures EncodesDescriptor(s, i, d[i])
    {
      DescriptorIsEncoded(s, i, d[i]);
    }
  }

  lemma GroupsAreFound(s: bytes, format: bytes, revisions: bytes, identity: bytes, descriptors: bytes, checksum: bytes)
    requires |format| == 24 && |revisions| == 24 && |identity| == 40 && |descriptors| == 128 && |checksum| == 4
    requires s == ((format + revisions) + identity + descriptors + [0, 0, 0, 0]) + checksum
    ensures s[0..24] == format && s[24..48] == revisions && s[48..88] == identity && s[88..216] == descriptors
    ensures s[216..220] == [0, 0, 0, 0] && s[220..224] == checksum
  {
    Whole(s);
    FourSlices(s, 0, (format + revisions) + identity, descriptors, [0, 0, 0, 0], checksum);
    FourSlices(s, 0, [], format, revisions, identity);
  }

  /** The written header encodes the values it was built from, whatever checksum follows. */
  lemma HeaderIsEncoded(h: IndexHeader, checksum: bytes)
    requires FitsFields(h) && |checksum| == HEADER_CHECKSUM_BYTES
    ensures Encodes(UncheckedHeader(h) + checksum, h)
    ensures (UncheckedHeader(h) + checksum)[..HEADER_BYTES - HEADER_CHECKSUM_BYTES] == UncheckedHeader(h)
    ensures (UncheckedHeader(h) + checksum)[HEADER_BYTES - HEADER_CHECKSUM_BYTES..HEADER_BYTES] == checksum
  {
    var s := UncheckedHeader(h) + checksum;
    GroupsAreFound(s, FormatBytes(h), RevisionBytes(h), IdentityBytes(h), DescriptorsBytes(h), checksum);
    FormatIsEncoded(s, h);
    RevisionsAreEncoded(s, h);
    IdentityIsEncoded(s, h);
    DescriptorsAreEncoded(s, h);
    PaddingIsEncoded(s);
    ShiftedSlice(UncheckedHeader(h), checksum, 0, 0);
  }

  lemma PaddingIsEncoded(s: bytes)
    requires |s| == HEADER_BYTES && s[216..220] == [0, 0, 0, 0]
    ensures forall i | HEADER_FIELDS_BYTES <= i < |s| - HEADER_CHECKSUM_BYTES :: s[i] == 0
  {
    forall i | HEADER_FIELDS_BYTES <= i < |s| - HEADER_CHECKSUM_BYTES
      ensures s[i] == 0
    {
      assert s[i] == s[216..220][i - 216];
    }
  }

  function SectionLens(sections: seq<SectionFile>): (r: seq<nat>)
    ensures |r| == |sections|
    ensures forall i | 0 <= i < |sections| :: r[i] == sections[i].len
  {
    seq(|sections|, i requires 0 <= i < |sections| => sections[i].len)
  }

  /** Every section has one checksum slot per chunk, and the chunk arithmetic stays inside `u64`. */
  ghost predicate SlotsMatch(sections: seq<SectionFile>, chunk: nat)
    requires chunk > 0
  {
    forall i | 0 <= i < |sections| ::
      ChunkCountChecked(sections[i].len, chunk) == Ok(|sections[i].checksums|)
  }

  /** What the configured ceilings demand of an index with sections of these lengths. */
  predicate WithinCeilings(lens: seq<nat>, options: KeyIndexOptions)
    requires ValidOptions(options)
  {
    var slots := Slots(lens, options.chunkBytes);
    TableEnd(slots) <= options.maxMetadataBytes && LayEnd(TableEnd(slots), lens) <= options.maxIndexBytes
  }

  lemma CheckedCountIsCount(len: nat, chunk: nat)
    requires chunk > 0 && ChunkCountChecked(len, chunk).Ok?
    ensures ChunkCountChecked(len, chunk).value == ChunkCount(len, chunk)
  {
    if len > 0 {
      ChunkCountIsCeiling(len, chunk);
    }
  }

  /** Adds up the checksum slots of all sections. */
  method CountSlots(sections: seq<SectionFile>, chunk: nat) returns (r: Result<nat>)
    requires chunk > 0
    ensures r.Ok? <==> SlotsMatch(sections, chunk) && Slots(SectionLens(sections), chunk) <= U64_MAX
    ensures r.Ok? ==> r.value == Slots(SectionLens(sections), chunk)
  {
    var checksumCount: nat := 0;
    ghost var lens := SectionLens(sections);
    for i := 0 to |sections|
      invariant checksumCount == Slots(lens[..i], chunk) <= U64_MAX
      invariant forall k | 0 <= k < i :: ChunkCountChecked(sections[k].len, chunk) == Ok(|sections[k].checksums|)
    {
      var section := sections[i];
      assert SlotsMatch(sections, chunk) ==> ChunkCountChecked(section.len, chunk) == Ok(|section.checksums|);
      PrefixGrows(lens, i);
      SlotsAppend(lens[..i], lens[i], chunk);
      SlotsArePrefixMonotone(lens, i + 1, chunk);
      var expected :- ChunkCountChecked(section.len, chunk);
      CheckedCountIsCount(section.len, chunk);
      if |section.checksums| != expected {
        return Err(InvalidFormat);
      }
      checksumCount := checksumCount + |section.checksums|;
      if checksumCount > U64_MAX {
        return Err(InvalidFormat);
      }
    }
    Whole(lens);
    return Ok(checksumCount);
  }

  /** Assigns every section its offset and slots; returns the descriptors and the end of the last section. */
  method LayOut(sections: seq<SectionFile>, tableEnd: nat, chunk: nat)
    returns (r: Result<(seq<SectionDescriptor>, nat)>)
    requires chunk > 0 && SlotsMatch(sections, chunk) && tableEnd <= U64_MAX
    requires Slots(SectionLens(sections), chunk) <= U64_MAX
    ensures r.Ok? <==> LayEnd(tableEnd, SectionLens(sections)) <= U64_MAX && Align(tableEnd) <= U64_MAX
    ensures r.Ok? ==> r.value.1 == (if sections == [] then Align(tableEnd) else LayEnd(tableEnd, SectionLens(sections)))
    ensures r.Ok? ==> r.value.0 == Lay(tableEnd, 0, SectionLens(sections), chunk)
  {
    ghost var lens := SectionLens(sections);
    AlignFacts(tableEnd);
    LayEndIsBehind(tableEnd, lens);
    var offset: nat :- Align8(tableEnd);
    var descriptors: seq<SectionDescriptor> := [];
    var checksumStart: nat := 0;
    for i := 0 to |sections|
      invariant |descriptors| == i && offset <= U64_MAX
      invariant Align(offset) == Align(LayEnd(tableEnd, lens[..i]))
      invariant i > 0 ==> offset == LayEnd(tableEnd, lens[..i])
      invariant i == 0 ==> offset == Align(tableEnd)
      invariant checksumStart == Slots(lens[..i], chunk)
      invariant forall k | 0 <= k < i :: descriptors[k] == Lay(tableEnd, 0, lens, chunk)[k]
    {
      var section := sections[i];
      LayEndStep(tableEnd, lens, i);
      LayAt(tableEnd, 0, lens, chunk, i);
      PrefixGrows(lens, i);
      SlotsAppend(lens[..i], lens[i], chunk);
      CheckedCountIsCount(section.len, chunk);
      AlignFacts(offset);
      offset :- Align8(offset);
      descriptors := descriptors + [SectionDescriptor(offset, section.len, checksumStart, |section.checksums|)];
      checksumStart := checksumStart + |section.checksums|;
      offset := offset + section.len;
      if offset > U64_MAX {
        return Err(InvalidFormat);
      }
    }
    Whole(lens);
    return Ok((descriptors, offset));
  }

  lemma HeaderOfFits(lens: seq<nat>, identity: SourceIdentity, normalizedTextLen: nat, options: KeyIndexOptions)
    requires ValidOptions(options) && |lens| == SECTION_COUNT && WithinCeilings(lens, options)
    requires FitsIdentity(identity) && normalizedTextLen <= U64_MAX
    ensures FitsFields(HeaderOf(lens, identity, normalizedTextLen, options.chunkBytes))
    ensures LaidOut(HeaderOf(lens, identity, normalizedTextLen, options.chunkBytes))
  {
    var h := HeaderOf(lens, identity, normalizedTextLen, options.chunkBytes);
    var start := TableEnd(h.checksumCount);
    forall i | 0 <= i < SECTION_COUNT
      ensures DescriptorFits(h.sections[i]) && h.sections[i].len == lens[i]
    {
      LayAt(start, 0, lens, options.chunkBytes, i);
    }
    assert LensOf(h.sections) == lens;
  }

  /** The header's bytes, checksummed if the policy asks for it. */
  method EncodeHeader(h: IndexHeader, policy: ChecksumPolicy) returns (header: bytes)
    requires FitsFields(h)
    ensures |header| == HEADER_BYTES && Encodes(header, h) && HeaderChecksumOk(header, policy)
  {
    var unchecked := UncheckedHeader(h);
    var checksum := 0;
    if policy == Verify {
      checksum := Adler32(unchecked);
    }
    header := unchecked + Le(4, checksum);
    HeaderIsEncoded(h, Le(4, checksum));
    ChecksumIsStored(header, unchecked, checksum, policy);
  }

  lemma ChecksumIsStored(header: bytes, unchecked: bytes, checksum: nat, policy: ChecksumPolicy)
    requires |header| == HEADER_BYTES && checksum <= U32_MAX
    requires header[..HEADER_BYTES - HEADER_CHECKSUM_BYTES] == unchecked
    requires header[HEADER_BYTES - HEADER_CHECKSUM_BYTES..HEADER_BYTES] == Le(4, checksum)
    requires policy == Verify ==> checksum == Checksum(unchecked)
    ensures HeaderChecksumOk(header, policy)
  {
    Ranges();
    FieldIs(header, HEADER_BYTES - HEADER_CHECKSUM_BYTES, 4, checksum);
  }

  /** An index within its ceilings starts its first section inside `u64`. */
  lemma FirstOffsetFits(lens: seq<nat>, options: KeyIndexOptions)
    requires ValidOptions(options) && |lens| == SECTION_COUNT && WithinCeilings(lens, options)
    ensures Align(TableEnd(Slots(lens, options.chunkBytes))) <= U64_MAX
  {
    var start := TableEnd(Slots(lens, options.chunkBytes));
    LayAt(start, 0, lens, options.chunkBytes, 0);
    AlignFacts(start);
  }

  /** Lays the sections out, or refuses the index when it would break a ceiling. */
  method PlanHeader(sections: seq<SectionFile>, identity: SourceIdentity, normalizedTextLen: nat,
                    options: KeyIndexOptions)
    returns (r: Result<IndexHeader>)
    requires ValidOptions(options) && |sections| == SECTION_COUNT
    ensures r.Ok? <==> SlotsMatch(sections, options.chunkBytes) && WithinCeilings(SectionLens(sections), options)
    ensures r.Ok? ==> r.value == HeaderOf(SectionLens(sections), identity, normalizedTextLen, options.chunkBytes)
  {
    ghost var lens := SectionLens(sections);
    var checksumCount :- CountSlots(sections, options.chunkBytes);
    if 4 * checksumCount > U64_MAX || HEADER_BYTES + 4 * checksumCount > U64_MAX {
      return Err(InvalidFormat);
    }
    if HEADER_BYTES + 4 * checksumCount > options.maxMetadataBytes {
      return Err(LimitExceeded(MetadataBytes));
    }
    if WithinCeilings(lens, options) {
      FirstOffsetFits(lens, options);
    }
    var laid :- LayOut(sections, HEADER_BYTES + 4 * checksumCount, options.chunkBytes);
    if laid.1 > options.maxIndexBytes {
      return Err(LimitExceeded(IndexBytes));
    }
    return Ok(IndexHeader(HEADER_BYTES, laid.1, options.chunkBytes, identity, normalizedTextLen, laid.0, checksumCount));
  }

  /** Builds the header, or refuses the index when it would break a ceiling. */
  method BuildHeader(sections: seq<SectionFile>, identity: SourceIdentity, normalizedTextLen: nat,
                     options: KeyIndexOptions)
    returns (r: Result<(bytes, IndexHeader)>)
    requires ValidOptions(options) && |sections| == SECTION_COUNT && FitsIdentity(identity)
    requires normalizedTextLen <= U64_MAX
    ensures r.Ok? <==> SlotsMatch(sections, options.chunkBytes) && WithinCeilings(SectionLens(sections), options)
    ensures r.Ok? ==>
              var (header, h) := r.value;
              && h == HeaderOf(SectionLens(sections), identity, normalizedTextLen, options.chunkBytes) && LaidOut(h)
              && |header| == HEADER_BYTES && Encodes(header, h) && HeaderChecksumOk(header, options.checksumPolicy)
  {
    var h :- PlanHeader(sections, identity, normalizedTextLen, options);
    HeaderOfFits(SectionLens(sections), identity, normalizedTextLen, options);
    var header := EncodeHeader(h, options.checksumPolicy);
    return Ok((header, h));
  }

  // ----- the file -----

  /** The sections, each behind the zeros that align it. */
  function Padded(offset: nat, parts: seq<bytes>): bytes
    decreases |parts|
  {
    if parts == [] then []
    else Zeros(Align(offset) - offset) + parts[0] + Padded(Align(offset) + |parts[0]|, parts[1..])
  }

  function Zeros(n: int): (z: bytes)
    ensures n >= 0 ==> |z| == n
  {
    if n <= 0 then [] else [0] + Zeros(n - 1)
  }

  function LengthsOf(parts: seq<bytes>): (r: seq<nat>)
    ensures |r| == |parts|
    ensures forall i | 0 <= i < |parts| :: r[i] == |parts[i]|
  {
    seq(|parts|, i requires 0 <= i < |parts| => |parts[i]|)
  }

  /** A whole index file. */
  function Artifact(header: bytes, checksums: seq<nat>, parts: seq<bytes>): bytes {
    header + LeTable(4, checksums) + Padded(|header| + 4 * |checksums|, parts)
  }

  lemma {:induction false} PaddedLength(offset: nat, parts: seq<bytes>)
    ensures offset + |Padded(offset, parts)| == LayEnd(offset, LengthsOf(parts))
    decreases |parts|
  {
    if parts != [] {
      AlignFacts(offset);
      PaddedLength(Align(offset) + |parts[0]|, parts[1..]);
      assert LengthsOf(parts)[1..] == LengthsOf(parts[1..]);
    }
  }

  lemma PaddedUnfolds(prefix: bytes, before: bytes, parts: seq<bytes>)
    requires parts != [] && before == prefix + Zeros(Align(|prefix|) - |prefix|) + parts[0]
    ensures |before| == Align(|prefix|) + |parts[0]|
    ensures prefix + Padded(|prefix|, parts) == before + Padded(|before|, parts[1..])
  {
    AlignFacts(|prefix|);
    UnfoldedAt(prefix, |before|, parts);
  }

  lemma UnfoldedAt(prefix: bytes, end: nat, parts: seq<bytes>)
    requires parts != [] && end == Align(|prefix|) + |parts[0]|
    ensures prefix + Padded(|prefix|, parts) ==
            prefix + Zeros(Align(|prefix|) - |prefix|) + parts[0] + Padded(end, parts[1..])
  {
    Regrouped(prefix, Zeros(Align(|prefix|) - |prefix|), parts[0], Padded(Align(|prefix|) + |parts[0]|, parts[1..]));
  }

  lemma Regrouped(a: bytes, b: bytes, c: bytes, d: bytes)
    ensures a + (b + c + d) == a + b + c + d
  {
    Associative(a, b + c, d);
    Associative(a, b, c);
  }

  ghost predicate FoundAt(s: bytes, at: nat, part: bytes) {
    at + |part| <= |s| && s[at..at + |part|] == part
  }

  lemma LayEndOfTail(offset: nat, parts: seq<bytes>, i: nat)
    requires 0 < i <= |parts|
    ensures LayEnd(offset, LengthsOf(parts)[..i]) ==
            LayEnd(Align(offset) + |parts[0]|, LengthsOf(parts[1..])[..i - 1])
  {
    var lens := LengthsOf(parts)[..i];
    assert lens[0] == |parts[0]| && lens[1..] == LengthsOf(parts[1..])[..i - 1];
  }

  lemma PaddedFirst(whole: bytes, prefix: bytes, parts: seq<bytes>)
    requires parts != [] && whole == prefix + Padded(|prefix|, parts)
    ensures FoundAt(whole, Align(|prefix|), parts[0])
  {
    AlignFacts(|prefix|);
    var padded := prefix + Zeros(Align(|prefix|) - |prefix|);
    var before := padded + parts[0];
    PaddedUnfolds(prefix, before, parts);
    FoundInMiddle(padded, parts[0], Padded(|before|, parts[1..]));
  }

  /** Part `i` is found at the offset the layout gives it. */
  lemma {:induction false} PaddedAt(whole: bytes, prefix: bytes, parts: seq<bytes>, i: nat)
    requires i < |parts| && whole == prefix + Padded(|prefix|, parts)
    ensures FoundAt(whole, Align(LayEnd(|prefix|, LengthsOf(parts)[..i])), parts[i])
    decreases i
  {
    if i == 0 {
      PaddedFirst(whole, prefix, parts);
    } else {
      var before := prefix + Zeros(Align(|prefix|) - |prefix|) + parts[0];
      PaddedUnfolds(prefix, before, parts);
      PaddedAt(whole, before, parts[1..], i - 1);
      LayEndOfTail(|prefix|, parts, i);
    }
  }

  lemma FoundInMiddle(a: bytes, b: bytes, c: bytes)
    ensures FoundAt(a + b + c, |a|, b)
  {
    NilConcat(a + b + c);
    Pieces(a, b, c, []);
  }

  /** Copies the first `len` bytes of a rewound scratch file, one buffer at a time. */
  method CopyExact(source: File, destination: File, len: nat, bufferBytes: nat) returns (r: Result<()>)
    requires source != destination && 0 < bufferBytes && destination.position <= |destination.contents|
    requires source.position == 0
    modifies source`position, destination
    ensures source.contents == old(source.contents)
    ensures r.Ok? <==> len <= |source.contents|
    ensures r.Ok? ==>
              && destination.contents == Patched(old(destination.contents), old(destination.position), source.contents[..len])
              && destination.position == old(destination.position) + len <= |destination.contents|
  {
    var remaining := len;
    ghost var at, before, data := destination.position, destination.contents, source.contents;
    PatchNothing(before, at);
    Whole(data);
    while remaining > 0
      invariant 0 <= remaining <= len && source.contents == data
      invariant source.position == len - remaining <= |data|
      invariant HasCopied(destination, before, at, data, len - remaining)
    {
      var readLen := Min(remaining, bufferBytes);
      var copied :- CopyPiece(source, destination, readLen, before, at);
      remaining := remaining - readLen;
    }
    return Ok(());
  }

  /** The first `copied` bytes have been written over `before` from `at` on. */
  ghost predicate HasCopied(destination: File, before: bytes, at: nat, data: bytes, copied: nat)
    requires copied <= |data| && at <= |before|
    reads destination
  {
    destination.position == at + copied <= |destination.contents| && destination.contents == Patched(before, at, data[..copied])
  }

  /** Copies one buffer. */
  method CopyPiece(source: File, destination: File, readLen: nat, ghost before: bytes, ghost at: nat) returns (r: Result<()>)
    requires source != destination && source.position <= |source.contents| && at <= |before|
    requires HasCopied(destination, before, at, source.contents, source.position)
    modifies source`position, destination
    ensures source.contents == old(source.contents)
    ensures r.Ok? <==> old(source.position) + readLen <= |source.contents|
    ensures r.Ok? ==> source.position == old(source.position) + readLen
                      && HasCopied(destination, before, at, source.contents, source.position)
  {
    ghost var data, copied := source.contents, source.position;
    var piece :- source.ReadExact(readLen);
    destination.WriteAll(piece);
    PatchMore(before, at, data[..copied], piece);
    SplitAt(data[..copied + readLen], copied);
    SliceOfSlice(data, 0, copied + readLen, 0, copied);
    SliceOfSlice(data, 0, copied + readLen, copied, copied + readLen);
    return Ok(());
  }

  /** Writes the zeros up to `target`; more than seven are refused. */
  method PadTo(file: File, target: nat) returns (r: Result<()>)
    requires file.position <= |file.contents|
    modifies file
    ensures r.Ok? <==> old(file.position) <= target <= old(file.position) + 7
    ensures r.Ok? ==>
              && file.contents == Patched(old(file.contents), old(file.position), Zeros(target - old(file.position)))
              && file.position == target <= |file.contents|
  {
    if file.position > target {
      return Err(InvalidFormat);
    }
    var padding := target - file.position;
    if padding > 7 {
      return Err(InvalidFormat);
    }
    var zeroes: bytes := [0, 0, 0, 0, 0, 0, 0];
    ZeroesAre(zeroes, padding);
    file.WriteAll(zeroes[..padding]);
    return Ok(());
  }

  lemma {:induction false} ZeroesAre(zeroes: bytes, n: nat)
    requires n <= |zeroes| && forall i | 0 <= i < |zeroes| :: zeroes[i] == 0
    ensures Zeros(n) == zeroes[..n]
  {
    if n > 0 {
      ZeroesAre(zeroes[1..], n - 1);
      assert zeroes[..n] == [zeroes[0]] + zeroes[1..][..n - 1];
    }
  }

  // ----- writing it -----

  ghost predicate PartsHeld(sections: seq<SectionFile>, parts: seq<bytes>)
    reads set s | s in sections :: s.file
  {
    |sections| == |parts| &&
    forall i | 0 <= i < |sections| :: sections[i].file.contents == parts[i] && sections[i].len == |parts[i]|
  }

  ghost predicate FilesApart(sections: seq<SectionFile>, destination: File) {
    && (forall i | 0 <= i < |sections| :: sections[i].file != destination)
    && forall i, j | 0 <= i < j < |sections| :: sections[i].file != sections[j].file
  }

  function AllChecksums(sections: seq<SectionFile>): seq<nat> {
    if sections == [] then [] else sections[0].checksums + AllChecksums(sections[1..])
  }

  /** Writes every checksum slot, section by section. */
  method WriteChecksums(sections: seq<SectionFile>, destination: File)
    requires destination.position <= |destination.contents|
    modifies destination
    ensures destination.contents ==
            Patched(old(destination.contents), old(destination.position), LeTable(4, AllChecksums(sections)))
    ensures destination.position == old(destination.position) + 4 * |AllChecksums(sections)| <= |destination.contents|
  {
    ghost var before, at := destination.contents, destination.position;
    ghost var written: seq<nat> := [];
    PatchNothing(before, at);
    NilConcat(AllChecksums(sections));
    for i := 0 to |sections|
      invariant SlotsWritten(destination, before, at, written)
      invariant written + AllChecksums(sections[i..]) == AllChecksums(sections)
    {
      SuffixShrinks(sections, i);
      Associative(written, sections[i].checksums, AllChecksums(sections[i + 1..]));
      WriteSlots(sections[i].checksums, destination, before, at, written);
      written := written + sections[i].checksums;
    }
    Whole(sections);
    NilConcat(written);
  }

  /** The destination holds these slots from `at` on. */
  ghost predicate SlotsWritten(destination: File, before: bytes, at: nat, written: seq<nat>)
    requires at <= |before|
    reads destination
  {
    && destination.position == at + 4 * |written| <= |destination.contents|
    && destination.contents == Patched(before, at, LeTable(4, written))
  }

  /** Writes the slots of one section behind those written so far. */
  method WriteSlots(checksums: seq<nat>, destination: File, ghost before: bytes, ghost at: nat, ghost written: seq<nat>)
    requires at <= |before| && SlotsWritten(destination, before, at, written)
    modifies destination
    ensures SlotsWritten(destination, before, at, written + checksums)
  {
    NilConcat(written);
    for k := 0 to |checksums|
      invariant SlotsWritten(destination, before, at, written + checksums[..k])
    {
      ghost var soFar := written + checksums[..k];
      destination.WriteAll(Le(4, checksums[k]));
      PatchMore(before, at, LeTable(4, soFar), Le(4, checksums[k]));
      LeTableAppend(4, soFar, checksums[k]);
      PrefixGrows(checksums, k);
      Associative(written, checksums[..k], [checksums[k]]);
    }
    Whole(checksums);
  }

  /** A finished index: its header, its sections and where they go. */
  datatype BuiltIndex = BuiltIndex(header: bytes, sections: seq<SectionFile>, layout: IndexHeader)

  function Files(sections: seq<SectionFile>): set<File> {
    set i | 0 <= i < |sections| :: sections[i].file
  }

  /** Writes one section: the padding to its offset, then its bytes. */
  method WriteSection(section: SectionFile, offset: nat, destination: File, bufferBytes: nat,
                      ghost part: bytes, ghost before: bytes, ghost done: bytes)
    returns (r: Result<()>)
    requires section.file != destination && section.file.contents == part && section.len == |part|
    requires 0 < bufferBytes && offset == Align(|done|)
    requires destination.contents == Patched(before, 0, done) && destination.position == |done| <= |destination.contents|
    modifies section.file`position, destination
    ensures r.Ok? && section.file.contents == part
    ensures var done' := done + Zeros(Align(|done|) - |done|) + part;
            && destination.contents == Patched(before, 0, done')
            && destination.position == |done'| <= |destination.contents|
  {
    PadSection(offset, destination, before, done);
    section.file.Seek(0);
    r := CopyExact(section.file, destination, section.len, bufferBytes);
    Whole(part);
    PatchMore(before, 0, done + Zeros(Align(|done|) - |done|), part);
  }

  /** Writes the zeros in front of a section. */
  method PadSection(offset: nat, destination: File, ghost before: bytes, ghost done: bytes)
    requires offset == Align(|done|)
    requires destination.contents == Patched(before, 0, done) && destination.position == |done| <= |destination.contents|
    modifies destination
    ensures var padded := done + Zeros(Align(|done|) - |done|);
            && |padded| == offset && destination.contents == Patched(before, 0, padded)
            && destination.position == |padded| <= |destination.contents|
  {
    AlignFacts(|done|);
    var padded := PadTo(destination, offset);
    PatchMore(before, 0, done, Zeros(offset - |done|));
  }

  /** What is written and what is still to write make up the file. */
  ghost predicate SectionsLeft(done: bytes, parts: seq<bytes>, i: nat, start: nat, whole: bytes) {
    && i <= |parts|
    && |done| == LayEnd(start, LengthsOf(parts)[..i])
    && done + Padded(|done|, parts[i..]) == whole
  }

  lemma SectionsLeftStep(done: bytes, done': bytes, parts: seq<bytes>, i: nat, start: nat, whole: bytes)
    requires SectionsLeft(done, parts, i, start, whole) && i < |parts|
    requires done' == done + Zeros(Align(|done|) - |done|) + parts[i]
    ensures SectionsLeft(done', parts, i + 1, start, whole)
  {
    SuffixShrinks(parts, i);
    PaddedUnfolds(done, done', parts[i..]);
    LayEndStep(start, LengthsOf(parts), i);
  }

  /** Writes all sections behind the checksum table. */
  method WriteSections(sections: seq<SectionFile>, descriptors: seq<SectionDescriptor>, destination: File,
                       bufferBytes: nat, ghost parts: seq<bytes>, ghost before: bytes, ghost head: bytes)
    returns (r: Result<()>)
    requires PartsHeld(sections, parts) && FilesApart(sections, destination) && 0 < bufferBytes
    requires |descriptors| == |sections|
    requires forall i | 0 <= i < |sections| :: descriptors[i].offset == Align(LayEnd(|head|, LengthsOf(parts)[..i]))
    requires destination.contents == Patched(before, 0, head) && destination.position == |head| <= |destination.contents|
    modifies destination, Files(sections)
    ensures r.Ok? && PartsHeld(sections, parts)
    ensures var whole := head + Padded(|head|, parts);
            && destination.contents == Patched(before, 0, whole)
            && destination.position == |whole| <= |destination.contents|
  {
    ghost var whole := head + Padded(|head|, parts);
    ghost var done := head;
    Whole(parts);
    assert LengthsOf(parts)[..0] == [];
    for i := 0 to |sections|
      invariant PartsHeld(sections, parts)
      invariant SectionsLeft(done, parts, i, |head|, whole)
      invariant destination.contents == Patched(before, 0, done) && destination.position == |done| <= |destination.contents|
    {
      SectionsLeftStep(done, done + Zeros(Align(|done|) - |done|) + parts[i], parts, i, |head|, whole);
      var written := WriteSection(sections[i], descriptors[i].offset, destination, bufferBytes, parts[i], before, done);
      done := done + Zeros(Align(|done|) - |done|) + parts[i];
    }
    assert parts[|parts|..] == [];
    NilConcat(done);
    return Ok(());
  }

  /** What the builder hands to the writer. */
  ghost predicate ReadyToWrite(built: BuiltIndex, parts: seq<bytes>)
    reads set s | s in built.sections :: s.file
  {
    && |built.header| == HEADER_BYTES && |parts| == SECTION_COUNT
    && LaidOut(built.layout) && LensOf(built.layout.sections) == LengthsOf(parts)
    && PartsHeld(built.sections, parts)
    && |AllChecksums(built.sections)| == built.layout.checksumCount
  }

  /** The offsets of a laid-out header. */
  lemma OffsetsOfLayout(h: IndexHeader, i: nat)
    requires LaidOut(h) && i < SECTION_COUNT
    ensures h.sections[i].offset == Align(LayEnd(TableEnd(h.checksumCount), LensOf(h.sections)[..i]))
  {
    LayAt(TableEnd(h.checksumCount), 0, LensOf(h.sections), h.chunkBytes, i);
  }

  lemma ArtifactLength(built: BuiltIndex, parts: seq<bytes>)
    requires ReadyToWrite(built, parts)
    ensures |Artifact(built.header, AllChecksums(built.sections), parts)| == built.layout.totalLen
  {
    PaddedLength(TableEnd(built.layout.checksumCount), parts);
  }

  /**
   * Writes the finished index over the start of `destination`. It succeeds exactly when nothing of an older,
   * longer content is left behind, and then the destination is the index file and nothing else.
   */
  method WriteBuiltIndex(built: BuiltIndex, destination: File, bufferBytes: nat, ghost parts: seq<bytes>)
    returns (r: Result<()>)
    requires ReadyToWrite(built, parts) && FilesApart(built.sections, destination) && 0 < bufferBytes
    modifies destination, Files(built.sections)
    ensures r.Ok? <==> |old(destination.contents)| <= built.layout.totalLen
    ensures r.Ok? ==> destination.contents == Artifact(built.header, AllChecksums(built.sections), parts)
  {
    ghost var before, table := destination.contents, LeTable(4, AllChecksums(built.sections));
    ghost var whole := Artifact(built.header, AllChecksums(built.sections), parts);
    ArtifactLength(built, parts);
    forall i | 0 <= i < SECTION_COUNT
      ensures built.layout.sections[i].offset ==
              Align(LayEnd(TableEnd(built.layout.checksumCount), LengthsOf(parts)[..i]))
    {
      OffsetsOfLayout(built.layout, i);
    }
    destination.Seek(0);
    destination.WriteAll(built.header);
    WriteChecksums(built.sections, destination);
    PatchMore(before, 0, built.header, table);
    var written := WriteSections(built.sections, built.layout.sections, destination, bufferBytes, parts, before,
                                 built.header + table);
    PatchLength(before, whole);
    if destination.position != built.layout.totalLen {
      return Err(InvalidFormat);
    }
    if |destination.contents| != built.layout.totalLen {
      return Err(InvalidFormat);
    }
    return Ok(());
  }

  lemma PatchLength(before: bytes, whole: bytes)
    ensures |Patched(before, 0, whole)| == Max(|before|, |whole|)
    ensures |before| <= |whole| ==> Patched(before, 0, whole) == whole
  {
  }
}
