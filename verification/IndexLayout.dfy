/** Where everything sits in a key-index file (src/core/persistent/format.rs and mod.rs). */
module IndexLayout {
  import opened Adler
  import opened Bytes
  import opened IndexOptions
  import opened Sequences
  import opened Wrappers

  const SECTION_COUNT: nat := 4
  const TEXT: nat := 0
  const BOUNDS: nat := 1
  const RAW: nat := 2
  const ORDER: nat := 3

  const FORMAT_REVISION: nat := 3
  const ENDIAN_MARKER: nat := 0x0102_0304
  const PARSER_REVISION: nat := 1
  const NORMALIZATION_REVISION: nat := 1
  const HEADER_FIELDS_BYTES: nat := 216
  const HEADER_CHECKSUM_BYTES: nat := 4

  /** "MDKIDX01" */
  function Magic(): (m: bytes)
    ensures |m| == 8
  {
    [0x4D, 0x44, 0x4B, 0x49, 0x44, 0x58, 0x30, 0x31]
  }

  /** What binds an index to one snapshot of its dictionary file. */
  datatype SourceIdentity = SourceIdentity(sourceBytes: nat, modifiedUnixNanos: int, keyCount: nat)

  /** Identities are two 64-bit counts and a signed 128-bit time. */
  predicate FitsIdentity(identity: SourceIdentity) {
    && identity.sourceBytes <= U64_MAX && identity.keyCount <= U64_MAX
    && -(Range(16) / 2) <= identity.modifiedUnixNanos < Range(16) / 2
  }

  datatype SectionDescriptor = SectionDescriptor(offset: nat, len: nat, checksumStart: nat, checksumCount: nat)

  datatype IndexHeader = IndexHeader(
    headerLen: nat,
    totalLen: nat,
    chunkBytes: nat,
    identity: SourceIdentity,
    normalizedTextLen: nat,
    sections: seq<SectionDescriptor>,
    checksumCount: nat)

  // ----- checked arithmetic of the source -----

  function ChunkCountChecked(len: nat, chunkBytes: nat): Result<nat> {
    if chunkBytes == 0 then Err(Reject(InvalidLayout))
    else if len == 0 then Ok(0)
    else if len + (chunkBytes - 1) > U64_MAX then Err(Reject(InvalidLayout))
    else Ok((len + (chunkBytes - 1)) / chunkBytes)
  }

  lemma ChunkCountCheckedIs(len: nat, chunkBytes: nat)
    requires chunkBytes > 0
    ensures len + (chunkBytes - 1) <= U64_MAX ==> ChunkCountChecked(len, chunkBytes) == Ok(ChunkCount(len, chunkBytes))
  {
    ChunkCountIsCeiling(len, chunkBytes);
  }

  /** The next multiple of eight. */
  function Align(value: nat): nat {
    (value + 7) / 8 * 8
  }

  function Align8(value: nat): Result<nat> {
    if value + 7 > U64_MAX then Err(Reject(InvalidLayout)) else Ok(Align(value))
  }

  lemma AlignFacts(value: nat)
    ensures value <= Align(value) <= value + 7 && Align(value) % 8 == 0
    ensures Align(Align(value)) == Align(value)
    ensures value + 7 <= U64_MAX <==> Align(value) <= U64_MAX
  {
  }

  // ----- the layout -----

  /** Sections of the given lengths, each at the next multiple of eight, their checksum slots back to back. */
  function Lay(offset: nat, checksumStart: nat, lens: seq<nat>, chunk: nat): (r: seq<SectionDescriptor>)
    requires chunk > 0
    ensures |r| == |lens|
    decreases |lens|
  {
    if lens == [] then []
    else
      var at := Align(offset);
      var slots := ChunkCount(lens[0], chunk);
      [SectionDescriptor(at, lens[0], checksumStart, slots)] + Lay(at + lens[0], checksumStart + slots, lens[1..], chunk)
  }

  /** Where the last section ends. */
  function LayEnd(offset: nat, lens: seq<nat>): nat
    decreases |lens|
  {
    if lens == [] then offset else LayEnd(Align(offset) + lens[0], lens[1..])
  }

  function Slots(lens: seq<nat>, chunk: nat): nat
    requires chunk > 0
  {
    if lens == [] then 0 else ChunkCount(lens[0], chunk) + Slots(lens[1..], chunk)
  }

  function TableEnd(slots: nat): nat {
    HEADER_BYTES + 4 * slots
  }

  function LensOf(sections: seq<SectionDescriptor>): (r: seq<nat>)
    ensures |r| == |sections|
    ensures forall i | 0 <= i < |sections| :: r[i] == sections[i].len
  {
    seq(|sections|, i requires 0 <= i < |sections| => sections[i].len)
  }

  /** The sections follow the checksum table in order, aligned and without gaps above seven bytes. */
  ghost predicate LaidOut(h: IndexHeader) {
    && h.chunkBytes > 0
    && h.headerLen == HEADER_BYTES
    && |h.sections| == SECTION_COUNT
    && h.checksumCount == Slots(LensOf(h.sections), h.chunkBytes)
    && h.sections == Lay(TableEnd(h.checksumCount), 0, LensOf(h.sections), h.chunkBytes)
    && h.totalLen == LayEnd(TableEnd(h.checksumCount), LensOf(h.sections))
  }

  lemma {:induction false} LayEndIsBehind(offset: nat, lens: seq<nat>)
    ensures offset <= LayEnd(offset, lens)
    decreases |lens|
  {
    if lens != [] {
      AlignFacts(offset);
      LayEndIsBehind(Align(offset) + lens[0], lens[1..]);
    }
  }

  /** Section `i`: aligned, behind its predecessor, inside the file, and its checksum slots inside the table. */
  lemma {:induction false} LayAt(offset: nat, checksumStart: nat, lens: seq<nat>, chunk: nat, i: nat)
    requires chunk > 0 && i < |lens|
    ensures var d := Lay(offset, checksumStart, lens, chunk)[i];
            && d.offset % 8 == 0 && offset <= d.offset && d.offset + d.len <= LayEnd(offset, lens)
            && d.offset == Align(LayEnd(offset, lens[..i])) && d.len == lens[i]
            && d.checksumCount == ChunkCount(lens[i], chunk)
            && d.checksumStart == checksumStart + Slots(lens[..i], chunk)
            && d.checksumStart + d.checksumCount <= checksumStart + Slots(lens, chunk)
    decreases |lens|
  {
    AlignFacts(offset);
    var at := Align(offset);
    if i == 0 {
      LayEndIsBehind(at + lens[0], lens[1..]);
    } else {
      LayAt(at + lens[0], checksumStart + ChunkCount(lens[0], chunk), lens[1..], chunk, i - 1);
      assert lens[..i][0] == lens[0] && lens[..i][1..] == lens[1..][..i - 1];
    }
  }

  // ----- the header's bytes -----

  function Field(s: bytes, at: nat, width: nat): nat
    requires at + width <= |s|
  {
    FromLe(s[at..at + width])
  }

  /** The header's fields at their offsets, and zero padding up to its checksum. */
  ghost predicate Encodes(s: bytes, h: IndexHeader) {
    && HEADER_FIELDS_BYTES + HEADER_CHECKSUM_BYTES <= |s|
    && EncodesFormat(s)
    && EncodesTotals(s, h)
    && |h.sections| == SECTION_COUNT
    && (forall i | 0 <= i < SECTION_COUNT :: EncodesDescriptor(s, i, h.sections[i]))
    && (forall i | HEADER_FIELDS_BYTES <= i < |s| - HEADER_CHECKSUM_BYTES :: s[i] == 0)
  }

  ghost predicate EncodesFormat(s: bytes)
    requires HEADER_FIELDS_BYTES <= |s|
  {
    && s[0..8] == Magic()
    && Field(s, 8, 4) == FORMAT_REVISION
    && Field(s, 12, 4) == ENDIAN_MARKER
    && Field(s, 32, 4) == PARSER_REVISION
    && Field(s, 36, 4) == NORMALIZATION_REVISION
    && Field(s, 44, 4) == SECTION_COUNT
  }

  ghost predicate EncodesTotals(s: bytes, h: IndexHeader)
    requires HEADER_FIELDS_BYTES <= |s|
  {
    && Field(s, 16, 8) == h.headerLen
    && Field(s, 24, 8) == h.totalLen
    && Field(s, 40, 4) == h.chunkBytes
    && Field(s, 48, 8) == h.identity.sourceBytes
    && SignedField(s, 56) == h.identity.modifiedUnixNanos
    && Field(s, 72, 8) == h.identity.keyCount
    && Field(s, 80, 8) == h.normalizedTextLen
  }

  function SignedField(s: bytes, at: nat): int
    requires at + 16 <= |s|
  {
    FromLeBound(s[at..at + 16]);
    ToSigned(16, Field(s, at, 16))
  }

  ghost predicate EncodesDescriptor(s: bytes, i: nat, d: SectionDescriptor)
    requires HEADER_FIELDS_BYTES <= |s| && i < SECTION_COUNT
  {
    var at := 88 + 32 * i;
    && Field(s, at, 8) == d.offset
    && Field(s, at + 8, 8) == d.len
    && Field(s, at + 16, 8) == d.checksumStart
    && Field(s, at + 24, 8) == d.checksumCount
  }

  /** Section `i`'s slots start behind its predecessors' and are as many as it has chunks. */
  ghost predicate SlotOk(sections: seq<SectionDescriptor>, i: nat, chunk: nat)
    requires chunk > 0 && i < |sections|
  {
    && sections[i].checksumStart == Slots(LensOf(sections[..i]), chunk)
    && sections[i].checksumCount == ChunkCount(sections[i].len, chunk)
    && sections[i].len + (chunk - 1) <= U64_MAX
  }

  ghost predicate SlotsContiguous(sections: seq<SectionDescriptor>, chunk: nat)
    requires chunk > 0
  {
    forall i | 0 <= i < |sections| :: SlotOk(sections, i, chunk)
  }

  /** Everything the reader demands of a header beyond its encoding. */
  ghost predicate Admissible(h: IndexHeader, actualLen: nat, options: KeyIndexOptions) {
    && h.totalLen == actualLen <= options.maxIndexBytes
    && MIN_CHUNK_BYTES <= h.chunkBytes <= options.chunkBytes && IsPowerOfTwo(h.chunkBytes)
    && h.identity.keyCount <= U32_MAX
    && |h.sections| == SECTION_COUNT
    && SlotsContiguous(h.sections, h.chunkBytes)
    && h.checksumCount == Slots(LensOf(h.sections), h.chunkBytes)
    && h.headerLen + 4 * h.checksumCount <= options.maxMetadataBytes
    && h.sections[TEXT].len == h.normalizedTextLen
    && h.sections[BOUNDS].len == 8 * (h.identity.keyCount + 1)
    && h.sections[RAW].len == 4 * h.identity.keyCount
    && h.sections[ORDER].len == 4 * h.identity.keyCount
  }

  /** One header at most is encoded by given bytes. */
  lemma EncodingIsUnambiguous(s: bytes, h: IndexHeader, h': IndexHeader)
    requires Encodes(s, h) && Encodes(s, h')
    requires h.checksumCount == h'.checksumCount
    ensures h == h'
  {
    assert forall i | 0 <= i < SECTION_COUNT :: EncodesDescriptor(s, i, h.sections[i]) && EncodesDescriptor(s, i, h'.sections[i]);
    assert h.sections == h'.sections;
  }

  lemma SlotsAppend(lens: seq<nat>, last: nat, chunk: nat)
    requires chunk > 0
    ensures Slots(lens + [last], chunk) == Slots(lens, chunk) + ChunkCount(last, chunk)
  {
    if lens == [] {
      NilConcat([last]);
      assert [last][1..] == [];
    } else {
      SlotsAppend(lens[1..], last, chunk);
      TailOfConcat(lens, [last]);
    }
  }

  lemma SlotsStep(sections: seq<SectionDescriptor>, i: nat, chunk: nat)
    requires chunk > 0 && i < |sections|
    ensures Slots(LensOf(sections[..i + 1]), chunk) == Slots(LensOf(sections[..i]), chunk) + ChunkCount(sections[i].len, chunk)
  {
    SlotsAppend(LensOf(sections[..i]), sections[i].len, chunk);
    assert LensOf(sections[..i + 1]) == LensOf(sections[..i]) + [sections[i].len];
  }

  lemma {:induction false} SlotsArePrefixMonotone(lens: seq<nat>, i: nat, chunk: nat)
    requires chunk > 0 && i <= |lens|
    ensures Slots(lens[..i], chunk) <= Slots(lens, chunk)
  {
    if i > 0 {
      SlotsArePrefixMonotone(lens[1..], i - 1, chunk);
      assert lens[..i][0] == lens[0] && lens[..i][1..] == lens[1..][..i - 1];
    }
  }

  /** A laid-out header has contiguous slots. */
  lemma LaidOutSlotsAreContiguous(h: IndexHeader)
    requires LaidOut(h)
    requires forall i | 0 <= i < SECTION_COUNT :: h.sections[i].len + (h.chunkBytes - 1) <= U64_MAX
    ensures SlotsContiguous(h.sections, h.chunkBytes)
  {
    var lens := LensOf(h.sections);
    forall i | 0 <= i < SECTION_COUNT
      ensures SlotOk(h.sections, i, h.chunkBytes)
    {
      LayAt(TableEnd(h.checksumCount), 0, lens, h.chunkBytes, i);
      assert LensOf(h.sections[..i]) == lens[..i];
    }
  }
}
