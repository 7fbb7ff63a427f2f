/**
 * The round trip of a key-index file: what the writer leaves behind is accepted by the reader and reads back as
 * the rows it was built from (src/core/persistent/format.rs and cache.rs).
 */
module IndexArtifact {
  import opened Adler
  import opened Bytes
  import opened IndexFormat
  import opened IndexLayout
  import opened IndexOptions
  import opened IndexView
  import opened IndexWriter
  import opened RecordOrder
  import opened Scratch
  import opened Sequences
  import opened Utf8
  import opened Wrappers

  // ----- the sections of an index -----

  function SectionsOf(texts: seq<bytes>, digests: seq<nat>): (parts: seq<bytes>)
    ensures |parts| == SECTION_COUNT
  {
    [Concat(texts), LeTable(8, TextBounds(texts)), LeTable(4, digests), LeTable(4, OrderOf(texts))]
  }

  /** `file` starts with a header encoding `h`, carries the checksum table and has every part where `h` says. */
  ghost predicate IsIndexFile(file: bytes, h: IndexHeader, parts: seq<bytes>, policy: ChecksumPolicy) {
    && LaidOut(h) && |parts| == SECTION_COUNT && LensOf(h.sections) == LengthsOf(parts)
    && |file| == h.totalLen
    && StartsWithHeader(file, h, policy)
    && forall i | 0 <= i < SECTION_COUNT :: HasSection(file, h.sections[i], parts[i], h.chunkBytes, policy)
  }

  ghost predicate StartsWithHeader(file: bytes, h: IndexHeader, policy: ChecksumPolicy) {
    && HEADER_BYTES <= |file|
    && Encodes(file[..HEADER_BYTES], h)
    && HeaderChecksumOk(file[..HEADER_BYTES], policy)
  }

  ghost predicate HasSection(file: bytes, d: SectionDescriptor, part: bytes, chunk: nat, policy: ChecksumPolicy)
    requires chunk > 0
  {
    FoundAt(file, d.offset, part) && SlotsHold(file, d.checksumStart, ChecksumTable(part, chunk, policy))
  }

  /** The slots `start..` of the table hold `table`. */
  ghost predicate SlotsHold(file: bytes, start: nat, table: seq<nat>) {
    && HEADER_BYTES + 4 * (start + |table|) <= |file|
    && forall c | 0 <= c < |table| :: Field(file, HEADER_BYTES + 4 * (start + c), 4) == table[c]
  }

  // ----- the writer produces one -----

  /** Section `i`'s checksums follow those of the sections before it. */
  lemma {:induction false} AllChecksumsAt(sections: seq<SectionFile>, i: nat)
    requires i < |sections|
    ensures var start := |AllChecksums(sections[..i])|;
            && start + |sections[i].checksums| <= |AllChecksums(sections)|
            && AllChecksums(sections)[start..start + |sections[i].checksums|] == sections[i].checksums
  {
    var rest := AllChecksums(sections[1..]);
    if i == 0 {
      ShiftedSlice(sections[0].checksums, rest, 0, 0);
    } else {
      AllChecksumsAt(sections[1..], i - 1);
      assert sections[..i][0] == sections[0] && sections[..i][1..] == sections[1..][..i - 1];
      var start := |AllChecksums(sections[1..][..i - 1])|;
      ShiftedSlice(sections[0].checksums, rest, start, start + |sections[i].checksums|);
    }
  }

  lemma {:induction false} AllChecksumsCount(sections: seq<SectionFile>, chunk: nat)
    requires chunk > 0
    requires forall i | 0 <= i < |sections| :: |sections[i].checksums| == ChunkCount(sections[i].len, chunk)
    ensures |AllChecksums(sections)| == Slots(SectionLens(sections), chunk)
  {
    if sections != [] {
      AllChecksumsCount(sections[1..], chunk);
      assert SectionLens(sections)[1..] == SectionLens(sections[1..]);
    }
  }

  /** Where a table is found, so are its entries. */
  lemma EntryFound(s: bytes, at: nat, table: bytes, width: nat, values: seq<nat>, i: nat, from: nat)
    requires FoundAt(s, at, table) && Tabulates(table, width, values) && i < |values|
    requires from == width * i && values[i] < Range(width)
    ensures at + from + width <= |s| && Field(s, at + from, width) == values[i]
  {
    assert EntryIs(table, from, width, values[i]);
    SubFound(s, at, table, from, from + width);
    LeRoundTrip(width, values[i]);
  }

  lemma SubFound(s: bytes, at: nat, part: bytes, from: nat, to: nat)
    requires FoundAt(s, at, part) && from <= to <= |part|
    ensures at + to <= |s| && s[at + from..at + to] == part[from..to]
  {
    SliceOfSlice(s, at, at + |part|, from, to);
  }

  lemma ChecksumTableFacts(s: bytes, chunk: nat, policy: ChecksumPolicy)
    requires chunk > 0
    ensures |ChecksumTable(s, chunk, policy)| == ChunkCount(|s|, chunk)
    ensures forall c | 0 <= c < |ChecksumTable(s, chunk, policy)| :: ChecksumTable(s, chunk, policy)[c] <= U32_MAX
  {
    ChunkChecksumsLength(s, chunk);
    forall c | 0 <= c < |ChecksumTable(s, chunk, policy)|
      ensures ChecksumTable(s, chunk, policy)[c] <= U32_MAX
    {
      ChunkChecksumAt(s, chunk, c);
    }
  }

  /** The sections hold the parts and their checksum tables. */
  ghost predicate SectionsHold(sections: seq<SectionFile>, parts: seq<bytes>, chunk: nat, policy: ChecksumPolicy)
    requires chunk > 0
    reads set s | s in sections :: s.file
  {
    |sections| == |parts| &&
    forall i | 0 <= i < |sections| :: HoldsSection(sections[i], parts[i], chunk, policy)
  }

  /** Sections of parts have one slot per chunk, back to back. */
  lemma SlotsOfSections(sections: seq<SectionFile>, parts: seq<bytes>, chunk: nat, policy: ChecksumPolicy, i: nat)
    requires chunk > 0 && SectionsHold(sections, parts, chunk, policy) && i <= |parts|
    ensures |AllChecksums(sections[..i])| == Slots(LengthsOf(parts)[..i], chunk)
  {
    forall k | 0 <= k < |parts|
      ensures |sections[k].checksums| == ChunkCount(sections[k].len, chunk)
    {
      ChecksumTableFacts(parts[k], chunk, policy);
    }
    AllChecksumsCount(sections[..i], chunk);
    assert SectionLens(sections[..i]) == LengthsOf(parts)[..i];
  }

  ghost predicate Represented(built: BuiltIndex, parts: seq<bytes>, policy: ChecksumPolicy)
    reads set s | s in built.sections :: s.file
  {
    && ReadyToWrite(built, parts)
    && SectionsHold(built.sections, parts, built.layout.chunkBytes, policy)
    && Encodes(built.header, built.layout) && HeaderChecksumOk(built.header, policy)
  }

  lemma TableIsWritten(built: BuiltIndex, parts: seq<bytes>, policy: ChecksumPolicy, i: nat)
    requires Represented(built, parts, policy) && i < SECTION_COUNT
    ensures SlotsHold(Artifact(built.header, AllChecksums(built.sections), parts), built.layout.sections[i].checksumStart,
                      ChecksumTable(parts[i], built.layout.chunkBytes, policy))
  {
    var all := AllChecksums(built.sections);
    FoundInMiddle(built.header, LeTable(4, all), Padded(HEADER_BYTES + 4 * |all|, parts));
    SlotsFollow(built.sections, parts, built.layout, policy, i);
    LeTableTabulates(4, all);
    EntriesHeld(Artifact(built.header, all, parts), LeTable(4, all), all, built.layout.sections[i].checksumStart,
                ChecksumTable(parts[i], built.layout.chunkBytes, policy));
  }

  /** Section `i`'s checksums start where the layout says. */
  lemma SlotsFollow(sections: seq<SectionFile>, parts: seq<bytes>, h: IndexHeader, policy: ChecksumPolicy, i: nat)
    requires LaidOut(h) && |parts| == SECTION_COUNT && LensOf(h.sections) == LengthsOf(parts) && i < SECTION_COUNT
    requires SectionsHold(sections, parts, h.chunkBytes, policy)
    ensures var all, table, start := AllChecksums(sections), ChecksumTable(parts[i], h.chunkBytes, policy), h.sections[i].checksumStart;
            && start + |table| <= |all| && all[start..start + |table|] == table
            && forall c | 0 <= c < |table| :: table[c] <= U32_MAX
  {
    LayAt(TableEnd(h.checksumCount), 0, LensOf(h.sections), h.chunkBytes, i);
    SlotsOfSections(sections, parts, h.chunkBytes, policy, i);
    AllChecksumsAt(sections, i);
    ChecksumTableFacts(parts[i], h.chunkBytes, policy);
  }

  lemma EntriesHeld(file: bytes, slots: bytes, all: seq<nat>, start: nat, table: seq<nat>)
    requires FoundAt(file, HEADER_BYTES, slots) && Tabulates(slots, 4, all) && |slots| == 4 * |all|
    requires start + |table| <= |all| && all[start..start + |table|] == table
    requires forall c | 0 <= c < |table| :: table[c] <= U32_MAX
    ensures SlotsHold(file, start, table)
  {
    Ranges();
    forall c | 0 <= c < |table|
      ensures Field(file, HEADER_BYTES + 4 * (start + c), 4) == table[c]
    {
      assert all[start + c] == table[c];
      EntryFound(file, HEADER_BYTES, slots, 4, all, start + c, 4 * (start + c));
    }
  }

  /** What the writer writes for sections with their tables is an index file of those sections. */
  lemma WrittenIsIndexFile(built: BuiltIndex, parts: seq<bytes>, policy: ChecksumPolicy)
    requires Represented(built, parts, policy)
    ensures IsIndexFile(Artifact(built.header, AllChecksums(built.sections), parts), built.layout, parts, policy)
  {
    ArtifactLength(built, parts);
    HeaderIsWritten(built, parts, policy);
    forall i | 0 <= i < SECTION_COUNT
      ensures HasSection(Artifact(built.header, AllChecksums(built.sections), parts), built.layout.sections[i], parts[i],
                         built.layout.chunkBytes, policy)
    {
      SectionIsWritten(built, parts, policy, i);
    }
  }

  lemma HeaderIsWritten(built: BuiltIndex, parts: seq<bytes>, policy: ChecksumPolicy)
    requires Represented(built, parts, policy)
    ensures StartsWithHeader(Artifact(built.header, AllChecksums(built.sections), parts), built.layout, policy)
  {
    var all := AllChecksums(built.sections);
    HeaderIsFirst(Artifact(built.header, all, parts), built.header, LeTable(4, all),
                  Padded(|built.header| + 4 * |all|, parts), built.layout, policy);
  }

  lemma SectionIsWritten(built: BuiltIndex, parts: seq<bytes>, policy: ChecksumPolicy, i: nat)
    requires Represented(built, parts, policy) && i < SECTION_COUNT
    ensures HasSection(Artifact(built.header, AllChecksums(built.sections), parts), built.layout.sections[i], parts[i],
                       built.layout.chunkBytes, policy)
  {
    PartIsWritten(built, parts, i);
    TableIsWritten(built, parts, policy, i);
  }

  lemma PartIsWritten(built: BuiltIndex, parts: seq<bytes>, i: nat)
    requires ReadyToWrite(built, parts) && i < SECTION_COUNT
    ensures FoundAt(Artifact(built.header, AllChecksums(built.sections), parts), built.layout.sections[i].offset, parts[i])
  {
    var head := built.header + LeTable(4, AllChecksums(built.sections));
    var start := TableEnd(built.layout.checksumCount);
    assert |head| == start;
    PaddedAt(Artifact(built.header, AllChecksums(built.sections), parts), head, parts, i);
    OffsetsOfLayout(built.layout, i);
  }

  lemma HeaderIsFirst(file: bytes, header: bytes, table: bytes, rest: bytes, h: IndexHeader, policy: ChecksumPolicy)
    requires file == header + table + rest
    requires |header| == HEADER_BYTES && Encodes(header, h) && HeaderChecksumOk(header, policy)
    ensures StartsWithHeader(file, h, policy)
  {
    Associative(header, table, rest);
    assert file[..HEADER_BYTES] == header;
  }

  // ----- reading it back -----

  /** `v` is an index file of `parts`, opened. */
  ghost predicate Opened(v: View, parts: seq<bytes>) {
    v.Valid() && IsIndexFile(v.source, v.header, parts, v.policy)
  }

  /** Section `k` of the file is `part`, and so are its checksum slots. */
  ghost predicate Stores(v: View, k: nat, part: bytes) {
    && v.Valid() && k < SECTION_COUNT
    && v.SectionBytes(k) == part
    && SlotsHold(v.source, v.Section(k).checksumStart, ChecksumTable(part, v.header.chunkBytes, v.policy))
  }

  /** Section `k` reads back as `part`: none of its chunks fails. */
  ghost predicate ReadsBack(v: View, k: nat, part: bytes) {
    && v.Valid() && k < SECTION_COUNT
    && v.SectionBytes(k) == part
    && forall chunk: nat | chunk < v.Section(k).checksumCount :: v.VerifiedChunk(k, chunk).Ok?
  }

  lemma SectionIsStored(v: View, parts: seq<bytes>, k: nat)
    requires Opened(v, parts) && k < SECTION_COUNT
    ensures Stores(v, k, parts[k])
  {
    assert LensOf(v.header.sections)[k] == LengthsOf(parts)[k];
    FoundIsStored(v, k, parts[k]);
  }

  lemma FoundIsStored(v: View, k: nat, part: bytes)
    requires v.Valid() && k < SECTION_COUNT && v.header.sections[k].len == |part|
    requires HasSection(v.source, v.header.sections[k], part, v.header.chunkBytes, v.policy)
    ensures Stores(v, k, part)
  {
  }

  /** The slot of a chunk holds its checksum. */
  lemma SlotOfChunk(v: View, k: nat, part: bytes, chunk: nat)
    requires Stores(v, k, part) && chunk < v.Section(k).checksumCount && v.policy == Verify
    ensures chunk < |ChunkChecksums(part, v.header.chunkBytes)|
    ensures v.Section(k).checksumStart + chunk < v.header.checksumCount
    ensures v.Slot(v.Section(k).checksumStart + chunk) == ChunkChecksums(part, v.header.chunkBytes)[chunk]
  {
    ChunkChecksumsLength(part, v.header.chunkBytes);
  }

  lemma ChunkVerifies(v: View, k: nat, part: bytes, chunk: nat)
    requires Stores(v, k, part) && chunk < v.Section(k).checksumCount
    ensures v.VerifiedChunk(k, chunk).Ok?
  {
    if v.policy == Verify {
      SlotOfChunk(v, k, part, chunk);
      v.ChunkBytesAreChunk(k, chunk);
      ChunkChecksumAt(part, v.header.chunkBytes, chunk);
      v.MatchingChunkVerifies(k, chunk);
    }
  }

  lemma StoredReadsBack(v: View, parts: seq<bytes>, k: nat)
    requires Opened(v, parts) && k < SECTION_COUNT
    ensures ReadsBack(v, k, parts[k])
  {
    SectionIsStored(v, parts, k);
    forall chunk: nat | chunk < v.Section(k).checksumCount
      ensures v.VerifiedChunk(k, chunk).Ok?
    {
      ChunkVerifies(v, k, parts[k], chunk);
    }
  }

  lemma {:induction false} NoChunkFails(v: View, k: nat, part: bytes, first: nat, last: nat)
    requires ReadsBack(v, k, part) && last <= v.Section(k).checksumCount
    ensures v.FirstFailure(k, first, last) == None
    decreases last - first
  {
    if first < last {
      NoChunkFails(v, k, part, first + 1, last);
    }
  }

  /** Any part of a section reads back. */
  lemma PartReadsBack(v: View, k: nat, part: bytes, offset: nat, len: nat)
    requires ReadsBack(v, k, part) && offset + len <= |part|
    ensures v.Read(k, offset, len) == Ok(part[offset..offset + len])
  {
    if len > 0 {
      ChunkOfPosition(offset + len - 1, |part|, v.header.chunkBytes);
      NoChunkFails(v, k, part, v.ChunkOf(offset), v.ChunkOf(offset + len - 1) + 1);
    } else {
      assert part[offset..offset] == [];
    }
  }

  /** A table entry reads back as its value. */
  lemma EntryReadsBack(v: View, k: nat, width: nat, values: seq<nat>, i: nat, from: nat)
    requires ReadsBack(v, k, LeTable(width, values))
    requires i < |values| && values[i] < Range(width) && from == width * i
    ensures v.ReadUnsigned(k, from, width) == Ok(values[i])
  {
    LeTableAt(width, values, i, from);
    PartReadsBack(v, k, LeTable(width, values), from, width);
    LeRoundTrip(width, values[i]);
  }

  /** The four sections read back, and the header counts the rows and the text bytes. */
  ghost predicate Serves(v: View, texts: seq<bytes>, digests: seq<nat>) {
    && ReadsBack(v, TEXT, Concat(texts))
    && ReadsBack(v, BOUNDS, LeTable(8, TextBounds(texts)))
    && ReadsBack(v, RAW, LeTable(4, digests))
    && ReadsBack(v, ORDER, LeTable(4, OrderOf(texts)))
    && v.Rows() == |texts| && v.header.normalizedTextLen == |Concat(texts)|
  }

  /** Rows an index can hold and its reader accept. */
  ghost predicate Storable(texts: seq<bytes>, digests: seq<nat>, maxRowBytes: nat) {
    && |digests| == |texts| <= U32_MAX && |Concat(texts)| <= U64_MAX
    && (forall i | 0 <= i < |texts| :: |texts[i]| <= maxRowBytes && IsUtf8(texts[i]))
    && forall i | 0 <= i < |digests| :: digests[i] <= U32_MAX
  }

  lemma BoundReadsBack(v: View, texts: seq<bytes>, digests: seq<nat>, i: nat)
    requires Serves(v, texts, digests) && |Concat(texts)| <= U64_MAX && i <= |texts|
    ensures v.Bound(i) == Ok(|Concat(texts[..i])|) && |Concat(texts[..i])| <= |Concat(texts)|
  {
    Ranges();
    SplitAt(texts, i);
    ConcatSplit(texts[..i], texts[i..]);
    EntryReadsBack(v, BOUNDS, 8, TextBounds(texts), i, 8 * i);
  }

  /** A row reads back as its text exactly when it keeps the reader's row limit; so the limit in `Storable` is exact. */
  lemma RowReadsBack(v: View, texts: seq<bytes>, digests: seq<nat>, i: nat)
    requires Serves(v, texts, digests) && |Concat(texts)| <= U64_MAX && i < |texts| && IsUtf8(texts[i])
    ensures v.RowText(i) == if |texts[i]| <= v.maxRowBytes then Ok(texts[i]) else Err(LimitExceeded(RowBytes))
  {
    BoundReadsBack(v, texts, digests, i);
    BoundReadsBack(v, texts, digests, i + 1);
    TextReadsBack(v, texts, digests, i);
    if |texts[i]| <= v.maxRowBytes {
      v.RowTextIs(i, |Concat(texts[..i])|, |Concat(texts[..i + 1])|, texts[i]);
    }
  }

  lemma TextReadsBack(v: View, texts: seq<bytes>, digests: seq<nat>, i: nat)
    requires Serves(v, texts, digests) && i < |texts|
    ensures |Concat(texts[..i])| + |texts[i]| == |Concat(texts[..i + 1])|
    ensures v.Read(TEXT, |Concat(texts[..i])|, |texts[i]|) == Ok(texts[i])
  {
    ConcatAt(texts, i);
    PartReadsBack(v, TEXT, Concat(texts), |Concat(texts[..i])|, |texts[i]|);
  }

  lemma ServingRepresents(v: View, texts: seq<bytes>, digests: seq<nat>)
    requires Serves(v, texts, digests) && Storable(texts, digests, v.maxRowBytes)
    ensures v.Represents(texts, digests)
  {
    var order := OrderOf(texts);
    Ranges();
    OrderOfIsOrder(texts);
    forall i | 0 <= i < |texts|
      ensures v.RowText(i) == Ok(texts[i]) && v.Digest(i) == Ok(digests[i]) && v.Order(i) == Ok(order[i])
    {
      RowReadsBack(v, texts, digests, i);
      EntryReadsBack(v, RAW, 4, digests, i, 4 * i);
      EntryReadsBack(v, ORDER, 4, order, i, 4 * i);
    }
  }

  lemma OpenedServes(v: View, texts: seq<bytes>, digests: seq<nat>)
    requires Opened(v, SectionsOf(texts, digests)) && v.Rows() == |texts| && v.header.normalizedTextLen == |Concat(texts)|
    ensures Serves(v, texts, digests)
  {
    var parts := SectionsOf(texts, digests);
    StoredReadsBack(v, parts, TEXT);
    StoredReadsBack(v, parts, BOUNDS);
    StoredReadsBack(v, parts, RAW);
    StoredReadsBack(v, parts, ORDER);
  }

  /** An opened index file of these rows answers every read as the rows demand. */
  lemma IndexFileRepresents(v: View, texts: seq<bytes>, digests: seq<nat>)
    requires Opened(v, SectionsOf(texts, digests)) && v.Rows() == |texts| && v.header.normalizedTextLen == |Concat(texts)|
    requires Storable(texts, digests, v.maxRowBytes)
    ensures v.Represents(texts, digests)
  {
    OpenedServes(v, texts, digests);
    ServingRepresents(v, texts, digests);
  }
}
