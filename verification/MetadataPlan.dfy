/** The early metadata ceiling of the index builder (src/core/persistent/build.rs, `build_metadata_plan`). */
module MetadataPlan {
  import opened Adler
  import opened Arithmetic
  import opened Bytes
  import opened IndexLayout
  import opened IndexOptions
  import opened Wrappers

  datatype BuildMetadataPlan = BuildMetadataPlan(fixedChecksumCount: nat, maximumTextBytes: nat, limit: nat)

  /** Reserves the checksum slots of the sections whose lengths are known and leaves the rest to the text. */
  function PlanMetadata(rows: nat, options: KeyIndexOptions): Result<BuildMetadataPlan>
    requires ValidOptions(options)
  {
    if 8 * (rows + 1) > U64_MAX then Err(InvalidFormat)
    else
      var boundsCount := ChunkCountChecked(8 * (rows + 1), options.chunkBytes);
      var ordinalCount := ChunkCountChecked(4 * rows, options.chunkBytes);
      if boundsCount.Err? then Err(boundsCount.error)
      else if ordinalCount.Err? then Err(ordinalCount.error)
      else if 2 * ordinalCount.value + boundsCount.value > U64_MAX then Err(InvalidFormat)
      else
        var fixedCount := 2 * ordinalCount.value + boundsCount.value;
        if options.maxMetadataBytes < HEADER_BYTES then Err(LimitExceeded(MetadataBytes))
        else
          var slots := (options.maxMetadataBytes - HEADER_BYTES) / 4;
          if fixedCount > slots then Err(LimitExceeded(MetadataBytes))
          else
            var product := (slots - fixedCount) * options.chunkBytes;
            Ok(BuildMetadataPlan(fixedCount, if product <= U64_MAX then product else U64_MAX, options.maxMetadataBytes))
  }

  /** The section lengths of an index with this many rows and text bytes. */
  function SectionLengths(rows: nat, textLen: nat): seq<nat> {
    [textLen, 8 * (rows + 1), 4 * rows, 4 * rows]
  }

  /** Whether the finished header and checksum table keep the metadata ceiling. */
  predicate MetadataFits(rows: nat, textLen: nat, options: KeyIndexOptions)
    requires ValidOptions(options)
  {
    TableEnd(Slots(SectionLengths(rows, textLen), options.chunkBytes)) <= options.maxMetadataBytes
  }

  lemma SlotsOfFour(rows: nat, textLen: nat, chunk: nat)
    requires chunk > 0
    ensures Slots(SectionLengths(rows, textLen), chunk) ==
            ChunkCount(textLen, chunk) + ChunkCount(8 * (rows + 1), chunk) + 2 * ChunkCount(4 * rows, chunk)
  {
    var two: seq<nat> := [4 * rows, 4 * rows];
    var three := [8 * (rows + 1)] + two;
    assert two[1..] == [4 * rows] && two[1..][1..] == [];
    assert Slots(two[1..], chunk) == ChunkCount(4 * rows, chunk) + Slots(two[1..][1..], chunk);
    assert Slots(two, chunk) == ChunkCount(4 * rows, chunk) + Slots(two[1..], chunk);
    assert three[1..] == two && Slots(three, chunk) == ChunkCount(8 * (rows + 1), chunk) + Slots(two, chunk);
    assert SectionLengths(rows, textLen)[1..] == three;
  }

  /** `len` bytes take at most `count` chunks exactly when they fit into so many. */
  lemma ChunksFit(len: nat, chunk: nat, count: nat)
    requires chunk > 0
    ensures ChunkCount(len, chunk) <= count <==> len <= count * chunk
  {
    ChunkCountIsCeiling(len, chunk);
    var q := (len + chunk - 1) / chunk;
    QuotientBounds(len + chunk - 1, chunk);
    if q <= count {
      MulIsMonotone(q, count, chunk);
      assert (q + 1) * chunk == q * chunk + chunk;
    } else {
      MulIsMonotone(count + 1, q, chunk);
      assert (count + 1) * chunk == count * chunk + chunk;
    }
  }

  /** The fixed part of the plan is the slots of the three sections whose length is known. */
  lemma PlanCountsFixedSlots(rows: nat, options: KeyIndexOptions)
    requires ValidOptions(options) && rows <= U32_MAX
    ensures PlanMetadata(rows, options).Ok? <==>
            HEADER_BYTES + 4 * (2 * ChunkCount(4 * rows, options.chunkBytes) + ChunkCount(8 * (rows + 1), options.chunkBytes))
            <= options.maxMetadataBytes
    ensures PlanMetadata(rows, options).Ok? ==>
              PlanMetadata(rows, options).value.fixedChecksumCount ==
              2 * ChunkCount(4 * rows, options.chunkBytes) + ChunkCount(8 * (rows + 1), options.chunkBytes)
  {
    ChunkCountCheckedIs(8 * (rows + 1), options.chunkBytes);
    ChunkCountCheckedIs(4 * rows, options.chunkBytes);
    ChunksFit(8 * (rows + 1), options.chunkBytes, 8 * (rows + 1));
    ChunksFit(4 * rows, options.chunkBytes, 4 * rows);
    MulIsMonotone(1, options.chunkBytes, 8 * (rows + 1));
    MulIsMonotone(1, options.chunkBytes, 4 * rows);
  }

  /**
   * The plan is exact: the text may grow to `maximumTextBytes` and no further, precisely because one byte more
   * would break the ceiling of the finished index; that holds where the product saturates as well.
   */
  lemma PlanIsExact(rows: nat, textLen: nat, options: KeyIndexOptions)
    requires ValidOptions(options) && rows <= U32_MAX && textLen <= U64_MAX
    ensures PlanMetadata(rows, options).Ok? <==> MetadataFits(rows, 0, options)
    ensures PlanMetadata(rows, options).Ok? ==>
              (textLen <= PlanMetadata(rows, options).value.maximumTextBytes <==> MetadataFits(rows, textLen, options))
  {
    var chunk := options.chunkBytes;
    PlanCountsFixedSlots(rows, options);
    SlotsOfFour(rows, 0, chunk);
    SlotsOfFour(rows, textLen, chunk);
    var plan := PlanMetadata(rows, options);
    if plan.Ok? {
      var left := (options.maxMetadataBytes - HEADER_BYTES) / 4 - plan.value.fixedChecksumCount;
      ChunksFit(textLen, chunk, left);
    }
  }

  /** A text that fits leaves room for every shorter one. */
  lemma MetadataFitsShorter(rows: nat, shorter: nat, longer: nat, options: KeyIndexOptions)
    requires ValidOptions(options) && rows <= U32_MAX && shorter <= longer <= U64_MAX && MetadataFits(rows, longer, options)
    ensures MetadataFits(rows, shorter, options)
  {
    var chunk := options.chunkBytes;
    SlotsOfFour(rows, shorter, chunk);
    SlotsOfFour(rows, longer, chunk);
    ChunksFit(longer, chunk, ChunkCount(longer, chunk));
    ChunksFit(shorter, chunk, ChunkCount(longer, chunk));
  }
}
