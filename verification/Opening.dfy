/**
 * From accepted metadata to a dictionary the lookup layer can rely on: the totals checks behind the keyword index
 * (src/format/v1/keyword.rs, src/format/v2/keyword.rs) and the backstop of every open (src/format/common/descriptors.rs).
 */
module Opening {
  import opened Bytes
  import opened Dictionary
  import opened KeyRows
  import opened KeywordIndex
  import opened LookupSpec
  import opened Sequences
  import opened Wrappers

  /** Key blocks as the lookup layer sees them. */
  function BlocksOf(descriptors: seq<BlockDescriptor>): (blocks: seq<KeyBlock>)
    ensures |blocks| == |descriptors|
  {
    seq(|descriptors|, i requires 0 <= i < |descriptors| =>
      KeyBlock(descriptors[i].entryStartIndex, descriptors[i].entryCount))
  }

  lemma {:induction false} DescriptorsCover(entries: seq<IndexEntry>, start: nat, offset: nat)
    requires forall i | 0 <= i < |entries| :: entries[i].entryCount > 0
    ensures Covers(BlocksOf(DescriptorsOf(entries, start, offset)), start, start + TotalEntries(entries))
    decreases |entries|
  {
    if entries != [] {
      var e := entries[0];
      DescriptorsCover(entries[1..], start + e.entryCount, offset + e.compSize);
      assert BlocksOf(DescriptorsOf(entries, start, offset))[1..] ==
             BlocksOf(DescriptorsOf(entries[1..], start + e.entryCount, offset + e.compSize));
    }
  }

  // ----- totals -----

  /** The sections' totals: the header's entry count, and the length of all compressed blocks, which lie in the file. */
  ghost predicate Reconciles(entries: seq<IndexEntry>, offset: nat, numEntries: nat, keyBlocksLen: nat, sourceLen: nat) {
    && TotalEntries(entries) == numEntries && TotalCompressed(entries) == keyBlocksLen
    && (entries != [] ==> offset + keyBlocksLen <= sourceLen)
  }

  /** Sums the block lengths; entries of an accepted index never overflow. */
  method SumCompressed(blocks: seq<BlockDescriptor>, ghost entries: seq<IndexEntry>, ghost offset: nat) returns (r: Result<nat>)
    requires blocks == DescriptorsOf(entries, 0, offset) && offset + TotalCompressed(entries) <= U64_MAX
    ensures r == Ok(TotalCompressed(entries))
  {
    var sum := 0;
    Whole(entries);
    for i := 0 to |blocks|
      invariant sum == TotalCompressed(entries[..i])
    {
      DescriptorAt(entries, 0, offset, i);
      PrefixGrows(entries, i);
      TotalsAppend(entries[..i], entries[i]);
      TotalsGrow(entries, i + 1);
      if sum + blocks[i].compSize > U64_MAX {
        return Err(InvalidFormat);
      }
      sum := sum + blocks[i].compSize;
    }
    return Ok(sum);
  }

  lemma {:induction false} DescriptorAt(entries: seq<IndexEntry>, start: nat, offset: nat, i: nat)
    requires i < |entries|
    ensures var d := DescriptorsOf(entries, start, offset)[i];
            && d.compSize == entries[i].compSize && d.entryCount == entries[i].entryCount
            && d.compOffset == offset + TotalCompressed(entries[..i])
            && d.entryStartIndex == start + TotalEntries(entries[..i])
    decreases i
  {
    if i > 0 {
      DescriptorAt(entries[1..], start + entries[0].entryCount, offset + entries[0].compSize, i - 1);
      assert entries[..i][1..] == entries[1..][..i - 1];
    }
  }

  /** Every block lies inside the file exactly when the last one does. */
  method BlocksInRange(blocks: seq<BlockDescriptor>, sourceLen: nat, ghost entries: seq<IndexEntry>, ghost offset: nat)
    returns (r: Result<()>)
    requires blocks == DescriptorsOf(entries, 0, offset) && offset + TotalCompressed(entries) <= U64_MAX
    ensures r.Ok? <==> (entries != [] ==> offset + TotalCompressed(entries) <= sourceLen)
  {
    Whole(entries);
    for i := 0 to |blocks|
      invariant i > 0 ==> offset + TotalCompressed(entries[..i]) <= sourceLen
    {
      DescriptorAt(entries, 0, offset, i);
      PrefixGrows(entries, i);
      TotalsAppend(entries[..i], entries[i]);
      TotalsGrow(entries, i + 1);
      if blocks[i].compOffset + blocks[i].compSize > sourceLen {
        return Err(InvalidData);
      }
    }
    return Ok(());
  }

  /**
   * The key blocks a keyword section describes. It accepts exactly the indexes that are entries written out and whose
   * totals are the declared ones.
   */
  method ParseKeyBlocks(layout: Layout, s: bytes, numBlocks: nat, offset: nat, numEntries: nat, keyBlocksLen: nat, sourceLen: nat)
    returns (r: Result<seq<BlockDescriptor>>)
    requires layout.Valid() && offset <= U64_MAX
    ensures r.Ok? ==>
              exists entries :: IsIndexOf(layout, s, entries, numBlocks, offset) &&
                                Reconciles(entries, offset, numEntries, keyBlocksLen, sourceLen) &&
                                r.value == DescriptorsOf(entries, 0, offset)
    ensures forall entries | IsIndexOf(layout, s, entries, numBlocks, offset) &&
                             Reconciles(entries, offset, numEntries, keyBlocksLen, sourceLen) ::
              r == Ok(DescriptorsOf(entries, 0, offset))
  {
    var blocks :- ParseKeywordIndexEntries(layout, s, numBlocks, offset);
    ghost var entries :| IsIndexOf(layout, s, entries, numBlocks, offset) && blocks == DescriptorsOf(entries, 0, offset);
    OnlyOneIndex(layout, s, entries, numBlocks, offset);
    if blocks != [] {
      DescriptorsAreContiguous(entries, 0, offset, |entries| - 1);
    }
    var totalEntries := if blocks == [] then 0 else
      var last := blocks[|blocks| - 1]; last.entryStartIndex + last.entryCount;
    if totalEntries > U64_MAX {
      return Err(InvalidFormat);
    }
    if totalEntries != numEntries {
      return Err(InvalidData);
    }
    var totalComp := SumCompressed(blocks, entries, offset);
    if totalComp.value != keyBlocksLen {
      return Err(InvalidData);
    }
    var inRange :- BlocksInRange(blocks, sourceLen, entries, offset);
    return Ok(blocks);
  }

  // ----- the backstop -----

  /** Blocks follow each other from `start` to `total`; unlike `Covers`, empty blocks are let through. */
  predicate Chained(blocks: seq<KeyBlock>, start: nat, total: nat) {
    if blocks == [] then start == total
    else
      var end := blocks[0].entryStartIndex + blocks[0].entryCount;
      blocks[0].entryStartIndex == start && end <= U64_MAX && Chained(blocks[1..], end, total)
  }

  /** The check of every open. */
  method VerifyKeyBlocks(blocks: seq<KeyBlock>, totalEntries: nat) returns (r: Result<()>)
    ensures r.Ok? <==> Chained(blocks, 0, totalEntries)
  {
    var expectedStart: nat := 0;
    for i := 0 to |blocks|
      invariant Chained(blocks, 0, totalEntries) <==> Chained(blocks[i..], expectedStart, totalEntries)
    {
      SuffixShrinks(blocks, i);
      if blocks[i].entryStartIndex != expectedStart {
        return Err(InvalidData);
      }
      if blocks[i].entryStartIndex + blocks[i].entryCount > U64_MAX {
        return Err(InvalidFormat);
      }
      expectedStart := blocks[i].entryStartIndex + blocks[i].entryCount;
    }
    if expectedStart != totalEntries {
      return Err(InvalidData);
    }
    return Ok(());
  }

  /** With the blocks the keyword index lets through, the backstop never fails, and what it passes covers all ordinals. */
  lemma {:induction false} ChainedCovers(blocks: seq<KeyBlock>, start: nat, total: nat)
    requires (forall i | 0 <= i < |blocks| :: blocks[i].entryCount > 0) && total <= U64_MAX
    ensures Chained(blocks, start, total) <==> Covers(blocks, start, total)
  {
    if blocks != [] {
      ChainedCovers(blocks[1..], start + blocks[0].entryCount, total);
      if Covers(blocks, start, total) {
        CoversEnds(blocks[1..], start + blocks[0].entryCount, total);
      }
    }
  }

  // ----- the dictionary -----

  /** Decoded rows: the raw ones with their keys as text. */
  function RowsOf(raw: seq<RawRow>, text: bytes -> string): (rows: seq<Row>)
    ensures |rows| == |raw|
    ensures forall i | 0 <= i < |raw| :: rows[i] == Row(raw[i].recordStart, text(raw[i].key))
  {
    seq(|raw|, i requires 0 <= i < |raw| => Row(raw[i].recordStart, text(raw[i].key)))
  }

  /** The boundary keys normalize as the summaries in the index do; any other block is refused. */
  ghost predicate SummariesMatch(m: Matcher, d: BlockDescriptor, rows: seq<Row>, text: bytes -> string) {
    && rows != []
    && m.Bytes(rows[0].key) == m.Bytes(text(d.first))
    && m.Bytes(rows[|rows| - 1].key) == m.Bytes(text(d.last))
  }

  /** How the rows of block `b` are read: by its own declared entry count and the length of the record stream. */
  function FormatOf(dict: Dictionary, b: nat, width: nat, unit: nat, isText: bytes -> bool): RowFormat
    requires b < |dict.keyBlocks|
  {
    RowFormat(width, unit, dict.keyBlocks[b].entryCount, dict.totalRecordLen, isText)
  }

  /** Whatever block decoding yields was accepted as the rows of some block bytes. */
  ghost predicate DecodesRows(dict: Dictionary, width: nat, unit: nat, isText: bytes -> bool, text: bytes -> string)
    requires width in {4, 8} && unit in {1, 2}
  {
    forall b | 0 <= b < |dict.keyBlocks| && dict.decode(b).Ok? ::
      exists s, raw :: FormatOf(dict, b, width, unit, isText).IsBlockOf(s, raw) && dict.decode(b).value == RowsOf(raw, text)
  }

  /** Accepted metadata and accepted rows are all that the lookup layer relies on. */
  lemma AcceptedIsWellFormed(dict: Dictionary, layout: Layout, s: bytes, entries: seq<IndexEntry>, numBlocks: nat, offset: nat,
                             unit: nat, isText: bytes -> bool, text: bytes -> string)
    requires layout.Valid() && IsIndexOf(layout, s, entries, numBlocks, offset) && TotalEntries(entries) == dict.totalEntries
    requires dict.keyBlocks == BlocksOf(DescriptorsOf(entries, 0, offset))
    requires unit in {1, 2} && DecodesRows(dict, layout.rowWidth, unit, isText, text)
    ensures Covers(dict.keyBlocks, 0, dict.totalEntries) && dict.totalEntries <= U64_MAX
    ensures forall b | 0 <= b < |dict.keyBlocks| && dict.decode(b).Ok? :: dict.WellParsed(b, dict.decode(b).value)
  {
    assert forall i | 0 <= i < |entries| :: layout.EntryOk(entries[i]);
    DescriptorsCover(entries, 0, offset);
    forall b | 0 <= b < |dict.keyBlocks| && dict.decode(b).Ok?
      ensures dict.WellParsed(b, dict.decode(b).value)
    {
      var s, raw :| FormatOf(dict, b, layout.rowWidth, unit, isText).IsBlockOf(s, raw) && dict.decode(b).value == RowsOf(raw, text);
      assert forall i | 0 <= i < |raw| :: FormatOf(dict, b, layout.rowWidth, unit, isText).RowOk(raw[i]);
    }
  }
}
