/**
 * The keyword index, which describes the key blocks (src/format/v1/keyword.rs, src/format/v2/keyword.rs). Version 2
 * comes in two layouts, with and without terminated summaries; version 1 has narrower fields.
 */
module KeywordIndex {
  import opened Bytes
  import opened KeyRows
  import opened Sequences
  import opened Wrappers

  /** One block as the index writes it; the summaries' texts are left as bytes. */
  datatype IndexEntry = IndexEntry(entryCount: nat, first: bytes, last: bytes, compSize: nat, decompSize: nat)

  /** One block as the rest of the library sees it. */
  datatype BlockDescriptor = BlockDescriptor(
    entryCount: nat,
    entryStartIndex: nat,
    first: bytes,
    last: bytes,
    compOffset: nat,
    compSize: nat,
    decompSize: nat)

  datatype Limits = Limits(keyBlockEntries: nat, compressedBlockBytes: nat, decompressedBlockBytes: nat)

  /** Field widths of a layout: counts and sizes, summary lengths, and the record offsets of the rows it describes. */
  datatype Layout = Layout(
    fieldWidth: nat,
    lengthWidth: nat,
    terminated: bool,
    unit: nat,
    rowWidth: nat,
    limits: Limits,
    isText: bytes -> bool)
  {
    predicate Valid() {
      fieldWidth in {4, 8} && lengthWidth in {1, 2} && unit in {1, 2} && rowWidth in {4, 8}
    }

    function End(): bytes
      requires Valid()
    {
      if terminated then Terminator(unit) else []
    }

    /** A summary: its length in units, its bytes, and perhaps a terminator. */
    function PrintSummary(text: bytes): bytes
      requires Valid()
    {
      Be(lengthWidth, |text| / unit) + text + End()
    }

    function Print(e: IndexEntry): bytes
      requires Valid()
    {
      Be(fieldWidth, e.entryCount) + (PrintSummary(e.first) + (PrintSummary(e.last) +
      (Be(fieldWidth, e.compSize) + Be(fieldWidth, e.decompSize))))
    }

    function PrintAll(entries: seq<IndexEntry>): bytes
      requires Valid()
    {
      if entries == [] then [] else Print(entries[0]) + PrintAll(entries[1..])
    }

    predicate SummaryOk(text: bytes)
      requires Valid()
    {
      |text| % unit == 0 && |text| / unit < Range(lengthWidth) && isText(text)
    }

    /** What is demanded of a block's sizes: a block must be able to hold its entries. */
    predicate SizesOk(entryCount: nat, compSize: nat, decompSize: nat) {
      && 0 < entryCount <= limits.keyBlockEntries
      && 8 <= compSize <= limits.compressedBlockBytes
      && decompSize <= limits.decompressedBlockBytes
      && entryCount * (rowWidth + unit) <= decompSize
    }

    predicate EntryOk(e: IndexEntry)
      requires Valid()
    {
      && e.entryCount < Range(fieldWidth) && e.compSize < Range(fieldWidth) && e.decompSize < Range(fieldWidth)
      && SummaryOk(e.first) && SummaryOk(e.last)
      && SizesOk(e.entryCount, e.compSize, e.decompSize)
    }

    function MinimumEntryBytes(): nat {
      3 * fieldWidth + 2 * lengthWidth + if terminated then 2 * unit else 0
    }

    lemma {:induction false} EntriesNeedRoom(entries: seq<IndexEntry>)
      requires Valid()
      ensures |entries| * MinimumEntryBytes() <= |PrintAll(entries)|
    {
      if entries != [] {
        EntriesNeedRoom(entries[1..]);
        assert |entries| * MinimumEntryBytes() == MinimumEntryBytes() + (|entries| - 1) * MinimumEntryBytes();
      }
    }

    lemma {:induction false} PrintAppend(entries: seq<IndexEntry>, e: IndexEntry)
      requires Valid()
      ensures PrintAll(entries + [e]) == PrintAll(entries) + Print(e)
    {
      if entries == [] {
        NilConcat([e]);
        assert [e][1..] == [];
        assert PrintAll([e]) == Print(e) + PrintAll([]);
      } else {
        PrintAppend(entries[1..], e);
        TailOfConcat(entries, [e]);
        Associative(Print(entries[0]), PrintAll(entries[1..]), Print(e));
      }
    }
  }

  // ----- descriptors -----

  /** Starts and offsets are running sums. */
  function DescriptorsOf(entries: seq<IndexEntry>, start: nat, offset: nat): (descriptors: seq<BlockDescriptor>)
    ensures |descriptors| == |entries|
    decreases |entries|
  {
    if entries == [] then []
    else
      var e := entries[0];
      [BlockDescriptor(e.entryCount, start, e.first, e.last, offset, e.compSize, e.decompSize)]
      + DescriptorsOf(entries[1..], start + e.entryCount, offset + e.compSize)
  }

  function TotalEntries(entries: seq<IndexEntry>): nat {
    if entries == [] then 0 else entries[0].entryCount + TotalEntries(entries[1..])
  }

  function TotalCompressed(entries: seq<IndexEntry>): nat {
    if entries == [] then 0 else entries[0].compSize + TotalCompressed(entries[1..])
  }

  lemma {:induction false} TotalsAppend(entries: seq<IndexEntry>, e: IndexEntry)
    ensures TotalEntries(entries + [e]) == TotalEntries(entries) + e.entryCount
    ensures TotalCompressed(entries + [e]) == TotalCompressed(entries) + e.compSize
  {
    if entries == [] {
      NilConcat([e]);
      assert [e][1..] == [];
    } else {
      TotalsAppend(entries[1..], e);
      TailOfConcat(entries, [e]);
    }
  }

  lemma {:induction false} DescriptorsAppend(entries: seq<IndexEntry>, e: IndexEntry, start: nat, offset: nat)
    ensures DescriptorsOf(entries + [e], start, offset) ==
            DescriptorsOf(entries, start, offset) +
            [BlockDescriptor(e.entryCount, start + TotalEntries(entries), e.first, e.last, offset + TotalCompressed(entries),
                             e.compSize, e.decompSize)]
    decreases |entries|
  {
    if entries == [] {
      NilConcat([e]);
      assert [e][1..] == [];
    } else {
      DescriptorsAppend(entries[1..], e, start + entries[0].entryCount, offset + entries[0].compSize);
      TailOfConcat(entries, [e]);
    }
  }

  lemma {:induction false} TotalsGrow(entries: seq<IndexEntry>, i: nat)
    requires i <= |entries|
    ensures TotalEntries(entries[..i]) <= TotalEntries(entries)
    ensures TotalCompressed(entries[..i]) <= TotalCompressed(entries)
    decreases |entries|
  {
    if i < |entries| {
      var front := entries[..|entries| - 1];
      assert front[..i] == entries[..i];
      TotalsGrow(front, i);
      PrefixGrows(entries, |entries| - 1);
      Whole(entries);
      TotalsAppend(front, entries[|entries| - 1]);
    } else {
      Whole(entries);
    }
  }

  /** Running sums have no gaps: each block starts where its predecessor ends. */
  lemma {:induction false} DescriptorsAreContiguous(entries: seq<IndexEntry>, start: nat, offset: nat, i: nat)
    requires i < |entries|
    ensures var d := DescriptorsOf(entries, start, offset);
            && d[0].entryStartIndex == start && d[0].compOffset == offset
            && (i + 1 < |entries| ==>
                  && d[i + 1].entryStartIndex == d[i].entryStartIndex + d[i].entryCount
                  && d[i + 1].compOffset == d[i].compOffset + d[i].compSize)
            && (i + 1 == |entries| ==>
                  && d[i].entryStartIndex + d[i].entryCount == start + TotalEntries(entries)
                  && d[i].compOffset + d[i].compSize == offset + TotalCompressed(entries))
    decreases i
  {
    var e := entries[0];
    var rest := entries[1..];
    if i > 0 {
      DescriptorsAreContiguous(rest, start + e.entryCount, offset + e.compSize, i - 1);
    } else if |entries| > 1 {
      assert DescriptorsOf(rest, start + e.entryCount, offset + e.compSize)[0].entryStartIndex == start + e.entryCount;
    } else {
      assert rest == [];
    }
  }

  /** An index that is these entries written out, and whose running sums stay inside `u64`. */
  ghost predicate IsIndexOf(layout: Layout, s: bytes, entries: seq<IndexEntry>, numBlocks: nat, offset: nat)
    requires layout.Valid()
  {
    && (forall i | 0 <= i < |entries| :: layout.EntryOk(entries[i]))
    && |entries| == numBlocks && layout.PrintAll(entries) == s
    && TotalEntries(entries) <= U64_MAX && offset + TotalCompressed(entries) <= U64_MAX
  }

  // ----- reading -----

  /** `s` starts with the summary of `text`. */
  lemma SummaryIsDetermined(layout: Layout, s: bytes, units: nat, after: bytes, text: bytes, rest: bytes)
    requires layout.Valid() && layout.SummaryOk(text) && units < Range(layout.lengthWidth)
    requires s == layout.PrintSummary(text) + rest && s == Be(layout.lengthWidth, units) + after
    ensures units * layout.unit == |text| && after == text + layout.End() + rest
  {
    var field := Be(layout.lengthWidth, |text| / layout.unit);
    Associative(field, text, layout.End());
    Associative(field, text + layout.End(), rest);
    BeRoundTrip(layout.lengthWidth, units);
    BeRoundTrip(layout.lengthWidth, |text| / layout.unit);
    assert s[..layout.lengthWidth] == Be(layout.lengthWidth, units) && s[..layout.lengthWidth] == field;
    assert s[layout.lengthWidth..] == after && s[layout.lengthWidth..] == text + layout.End() + rest;
  }

  lemma PiecesOfSummary(text: bytes, end: bytes, rest: bytes)
    ensures var s := text + end + rest;
            s[..|text|] == text && s[|text|..] == end + rest && (end + rest)[..|end|] == end && (end + rest)[|end|..] == rest
  {
    Associative(text, end, rest);
  }

  /** What is known to come next: a summary, or nothing. */
  ghost predicate SummaryComes(layout: Layout, s: bytes, next: Option<(bytes, bytes)>)
    requires layout.Valid()
  {
    next.Some? ==> layout.SummaryOk(next.value.0) && s == layout.PrintSummary(next.value.0) + next.value.1
  }

  /** Reads one summary. */
  method ReadSummary(layout: Layout, cursor: Cursor, ghost next: Option<(bytes, bytes)>) returns (r: Result<bytes>)
    requires layout.Valid() && cursor.Valid() && SummaryComes(layout, cursor.Rest(), next)
    modifies cursor
    ensures cursor.Valid()
    ensures r.Ok? ==> layout.SummaryOk(r.value) && old(cursor.Rest()) == layout.PrintSummary(r.value) + cursor.Rest()
    ensures next.Some? ==> r == Ok(next.value.0) && cursor.Rest() == next.value.1
  {
    ghost var start := cursor.Rest();
    var units :- cursor.ReadBe(layout.lengthWidth);
    if next.Some? {
      SummaryIsDetermined(layout, start, units, cursor.Rest(), next.value.0, next.value.1);
      PiecesOfSummary(next.value.0, layout.End(), next.value.1);
    }
    ghost var body := cursor.Rest();
    var text :- cursor.ReadBytes(units * layout.unit);
    UnitsDivide(units, layout.unit);
    SplitAt(body, |text|);
    if !layout.isText(text) {
      return Err(Decode);
    }
    if layout.terminated {
      ghost var tail := cursor.Rest();
      var terminator :- cursor.ReadBytes(layout.unit);
      if terminator != Terminator(layout.unit) {
        return Err(InvalidFormat);
      }
      SplitAt(tail, layout.unit);
    } else {
      NilConcat(cursor.Rest());
    }
    SummaryAssembles(Be(layout.lengthWidth, units), text, layout.End(), cursor.Rest());
    return Ok(text);
  }

  lemma UnitsDivide(units: nat, unit: nat)
    requires unit in {1, 2}
    ensures units * unit / unit == units && units * unit % unit == 0
  {
  }

  lemma SummaryAssembles(field: bytes, text: bytes, end: bytes, rest: bytes)
    ensures field + (text + (end + rest)) == field + text + end + rest
  {
    Associative(text, end, rest);
    Associative(field, text + end, rest);
    Associative(field, text, end);
  }

  lemma FieldIsDetermined(width: nat, s: bytes, n: nat, rest: bytes, m: nat, rest': bytes)
    requires n < Range(width) && m < Range(width) && s == Be(width, n) + rest && s == Be(width, m) + rest'
    ensures n == m && rest == rest'
  {
    BeRoundTrip(width, n);
    BeRoundTrip(width, m);
    assert s[..width] == Be(width, n) && s[..width] == Be(width, m);
    assert s[width..] == rest && s[width..] == rest';
  }

  /** A field is known to come next, or nothing. */
  ghost predicate FieldComes(width: nat, s: bytes, next: Option<(nat, bytes)>) {
    next.Some? ==> next.value.0 < Range(width) && s == Be(width, next.value.0) + next.value.1
  }

  method ReadField(width: nat, cursor: Cursor, ghost next: Option<(nat, bytes)>) returns (r: Result<nat>)
    requires cursor.Valid() && FieldComes(width, cursor.Rest(), next)
    modifies cursor
    ensures cursor.Valid()
    ensures r.Ok? ==> r.value < Range(width) && old(cursor.Rest()) == Be(width, r.value) + cursor.Rest()
    ensures next.Some? ==> r == Ok(next.value.0) && cursor.Rest() == next.value.1
  {
    ghost var start := cursor.Rest();
    r := cursor.ReadBe(width);
    if next.Some? {
      assert |start| == width + |next.value.1|;
      FieldIsDetermined(width, start, r.value, cursor.Rest(), next.value.0, next.value.1);
    }
  }

  /** The four fields and summaries of an entry, one behind the other. */
  function AfterCount(layout: Layout, e: IndexEntry, rest: bytes): bytes
    requires layout.Valid()
  {
    layout.PrintSummary(e.first) + AfterFirst(layout, e, rest)
  }

  function AfterFirst(layout: Layout, e: IndexEntry, rest: bytes): bytes
    requires layout.Valid()
  {
    layout.PrintSummary(e.last) + AfterLast(layout, e, rest)
  }

  function AfterLast(layout: Layout, e: IndexEntry, rest: bytes): bytes
    requires layout.Valid()
  {
    Be(layout.fieldWidth, e.compSize) + (Be(layout.fieldWidth, e.decompSize) + rest)
  }

  lemma EntryPieces(layout: Layout, e: IndexEntry, rest: bytes)
    requires layout.Valid()
    ensures layout.Print(e) + rest == Be(layout.fieldWidth, e.entryCount) + AfterCount(layout, e, rest)
  {
    var count, comp, decomp :=
      Be(layout.fieldWidth, e.entryCount), Be(layout.fieldWidth, e.compSize), Be(layout.fieldWidth, e.decompSize);
    var first, last := layout.PrintSummary(e.first), layout.PrintSummary(e.last);
    Associative(count, first + (last + (comp + decomp)), rest);
    Associative(first, last + (comp + decomp), rest);
    Associative(last, comp + decomp, rest);
    Associative(comp, decomp, rest);
  }

  /** Reads one entry and checks its sizes. */
  method ReadEntry(layout: Layout, cursor: Cursor, ghost next: Option<(IndexEntry, bytes)>) returns (r: Result<IndexEntry>)
    requires layout.Valid() && cursor.Valid()
    requires next.Some? ==> layout.EntryOk(next.value.0) && cursor.Rest() == layout.Print(next.value.0) + next.value.1
    modifies cursor
    ensures cursor.Valid()
    ensures r.Ok? ==> layout.EntryOk(r.value) && old(cursor.Rest()) == layout.Print(r.value) + cursor.Rest()
    ensures next.Some? ==> r == Ok(next.value.0) && cursor.Rest() == next.value.1
  {
    ghost var s := cursor.Rest();
    ghost var e, rest := if next.Some? then next.value.0 else IndexEntry(0, [], [], 0, 0), if next.Some? then next.value.1 else [];
    if next.Some? {
      EntryPieces(layout, e, rest);
    }
    var entryCount :- ReadField(layout.fieldWidth, cursor,
                                if next.Some? then Some((e.entryCount, AfterCount(layout, e, rest))) else None);
    var first :- ReadSummary(layout, cursor, if next.Some? then Some((e.first, AfterFirst(layout, e, rest))) else None);
    var last :- ReadSummary(layout, cursor, if next.Some? then Some((e.last, AfterLast(layout, e, rest))) else None);
    var sizes :- ReadSizes(layout, cursor, if next.Some? then Some((e.compSize, e.decompSize, rest)) else None);
    var sizesOk := ValidateKeyBlockSizes(layout, entryCount, sizes.0, sizes.1);
    if sizesOk.Err? {
      return Err(InvalidData);
    }
    var entry := IndexEntry(entryCount, first, last, sizes.0, sizes.1);
    EntryPieces(layout, entry, cursor.Rest());
    return Ok(entry);
  }

  /** Checks the sizes of one block. */
  method ValidateKeyBlockSizes(layout: Layout, entryCount: nat, compSize: nat, decompSize: nat) returns (r: Result<()>)
    ensures r.Ok? <==> layout.SizesOk(entryCount, compSize, decompSize)
  {
    if entryCount == 0 {
      return Err(InvalidData);
    }
    if entryCount > layout.limits.keyBlockEntries || compSize > layout.limits.compressedBlockBytes
       || decompSize > layout.limits.decompressedBlockBytes {
      return Err(LimitExceeded(BlockBytes));
    }
    if compSize < 8 {
      return Err(InvalidData);
    }
    var minimumEntryBytes := layout.rowWidth + layout.unit;
    if entryCount * minimumEntryBytes > decompSize {
      return Err(InvalidData);
    }
    return Ok(());
  }

  method ReadSizes(layout: Layout, cursor: Cursor, ghost next: Option<(nat, nat, bytes)>) returns (r: Result<(nat, nat)>)
    requires layout.Valid() && cursor.Valid()
    requires next.Some? ==>
               && next.value.0 < Range(layout.fieldWidth) && next.value.1 < Range(layout.fieldWidth)
               && cursor.Rest() == Be(layout.fieldWidth, next.value.0) + (Be(layout.fieldWidth, next.value.1) + next.value.2)
    modifies cursor
    ensures cursor.Valid()
    ensures r.Ok? ==>
              && r.value.0 < Range(layout.fieldWidth) && r.value.1 < Range(layout.fieldWidth)
              && old(cursor.Rest()) == Be(layout.fieldWidth, r.value.0) + (Be(layout.fieldWidth, r.value.1) + cursor.Rest())
    ensures next.Some? ==> r == Ok((next.value.0, next.value.1)) && cursor.Rest() == next.value.2
  {
    var compSize :- ReadField(layout.fieldWidth, cursor,
                              if next.Some? then Some((next.value.0, Be(layout.fieldWidth, next.value.1) + next.value.2)) else None);
    var decompSize :- ReadField(layout.fieldWidth, cursor,
                                if next.Some? then Some((next.value.1, next.value.2)) else None);
    return Ok((compSize, decompSize));
  }

  // ----- the whole index -----

  /** What has been read, and if the index is known to be certain entries, these are the first of them. */
  ghost predicate ParsedSoFar(layout: Layout, s: bytes, entries: seq<IndexEntry>, rest: bytes, known: Option<seq<IndexEntry>>)
    requires layout.Valid()
  {
    && (forall i | 0 <= i < |entries| :: layout.EntryOk(entries[i]))
    && s == layout.PrintAll(entries) + rest
    && (known.Some? ==>
          |entries| <= |known.value| && entries == known.value[..|entries|] && rest == layout.PrintAll(known.value[|entries|..]))
  }

  lemma ParsedOneMore(layout: Layout, s: bytes, entries: seq<IndexEntry>, rest: bytes, e: IndexEntry, rest': bytes,
                      known: Option<seq<IndexEntry>>)
    requires layout.Valid() && ParsedSoFar(layout, s, entries, rest, known) && layout.EntryOk(e)
    requires rest == layout.Print(e) + rest'
    requires known.Some? ==> |entries| < |known.value| && e == known.value[|entries|] && rest' == layout.PrintAll(known.value[|entries| + 1..])
    ensures ParsedSoFar(layout, s, entries + [e], rest', known)
  {
    layout.PrintAppend(entries, e);
    Associative(layout.PrintAll(entries), layout.Print(e), rest');
    if known.Some? {
      PrefixGrows(known.value, |entries|);
    }
  }

  /** The entry that must come next when the index is known. */
  ghost function NextEntry(layout: Layout, i: nat, known: Option<seq<IndexEntry>>): Option<(IndexEntry, bytes)>
    requires layout.Valid() && (known.Some? ==> i < |known.value|)
  {
    if known.Some? then Some((known.value[i], layout.PrintAll(known.value[i + 1..]))) else None
  }

  lemma NextEntryFacts(layout: Layout, s: bytes, entries: seq<IndexEntry>, rest: bytes, known: Option<seq<IndexEntry>>,
                       numBlocks: nat, offset: nat)
    requires layout.Valid() && ParsedSoFar(layout, s, entries, rest, known)
    requires known.Some? ==> IsIndexOf(layout, s, known.value, numBlocks, offset) && |entries| < |known.value|
    ensures known.Some? ==>
              var e := known.value[|entries|];
              && layout.EntryOk(e) && rest == layout.Print(e) + layout.PrintAll(known.value[|entries| + 1..])
              && TotalEntries(entries + [e]) <= U64_MAX && offset + TotalCompressed(entries + [e]) <= U64_MAX
  {
    if known.Some? {
      SuffixShrinks(known.value, |entries|);
      PrefixGrows(known.value, |entries|);
      TotalsGrow(known.value, |entries| + 1);
    }
  }

  /** The state of a parse: descriptors and running sums of what has been read. */
  ghost predicate Described(entries: seq<IndexEntry>, descriptors: seq<BlockDescriptor>, start: nat, compOffset: nat, offset: nat) {
    && descriptors == DescriptorsOf(entries, 0, offset)
    && start == TotalEntries(entries) <= U64_MAX
    && compOffset == offset + TotalCompressed(entries) <= U64_MAX
  }

  lemma DescribedOneMore(entries: seq<IndexEntry>, e: IndexEntry, descriptors: seq<BlockDescriptor>, start: nat,
                         compOffset: nat, offset: nat)
    requires Described(entries, descriptors, start, compOffset, offset)
    ensures TotalEntries(entries + [e]) == start + e.entryCount
    ensures offset + TotalCompressed(entries + [e]) == compOffset + e.compSize
    ensures start + e.entryCount <= U64_MAX && compOffset + e.compSize <= U64_MAX ==>
              Described(entries + [e],
                        descriptors + [BlockDescriptor(e.entryCount, start, e.first, e.last, compOffset, e.compSize, e.decompSize)],
                        start + e.entryCount, compOffset + e.compSize, offset)
  {
    TotalsAppend(entries, e);
    DescriptorsAppend(entries, e, 0, offset);
  }

  method ParseEntries(layout: Layout, s: bytes, numBlocks: nat, offset: nat, ghost known: Option<seq<IndexEntry>>)
    returns (r: Result<seq<BlockDescriptor>>, ghost entries: seq<IndexEntry>)
    requires layout.Valid() && offset <= U64_MAX
    requires known.Some? ==> IsIndexOf(layout, s, known.value, numBlocks, offset)
    ensures r.Ok? ==> IsIndexOf(layout, s, entries, numBlocks, offset) && r.value == DescriptorsOf(entries, 0, offset)
    ensures known.Some? ==> r == Ok(DescriptorsOf(known.value, 0, offset))
  {
    entries := [];
    if known.Some? {
      layout.EntriesNeedRoom(known.value);
      Whole(known.value);
    }
    if numBlocks * layout.MinimumEntryBytes() > |s| {
      return Err(InvalidData), entries;
    }
    var cursor := new Cursor(s);
    var descriptors: seq<BlockDescriptor> := [];
    var compOffset: nat, start: nat := offset, 0;
    Whole(s);
    NilConcat(s);
    for i := 0 to numBlocks
      invariant cursor.Valid() && cursor.bytes == s && fresh(cursor) && |entries| == i
      invariant ParsedSoFar(layout, s, entries, cursor.Rest(), known)
      invariant Described(entries, descriptors, start, compOffset, offset)
    {
      NextEntryFacts(layout, s, entries, cursor.Rest(), known, numBlocks, offset);
      ghost var rest := cursor.Rest();
      var read := ReadEntry(layout, cursor, NextEntry(layout, i, known));
      if read.Err? {
        return Err(read.error), entries;
      }
      var e := read.value;
      DescribedOneMore(entries, e, descriptors, start, compOffset, offset);
      ParsedOneMore(layout, s, entries, rest, e, cursor.Rest(), known);
      if compOffset + e.compSize > U64_MAX {
        return Err(InvalidFormat), entries;
      }
      if start + e.entryCount > U64_MAX {
        return Err(InvalidFormat), entries;
      }
      descriptors := descriptors + [BlockDescriptor(e.entryCount, start, e.first, e.last, compOffset, e.compSize, e.decompSize)];
      entries := entries + [e];
      compOffset, start := compOffset + e.compSize, start + e.entryCount;
    }
    if known.Some? {
      Whole(known.value);
    }
    if !cursor.IsEmpty() {
      return Err(InvalidData), entries;
    }
    NilConcat(layout.PrintAll(entries));
    return Ok(descriptors), entries;
  }

  /**
   * Parses the whole index. It accepts exactly the indexes that are some entries written out, with nothing left
   * over, and returns their descriptors with starts and offsets as running sums.
   */
  method ParseKeywordIndexEntries(layout: Layout, s: bytes, numBlocks: nat, offset: nat)
    returns (r: Result<seq<BlockDescriptor>>)
    requires layout.Valid() && offset <= U64_MAX
    ensures r.Ok? ==> exists entries :: IsIndexOf(layout, s, entries, numBlocks, offset) && r.value == DescriptorsOf(entries, 0, offset)
    ensures forall entries | IsIndexOf(layout, s, entries, numBlocks, offset) :: r == Ok(DescriptorsOf(entries, 0, offset))
  {
    ghost var known: Option<seq<IndexEntry>> := None;
    if exists entries :: IsIndexOf(layout, s, entries, numBlocks, offset) {
      ghost var entries :| IsIndexOf(layout, s, entries, numBlocks, offset);
      known := Some(entries);
      OnlyOneIndex(layout, s, entries, numBlocks, offset);
    }
    ghost var read;
    r, read := ParseEntries(layout, s, numBlocks, offset, known);
  }

  /** Whatever the layout, the same blocks give the same descriptors. */
  method SameDescriptors(narrow: Layout, wide: Layout, entries: seq<IndexEntry>, offset: nat)
    returns (version1: Result<seq<BlockDescriptor>>, version2: Result<seq<BlockDescriptor>>)
    requires narrow.Valid() && wide.Valid()
    requires forall i | 0 <= i < |entries| :: narrow.EntryOk(entries[i]) && wide.EntryOk(entries[i])
    requires TotalEntries(entries) <= U64_MAX && offset + TotalCompressed(entries) <= U64_MAX
    ensures version1 == version2 == Ok(DescriptorsOf(entries, 0, offset))
  {
    assert IsIndexOf(narrow, narrow.PrintAll(entries), entries, |entries|, offset);
    assert IsIndexOf(wide, wide.PrintAll(entries), entries, |entries|, offset);
    version1 := ParseKeywordIndexEntries(narrow, narrow.PrintAll(entries), |entries|, offset);
    version2 := ParseKeywordIndexEntries(wide, wide.PrintAll(entries), |entries|, offset);
  }

  /** The entries an index holds are determined by its bytes. */
  lemma OnlyOneIndex(layout: Layout, s: bytes, entries: seq<IndexEntry>, numBlocks: nat, offset: nat)
    requires layout.Valid() && IsIndexOf(layout, s, entries, numBlocks, offset)
    ensures forall other | IsIndexOf(layout, s, other, numBlocks, offset) :: other == entries
  {
    forall other | IsIndexOf(layout, s, other, numBlocks, offset)
      ensures other == entries
    {
      EntriesAreDetermined(layout, other, entries);
    }
  }

  lemma SummaryTextIsDetermined(layout: Layout, a: bytes, x: bytes, b: bytes, y: bytes)
    requires layout.Valid() && layout.SummaryOk(a) && layout.SummaryOk(b)
    requires layout.PrintSummary(a) + x == layout.PrintSummary(b) + y
    ensures a == b && x == y
  {
    var s := layout.PrintSummary(a) + x;
    var units := |a| / layout.unit;
    PiecesOfSummary(a, layout.End(), x);
    PiecesOfSummary(b, layout.End(), y);
    Associative(Be(layout.lengthWidth, units), a, layout.End());
    Associative(Be(layout.lengthWidth, units), a + layout.End(), x);
    SummaryIsDetermined(layout, s, units, a + layout.End() + x, b, y);
  }

  lemma EntryIsDetermined(layout: Layout, a: IndexEntry, x: bytes, b: IndexEntry, y: bytes)
    requires layout.Valid() && layout.EntryOk(a) && layout.EntryOk(b) && layout.Print(a) + x == layout.Print(b) + y
    ensures a == b && x == y
  {
    EntryPieces(layout, a, x);
    EntryPieces(layout, b, y);
    FieldIsDetermined(layout.fieldWidth, layout.Print(a) + x, a.entryCount, AfterCount(layout, a, x), b.entryCount, AfterCount(layout, b, y));
    SummaryTextIsDetermined(layout, a.first, AfterFirst(layout, a, x), b.first, AfterFirst(layout, b, y));
    SummaryTextIsDetermined(layout, a.last, AfterLast(layout, a, x), b.last, AfterLast(layout, b, y));
    FieldIsDetermined(layout.fieldWidth, AfterLast(layout, a, x), a.compSize, Be(layout.fieldWidth, a.decompSize) + x,
                      b.compSize, Be(layout.fieldWidth, b.decompSize) + y);
    FieldIsDetermined(layout.fieldWidth, Be(layout.fieldWidth, a.decompSize) + x, a.decompSize, x, b.decompSize, y);
  }

  lemma {:induction false} EntriesAreDetermined(layout: Layout, a: seq<IndexEntry>, b: seq<IndexEntry>)
    requires layout.Valid() && |a| == |b| && layout.PrintAll(a) == layout.PrintAll(b)
    requires forall i | 0 <= i < |a| :: layout.EntryOk(a[i]) && layout.EntryOk(b[i])
    ensures a == b
  {
    if a != [] {
      EntryIsDetermined(layout, a[0], layout.PrintAll(a[1..]), b[0], layout.PrintAll(b[1..]));
      EntriesAreDetermined(layout, a[1..], b[1..]);
      HeadTail(a);
      HeadTail(b);
    }
  }
}
