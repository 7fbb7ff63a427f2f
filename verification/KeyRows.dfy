/**
 * The key-row grammar of a decompressed key block, in both wire widths (src/format/v1/keyword.rs,
 * src/format/v2/keyword.rs, src/format/common/encoding.rs): version 1 writes record offsets in four bytes, version 2
 * in eight; keys end with a zero unit of one or two bytes.
 */
module KeyRows {
  import opened Bytes
  import opened Sequences
  import opened Wrappers

  /** Reads big-endian fields and byte strings one after the other. */
  class Cursor {
    const bytes: bytes
    var offset: nat

    constructor (bytes: bytes)
      ensures this.bytes == bytes && offset == 0
    {
      this.bytes := bytes;
      offset := 0;
    }

    ghost predicate Valid()
      reads this
    {
      offset <= |bytes|
    }

    predicate IsEmpty()
      reads this
    {
      offset >= |bytes|
    }

    /** What has not been read yet. */
    ghost function Rest(): Bytes.bytes
      requires Valid()
      reads this
    {
      bytes[offset..]
    }

    method ReadBytes(len: nat) returns (r: Result<Bytes.bytes>)
      requires Valid()
      modifies this
      ensures Valid()
      ensures r.Ok? <==> len <= |old(Rest())|
      ensures r.Ok? ==> r.value == old(Rest())[..len] && Rest() == old(Rest())[len..] && offset == old(offset) + len
    {
      if offset + len > |bytes| {
        return Err(Truncated);
      }
      SliceOfSlice(bytes, offset, |bytes|, 0, len);
      Whole(bytes);
      r := Ok(bytes[offset..offset + len]);
      SliceOfSlice(bytes, offset, |bytes|, len, |bytes| - offset);
      offset := offset + len;
    }

    /** A big-endian field of `width` bytes. */
    method ReadBe(width: nat) returns (r: Result<nat>)
      requires Valid()
      modifies this
      ensures Valid()
      ensures r.Ok? <==> width <= |old(Rest())|
      ensures r.Ok? ==> r.value < Range(width) && old(Rest()) == Be(width, r.value) + Rest() && offset == old(offset) + width
    {
      ghost var rest := Rest();
      var field :- ReadBytes(width);
      FromBeBound(field);
      BeOfFromBe(field);
      SplitAt(rest, width);
      return Ok(FromBe(field));
    }
  }

  // ----- terminated keys -----

  /** A zero unit at `at`. */
  predicate TerminatorAt(s: bytes, unit: nat, at: nat) {
    if unit == 1 then at < |s| && s[at] == 0
    else at % 2 == 0 && at + 1 < |s| && s[at] == 0 && s[at + 1] == 0
  }

  /** A key of whole units, none of them zero. */
  predicate IsKey(key: bytes, unit: nat) {
    (unit == 2 ==> |key| % 2 == 0) && forall at | 0 <= at < |key| :: !TerminatorAt(key, unit, at)
  }

  function Terminator(unit: nat): (t: bytes)
    requires unit in {1, 2}
    ensures |t| == unit
  {
    if unit == 1 then [0] else [0, 0]
  }

  /** A terminated key ends at the first zero unit, and nowhere else. */
  lemma KeyEndsAtFirstTerminator(key: bytes, unit: nat, rest: bytes)
    requires unit in {1, 2} && IsKey(key, unit)
    ensures var s := key + Terminator(unit) + rest;
            && TerminatorAt(s, unit, |key|)
            && forall at | 0 <= at < |key| :: !TerminatorAt(s, unit, at)
  {
    var s := key + Terminator(unit) + rest;
    forall at | 0 <= at < |key|
      ensures !TerminatorAt(s, unit, at)
    {
      assert s[at] == key[at] && !TerminatorAt(key, unit, at);
      if unit == 2 && at + 1 < |key| {
        assert s[at + 1] == key[at + 1];
      }
    }
  }

  /** So a byte string starts with one terminated key at most. */
  lemma KeyIsDetermined(unit: nat, a: bytes, x: bytes, b: bytes, y: bytes)
    requires unit in {1, 2} && IsKey(a, unit) && IsKey(b, unit)
    requires a + Terminator(unit) + x == b + Terminator(unit) + y
    ensures a == b && x == y
  {
    var s := a + Terminator(unit) + x;
    KeyEndsAtFirstTerminator(a, unit, x);
    KeyEndsAtFirstTerminator(b, unit, y);
    assert |a| == |b|;
    Pieces(a, Terminator(unit), x, []);
    Pieces(b, Terminator(unit), y, []);
    NilConcat(s);
    NilConcat(b + Terminator(unit) + y);
    assert x == s[|a| + unit..] && y == s[|b| + unit..];
  }

  /** Splits a terminated key off; fails exactly when there is no terminator. */
  method SplitTerminated(tail: bytes, unit: nat) returns (r: Result<(bytes, nat)>)
    requires unit in {1, 2}
    ensures r.Err? <==> forall at | 0 <= at < |tail| :: !TerminatorAt(tail, unit, at)
    ensures r.Ok? ==>
              var (key, next) := r.value;
              IsKey(key, unit) && next == |key| + unit <= |tail| && tail == key + Terminator(unit) + tail[next..]
  {
    var at := 0;
    while at + unit <= |tail|
      invariant 0 <= at <= |tail| && (unit == 2 ==> at % 2 == 0)
      invariant forall i | 0 <= i < at :: !TerminatorAt(tail, unit, i)
      decreases |tail| - at
    {
      if tail[at..at + unit] == Terminator(unit) {
        SplitIsKey(tail, unit, at);
        return Ok((tail[..at], at + unit));
      }
      NoTerminatorHere(tail, unit, at);
      at := at + unit;
    }
    return Err(InvalidData);
  }

  lemma SplitIsKey(tail: bytes, unit: nat, at: nat)
    requires unit in {1, 2} && at + unit <= |tail| && (unit == 2 ==> at % 2 == 0)
    requires tail[at..at + unit] == Terminator(unit) && forall i | 0 <= i < at :: !TerminatorAt(tail, unit, i)
    ensures TerminatorAt(tail, unit, at) && IsKey(tail[..at], unit)
    ensures tail == tail[..at] + Terminator(unit) + tail[at + unit..]
  {
    var unitBytes := tail[at..at + unit];
    assert tail[at] == unitBytes[0];
    if unit == 2 {
      assert tail[at + 1] == unitBytes[1];
    }
    forall i | 0 <= i < at
      ensures !TerminatorAt(tail[..at], unit, i)
    {
      assert !TerminatorAt(tail, unit, i);
    }
  }

  lemma NoTerminatorHere(tail: bytes, unit: nat, at: nat)
    requires unit in {1, 2} && at + unit <= |tail| && (unit == 2 ==> at % 2 == 0)
    requires tail[at..at + unit] != Terminator(unit)
    ensures forall i | at <= i < at + unit :: !TerminatorAt(tail, unit, i)
  {
    if unit == 2 {
      assert tail[at..at + unit] == [tail[at], tail[at + 1]];
    } else {
      assert tail[at..at + unit] == [tail[at]];
    }
  }

  // ----- rows -----

  /** A row as it stands in the block: the key's text is left as bytes. */
  datatype RawRow = RawRow(recordStart: nat, key: bytes)

  /** How a block is written, and what its metadata says of it. */
  datatype RowFormat = RowFormat(
    width: nat,
    unit: nat,
    expectedEntries: nat,
    totalRecordLen: nat,
    /** Which byte strings are text in the declared encoding. */
    isText: bytes -> bool)
  {
    predicate Valid() {
      width in {4, 8} && unit in {1, 2}
    }

    function Print(row: RawRow): bytes
      requires Valid()
    {
      Be(width, row.recordStart) + (row.key + Terminator(unit))
    }

    function PrintAll(rows: seq<RawRow>): bytes
      requires Valid()
    {
      if rows == [] then [] else Print(rows[0]) + PrintAll(rows[1..])
    }

    predicate RowOk(row: RawRow) {
      row.recordStart < Range(width) && row.recordStart <= totalRecordLen && IsKey(row.key, unit) && isText(row.key)
    }

    /** Rows a block may hold. */
    ghost predicate RowsOk(rows: seq<RawRow>) {
      && (forall i | 0 <= i < |rows| :: RowOk(rows[i]))
      && (forall i, j | 0 <= i < j < |rows| :: rows[i].recordStart <= rows[j].recordStart)
    }

    /** A block that holds exactly these rows. */
    ghost predicate IsBlockOf(s: bytes, rows: seq<RawRow>)
      requires Valid()
    {
      RowsOk(rows) && |rows| == expectedEntries && PrintAll(rows) == s
    }

    /** The first row of a block is determined by its bytes. */
    lemma RowIsDetermined(a: RawRow, x: bytes, b: RawRow, y: bytes)
      requires Valid() && RowOk(a) && RowOk(b) && Print(a) + x == Print(b) + y
      ensures a == b && x == y
    {
      var s := Print(a) + x;
      Associative(Be(width, a.recordStart), a.key + Terminator(unit), x);
      Associative(Be(width, b.recordStart), b.key + Terminator(unit), y);
      assert s[..width] == Be(width, a.recordStart) && s[..width] == Be(width, b.recordStart);
      BeRoundTrip(width, a.recordStart);
      BeRoundTrip(width, b.recordStart);
      assert s[width..] == a.key + Terminator(unit) + x && s[width..] == b.key + Terminator(unit) + y;
      KeyIsDetermined(unit, a.key, x, b.key, y);
    }

    /** A block holds one list of rows at most. */
    lemma {:induction false} RowsAreDetermined(a: seq<RawRow>, b: seq<RawRow>)
      requires Valid() && RowsOk(a) && RowsOk(b) && |a| == |b| && PrintAll(a) == PrintAll(b)
      ensures a == b
    {
      if a != [] {
        RowIsDetermined(a[0], PrintAll(a[1..]), b[0], PrintAll(b[1..]));
        RowsAreDetermined(a[1..], b[1..]);
        HeadTail(a);
        HeadTail(b);
      }
    }

    lemma {:induction false} PrintAppend(rows: seq<RawRow>, row: RawRow)
      requires Valid()
      ensures PrintAll(rows + [row]) == PrintAll(rows) + Print(row)
    {
      if rows == [] {
        NilConcat([row]);
        assert [row][1..] == [];
        assert PrintAll([row]) == Print(row) + PrintAll([]);
      } else {
        PrintAppend(rows[1..], row);
        TailOfConcat(rows, [row]);
        Associative(Print(rows[0]), PrintAll(rows[1..]), Print(row));
      }
    }
  }

  /** Reads one row. */
  method ReadRow(f: RowFormat, cursor: Cursor, previous: Option<nat>, ghost next: Option<(RawRow, bytes)>)
    returns (r: Result<RawRow>)
    requires f.Valid() && cursor.Valid()
    requires next.Some? ==> f.RowOk(next.value.0) && cursor.Rest() == f.Print(next.value.0) + next.value.1
    requires next.Some? && previous.Some? ==> previous.value <= next.value.0.recordStart
    modifies cursor
    ensures cursor.Valid()
    ensures r.Ok? ==>
              && f.RowOk(r.value) && (previous.Some? ==> previous.value <= r.value.recordStart)
              && old(cursor.Rest()) == f.Print(r.value) + cursor.Rest() && old(cursor.offset) < cursor.offset
    ensures next.Some? ==> r == Ok(next.value.0) && cursor.Rest() == next.value.1
  {
    ghost var start := cursor.Rest();
    if next.Some? {
      StartOfRow(f, start, next.value.0, next.value.1);
    }
    var recordStart :- cursor.ReadBe(f.width);
    if next.Some? {
      BeIsDetermined(f, start, recordStart, cursor.Rest(), next.value.0, next.value.1);
    }
    if recordStart > f.totalRecordLen {
      return Err(InvalidData);
    }
    if previous.Some? && previous.value > recordStart {
      return Err(InvalidData);
    }
    ghost var tail := cursor.Rest();
    if next.Some? {
      KeyEndsAtFirstTerminator(next.value.0.key, f.unit, next.value.1);
    }
    var split :- SplitTerminated(cursor.bytes[cursor.offset..], f.unit);
    var (key, keyLen) := split;
    if next.Some? {
      KeyIsDetermined(f.unit, key, tail[keyLen..], next.value.0.key, next.value.1);
    }
    if !f.isText(key) {
      return Err(Decode);
    }
    var skipped := cursor.ReadBytes(keyLen);
    Associative(Be(f.width, recordStart), key + Terminator(f.unit), cursor.Rest());
    return Ok(RawRow(recordStart, key));
  }

  lemma StartOfRow(f: RowFormat, s: bytes, row: RawRow, rest: bytes)
    requires f.Valid() && s == f.Print(row) + rest
    ensures f.width <= |s| && s == Be(f.width, row.recordStart) + (row.key + Terminator(f.unit) + rest)
  {
    Associative(Be(f.width, row.recordStart), row.key + Terminator(f.unit), rest);
  }

  lemma BeIsDetermined(f: RowFormat, s: bytes, n: nat, rest: bytes, row: RawRow, after: bytes)
    requires f.Valid() && f.RowOk(row) && n < Range(f.width)
    requires s == f.Print(row) + after && s == Be(f.width, n) + rest
    ensures n == row.recordStart && rest == row.key + Terminator(f.unit) + after
  {
    StartOfRow(f, s, row, after);
    BeRoundTrip(f.width, n);
    BeRoundTrip(f.width, row.recordStart);
    assert s[..f.width] == Be(f.width, n) && s[..f.width] == Be(f.width, row.recordStart);
    assert s[f.width..] == rest;
  }

  // ----- blocks -----

  /** The loop has read `entries`, and if the block is known to hold certain rows, these are the first of them. */
  ghost predicate ReadSoFar(f: RowFormat, s: bytes, entries: seq<RawRow>, rest: bytes, known: Option<seq<RawRow>>)
    requires f.Valid()
  {
    && f.RowsOk(entries) && |entries| <= f.expectedEntries
    && s == f.PrintAll(entries) + rest
    && (known.Some? ==>
          && |entries| <= |known.value| == f.expectedEntries
          && entries == known.value[..|entries|] && rest == f.PrintAll(known.value[|entries|..]))
  }

  lemma ReadOneMore(f: RowFormat, s: bytes, entries: seq<RawRow>, rest: bytes, row: RawRow, rest': bytes,
                    known: Option<seq<RawRow>>)
    requires f.Valid() && ReadSoFar(f, s, entries, rest, known) && |entries| < f.expectedEntries && f.RowOk(row)
    requires entries != [] ==> entries[|entries| - 1].recordStart <= row.recordStart
    requires rest == f.Print(row) + rest'
    requires known.Some? ==>
               row == known.value[|entries|] && rest' == f.PrintAll(known.value[|entries| + 1..])
    ensures ReadSoFar(f, s, entries + [row], rest', known)
  {
    f.PrintAppend(entries, row);
    Associative(f.PrintAll(entries), f.Print(row), rest');
    if known.Some? {
      PrefixGrows(known.value, |entries|);
    }
  }

  /** What the next row must be when the block is known. */
  ghost function NextKnown(f: RowFormat, entries: seq<RawRow>, known: Option<seq<RawRow>>): Option<(RawRow, bytes)>
    requires f.Valid()
  {
    if known.Some? && |entries| < |known.value| then
      Some((known.value[|entries|], f.PrintAll(known.value[|entries| + 1..])))
    else None
  }

  lemma NextKnownFacts(f: RowFormat, s: bytes, entries: seq<RawRow>, rest: bytes, known: Option<seq<RawRow>>)
    requires f.Valid() && ReadSoFar(f, s, entries, rest, known) && (known.Some? ==> f.IsBlockOf(s, known.value))
    ensures rest != [] && known.Some? ==> |entries| < |known.value|
    ensures rest == [] && known.Some? ==> |entries| == |known.value|
    ensures var next := NextKnown(f, entries, known);
            next.Some? ==>
              && f.RowOk(next.value.0) && rest == f.Print(next.value.0) + next.value.1
              && (entries != [] ==> entries[|entries| - 1].recordStart <= next.value.0.recordStart)
  {
    if known.Some? {
      if |entries| < |known.value| {
        SuffixShrinks(known.value, |entries|);
        assert entries != [] ==> entries[|entries| - 1] == known.value[|entries| - 1];
      } else {
        Whole(known.value);
      }
    }
  }

  /**
   * Decodes a whole block. It accepts exactly the blocks that are some list of rows written out, and returns that
   * list; nothing is left over.
   */
  method DecodeKeyRows(f: RowFormat, s: bytes) returns (r: Result<seq<RawRow>>)
    requires f.Valid()
    ensures r.Ok? ==> f.IsBlockOf(s, r.value)
    ensures forall rows | f.IsBlockOf(s, rows) :: r == Ok(rows)
  {
    ghost var known: Option<seq<RawRow>> := None;
    if exists rows :: f.IsBlockOf(s, rows) {
      ghost var rows :| f.IsBlockOf(s, rows);
      known := Some(rows);
      OnlyOneList(f, s, rows);
      Whole(rows);
    }
    r := DecodeRows(f, s, known);
  }

  lemma OnlyOneList(f: RowFormat, s: bytes, rows: seq<RawRow>)
    requires f.Valid() && f.IsBlockOf(s, rows)
    ensures forall other | f.IsBlockOf(s, other) :: other == rows
  {
    forall other | f.IsBlockOf(s, other)
      ensures other == rows
    {
      f.RowsAreDetermined(other, rows);
    }
  }

  method DecodeRows(f: RowFormat, s: bytes, ghost known: Option<seq<RawRow>>) returns (r: Result<seq<RawRow>>)
    requires f.Valid() && (known.Some? ==> f.IsBlockOf(s, known.value))
    ensures r.Ok? ==> f.IsBlockOf(s, r.value)
    ensures known.Some? ==> r == Ok(known.value)
  {
    var cursor := new Cursor(s);
    var entries: seq<RawRow> := [];
    Whole(s);
    NilConcat(s);
    if known.Some? {
      Whole(known.value);
    }
    while !cursor.IsEmpty()
      invariant cursor.Valid() && cursor.bytes == s && fresh(cursor)
      invariant ReadSoFar(f, s, entries, cursor.Rest(), known)
      decreases |s| - cursor.offset
    {
      NextKnownFacts(f, s, entries, cursor.Rest(), known);
      if |entries| == f.expectedEntries {
        return Err(InvalidData);
      }
      ghost var rest := cursor.Rest();
      var previous := if entries == [] then None else Some(entries[|entries| - 1].recordStart);
      var row :- ReadRow(f, cursor, previous, NextKnown(f, entries, known));
      ReadOneMore(f, s, entries, rest, row, cursor.Rest(), known);
      entries := entries + [row];
    }
    NextKnownFacts(f, s, entries, cursor.Rest(), known);
    NilConcat(f.PrintAll(entries));
    if known.Some? {
      Whole(known.value);
    }
    if |entries| != f.expectedEntries {
      return Err(InvalidData);
    }
    return Ok(entries);
  }

  /** Both wire versions give the same rows for the same block contents. */
  method SameRows(narrow: RowFormat, wide: RowFormat, rows: seq<RawRow>)
    returns (version1: Result<seq<RawRow>>, version2: Result<seq<RawRow>>)
    requires narrow.Valid() && narrow.width == 4 && wide == narrow.(width := 8)
    requires narrow.RowsOk(rows) && |rows| == narrow.expectedEntries
    ensures version1 == version2 == Ok(rows)
  {
    Ranges();
    assert forall i | 0 <= i < |rows| :: narrow.RowOk(rows[i]);
    assert wide.RowsOk(rows);
    assert narrow.IsBlockOf(narrow.PrintAll(rows), rows) && wide.IsBlockOf(wide.PrintAll(rows), rows);
    version1 := DecodeKeyRows(narrow, narrow.PrintAll(rows));
    version2 := DecodeKeyRows(wide, wide.PrintAll(rows));
  }
}
