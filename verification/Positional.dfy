/**
 * What the bytes of a number weigh, and with it what the fields of the wire formats and of the index file say
 * (src/format/common/cursor.rs, src/core/persistent/format.rs): most significant byte first in a dictionary, least
 * significant byte first in an index.
 */
module Positional {
  import opened Bytes
  import opened IndexLayout
  import opened IndexOptions
  import opened KeyRows
  import opened KeywordIndex
  import opened Sequences
  import opened Wrappers

  function Pow256(n: nat): nat {
    if n == 0 then 1 else 256 * Pow256(n - 1)
  }

  /** The first `n` bytes, byte `i` worth 256 to the number of bytes behind it. */
  function BigEndianSum(s: bytes, n: nat): nat
    requires n <= |s|
  {
    if n == 0 then 0 else BigEndianSum(s, n - 1) + s[n - 1] * Pow256(|s| - n)
  }

  /** The first `n` bytes, byte `i` worth 256 to the number of bytes before it. */
  function LittleEndianSum(s: bytes, n: nat): nat
    requires n <= |s|
  {
    if n == 0 then 0 else LittleEndianSum(s, n - 1) + s[n - 1] * Pow256(n - 1)
  }

  lemma {:induction false} WeightsShiftLeft(s: bytes, last: byte, n: nat)
    requires n <= |s|
    ensures BigEndianSum(s + [last], n) == 256 * BigEndianSum(s, n)
  {
    if n > 0 {
      WeightsShiftLeft(s, last, n - 1);
      assert (s + [last])[n - 1] == s[n - 1];
      OneMoreFactor(s[n - 1], Pow256(|s| - n));
    }
  }

  lemma OneMoreFactor(b: nat, weight: nat)
    ensures b * (256 * weight) == 256 * (b * weight)
  {
  }

  lemma {:induction false} FromBeIs(s: bytes)
    ensures FromBe(s) == BigEndianSum(s, |s|)
  {
    if s != [] {
      var front, last := s[..|s| - 1], s[|s| - 1];
      FromBeIs(front);
      assert s == front + [last];
      WeightsShiftLeft(front, last, |front|);
    }
  }

  lemma {:induction false} WeightsShiftRight(s: bytes, first: byte, n: nat)
    requires n <= |s|
    ensures LittleEndianSum([first] + s, n + 1) == first + 256 * LittleEndianSum(s, n)
  {
    if n > 0 {
      WeightsShiftRight(s, first, n - 1);
      assert ([first] + s)[n] == s[n - 1];
      OneMoreFactor(s[n - 1], Pow256(n - 1));
    } else {
      assert LittleEndianSum([first] + s, 0) == 0;
    }
  }

  lemma {:induction false} FromLeIs(s: bytes)
    ensures FromLe(s) == LittleEndianSum(s, |s|)
  {
    if s != [] {
      FromLeIs(s[1..]);
      HeadTail(s);
      WeightsShiftRight(s[1..], s[0], |s| - 1);
    }
  }

  /** Numbers that fit are written so that their bytes weigh them. */
  lemma WrittenBytesWeigh(width: nat, n: nat)
    requires n < Range(width)
    ensures BigEndianSum(Be(width, n), width) == n && LittleEndianSum(Le(width, n), width) == n
  {
    BeRoundTrip(width, n);
    FromBeIs(Be(width, n));
    LeRoundTrip(width, n);
    FromLeIs(Le(width, n));
  }

  // ----- dictionary rows and index entries -----

  /** In an accepted block every row starts with the big-endian number where its record starts, and its key follows. */
  lemma RowsSayTheirStarts(f: RowFormat, s: bytes, rows: seq<RawRow>, i: nat, at: nat)
    requires f.Valid() && f.IsBlockOf(s, rows) && i < |rows| && at == |f.PrintAll(rows[..i])|
    ensures at + f.width + |rows[i].key| <= |s|
    ensures BigEndianSum(s[at..at + f.width], f.width) == rows[i].recordStart
    ensures s[at + f.width..at + f.width + |rows[i].key|] == rows[i].key
  {
    PrintedAround(f, rows, i);
    var row := rows[i];
    var before, after := f.PrintAll(rows[..i]), f.PrintAll(rows[i + 1..]);
    assert f.RowOk(row);
    WrittenBytesWeigh(f.width, row.recordStart);
    FieldInside(before, Be(f.width, row.recordStart), row.key, Terminator(f.unit) + after, s);
  }

  lemma PrintedAround(f: RowFormat, rows: seq<RawRow>, i: nat)
    requires f.Valid() && i < |rows|
    ensures f.PrintAll(rows) ==
            f.PrintAll(rows[..i]) + (Be(f.width, rows[i].recordStart) +
            (rows[i].key + (Terminator(f.unit) + f.PrintAll(rows[i + 1..]))))
  {
    var start, key, end := Be(f.width, rows[i].recordStart), rows[i].key, Terminator(f.unit);
    var after := f.PrintAll(rows[i + 1..]);
    SplitAt(rows, i);
    PrintConcat(f, rows[..i], rows[i..]);
    SuffixShrinks(rows, i);
    Associative(start, key + end, after);
    Associative(key, end, after);
  }

  lemma {:induction false} PrintConcat(f: RowFormat, a: seq<RawRow>, b: seq<RawRow>)
    requires f.Valid()
    ensures f.PrintAll(a + b) == f.PrintAll(a) + f.PrintAll(b)
  {
    if a == [] {
      NilConcat(b);
    } else {
      PrintConcat(f, a[1..], b);
      TailOfConcat(a, b);
      Associative(f.Print(a[0]), f.PrintAll(a[1..]), f.PrintAll(b));
    }
  }

  lemma FieldInside(before: bytes, field: bytes, key: bytes, after: bytes, s: bytes)
    requires s == before + (field + (key + after))
    ensures |before| + |field| + |key| <= |s|
    ensures s[|before|..|before| + |field|] == field
    ensures s[|before| + |field|..|before| + |field| + |key|] == key
  {
  }

  /** An index entry starts with its entry count and ends with its two sizes, each most significant byte first. */
  lemma EntriesSayTheirSizes(layout: Layout, e: IndexEntry)
    requires layout.Valid() && layout.EntryOk(e)
    ensures var s, width := layout.Print(e), layout.fieldWidth;
            && 3 * width <= |s|
            && BigEndianSum(s[..width], width) == e.entryCount
            && BigEndianSum(s[|s| - 2 * width..|s| - width], width) == e.compSize
            && BigEndianSum(s[|s| - width..], width) == e.decompSize
  {
    var width := layout.fieldWidth;
    WrittenBytesWeigh(width, e.entryCount);
    WrittenBytesWeigh(width, e.compSize);
    WrittenBytesWeigh(width, e.decompSize);
    EndsOf(Be(width, e.entryCount), layout.PrintSummary(e.first), layout.PrintSummary(e.last), Be(width, e.compSize),
           Be(width, e.decompSize));
  }

  lemma EndsOf(a: bytes, b: bytes, c: bytes, d: bytes, e: bytes)
    requires |d| == |e|
    ensures var s := a + (b + (c + (d + e)));
            s[..|a|] == a && s[|s| - 2 * |e|..|s| - |e|] == d && s[|s| - |e|..] == e
  {
  }

  /** The version 1 block 00 00 00 05 61 00 is one row: record start 5, key "a". */
  method OrdinaryBlock() returns (r: Result<seq<RawRow>>)
    ensures r == Ok([RawRow(5, [0x61])])
  {
    var f := RowFormat(4, 1, 1, 100, s => true);
    var row := RawRow(5, [0x61]);
    FiveInFourBytes();
    assert [row][1..] == [];
    NilConcat(f.Print(row));
    assert f.PrintAll([row]) == f.Print(row) + f.PrintAll([]);
    assert f.Print(row) == [0, 0, 0, 5, 0x61, 0];
    Ranges();
    assert f.IsBlockOf([0, 0, 0, 5, 0x61, 0], [row]);
    r := DecodeKeyRows(f, [0, 0, 0, 5, 0x61, 0]);
  }

  lemma FiveInFourBytes()
    ensures Be(4, 5) == [0, 0, 0, 5]
  {
    assert Be(1, 0) == Be(0, 0) + [0];
    assert Be(2, 0) == Be(1, 0) + [0];
    assert Be(3, 0) == Be(2, 0) + [0];
    assert Be(4, 5) == Be(3, 0) + [5];
  }

  // ----- the index file -----

  /** Four bytes of an index file. */
  lemma FourBytes(s: bytes)
    requires |s| == 4
    ensures FromLe(s) == s[0] as int + 0x100 * (s[1] as int) + 0x1_0000 * (s[2] as int) + 0x100_0000 * (s[3] as int)
  {
    FromLeIs(s);
    assert LittleEndianSum(s, 1) == s[0] * Pow256(0);
    assert LittleEndianSum(s, 2) == LittleEndianSum(s, 1) + s[1] * Pow256(1);
    assert LittleEndianSum(s, 3) == LittleEndianSum(s, 2) + s[2] * Pow256(2);
    assert Pow256(3) == 256 * Pow256(2) && Pow256(2) == 256 * Pow256(1);
  }

  /** Entry `i` of a table in the index file, by the weights of its bytes. */
  lemma TableEntriesWeigh(width: nat, values: seq<nat>, i: nat, from: nat)
    requires i < |values| && values[i] < Range(width) && from == width * i
    ensures from + width <= |LeTable(width, values)|
    ensures LittleEndianSum(LeTable(width, values)[from..from + width], width) == values[i]
  {
    LeTableAt(width, values, i, from);
    WrittenBytesWeigh(width, values[i]);
  }

  /** The fixed bytes of every header: the name and revisions of the format, least significant byte first. */
  lemma HeaderStartsWith(s: bytes, h: IndexHeader)
    requires Encodes(s, h)
    ensures s[0..8] == [0x4D, 0x44, 0x4B, 0x49, 0x44, 0x58, 0x30, 0x31]
    ensures s[8..12] == [3, 0, 0, 0] && s[12..16] == [4, 3, 2, 1]
    ensures s[32..36] == [1, 0, 0, 0] && s[36..40] == [1, 0, 0, 0] && s[44..48] == [4, 0, 0, 0]
  {
    FieldDigits(s, 8, FORMAT_REVISION, 3, 0, 0, 0);
    FieldDigits(s, 12, ENDIAN_MARKER, 4, 3, 2, 1);
    FieldDigits(s, 32, PARSER_REVISION, 1, 0, 0, 0);
    FieldDigits(s, 36, NORMALIZATION_REVISION, 1, 0, 0, 0);
    FieldDigits(s, 44, SECTION_COUNT, 4, 0, 0, 0);
  }

  lemma FieldDigits(s: bytes, at: nat, n: nat, a: byte, b: byte, c: byte, d: byte)
    requires at + 4 <= |s| && Field(s, at, 4) == n
    requires n == a as int + 0x100 * (b as int) + 0x1_0000 * (c as int) + 0x100_0000 * (d as int)
    ensures s[at..at + 4] == [a, b, c, d]
  {
    FourDigits(s[at..at + 4], n, a, b, c, d);
  }

  lemma FourDigits(s: bytes, n: nat, a: byte, b: byte, c: byte, d: byte)
    requires |s| == 4 && FromLe(s) == n
    requires n == a as int + 0x100 * (b as int) + 0x1_0000 * (c as int) + 0x100_0000 * (d as int)
    ensures s == [a, b, c, d]
  {
    FourBytes(s);
    DigitsAreDetermined(s[0], s[1], s[2], s[3], a, b, c, d);
  }

  lemma DigitsAreDetermined(x: byte, y: byte, z: byte, w: byte, a: byte, b: byte, c: byte, d: byte)
    requires x as int + 0x100 * (y as int) + 0x1_0000 * (z as int) + 0x100_0000 * (w as int) ==
             a as int + 0x100 * (b as int) + 0x1_0000 * (c as int) + 0x100_0000 * (d as int)
    ensures x == a && y == b && z == c && w == d
  {
  }

  /** Signed fields are two's complement: the value of the right sign that differs by nothing or by the whole range. */
  lemma SignedMeans(width: nat, n: nat, range: int)
    requires width > 0 && n < Range(width) && range == Pow256(width)
    ensures ToSigned(width, n) == n || ToSigned(width, n) == n - range
    ensures -range <= 2 * ToSigned(width, n) < range
  {
    RangeIs(width);
    assert range == 2 * (128 * Pow256(width - 1));
  }

  lemma {:induction false} RangeIs(width: nat)
    ensures Range(width) == Pow256(width)
  {
    if width > 0 {
      RangeIs(width - 1);
    }
  }

  // ----- chunk lengths -----

  function Pow2(k: nat): nat {
    if k == 0 then 1 else 2 * Pow2(k - 1)
  }

  lemma {:induction false} PowerIsPower(k: nat)
    ensures IsPowerOfTwo(Pow2(k))
  {
    if k > 0 {
      PowerIsPower(k - 1);
    }
  }

  /** The chunk lengths the options admit are the powers of two. */
  lemma {:induction false} PowersOfTwo(n: nat)
    ensures IsPowerOfTwo(n) <==> exists k: nat :: Pow2(k) == n
  {
    if k: nat :| Pow2(k) == n {
      PowerIsPower(k);
    }
    if n == 1 {
      assert Pow2(0) == 1;
    } else if n > 1 && IsPowerOfTwo(n) {
      PowersOfTwo(n / 2);
      var k: nat :| Pow2(k) == n / 2;
      assert Pow2(k + 1) == n;
    }
  }
}
