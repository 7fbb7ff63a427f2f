/**
 * A validated dictionary file as the lookup layer sees it: key blocks that partition the ordinals, and one
 * decoder per block (src/format/common/descriptors.rs, src/core/keys.rs).
 */
module Dictionary {
  import opened Bytes
  import opened IndexLayout
  import opened LookupSpec
  import opened Normalize
  import opened Wrappers

  /** What a key block says of one entry. */
  datatype Row = Row(recordStart: nat, key: string)

  datatype KeyBlock = KeyBlock(entryStartIndex: nat, entryCount: nat)

  /** Block starts are the running sums of the entry counts, from `start` up to `total`. */
  ghost predicate Covers(blocks: seq<KeyBlock>, start: nat, total: nat) {
    if blocks == [] then start == total
    else
      && blocks[0].entryStartIndex == start
      && blocks[0].entryCount > 0
      && Covers(blocks[1..], start + blocks[0].entryCount, total)
  }

  /** Where block `b` starts, or the end of the last block. */
  function StartOf(blocks: seq<KeyBlock>, b: nat, total: nat): nat
    requires b <= |blocks|
  {
    if b < |blocks| then blocks[b].entryStartIndex else total
  }

  lemma {:induction false} CoversStep(blocks: seq<KeyBlock>, start: nat, total: nat, b: nat)
    requires Covers(blocks, start, total) && b < |blocks|
    ensures blocks[b].entryCount > 0
    ensures start <= blocks[b].entryStartIndex
    ensures StartOf(blocks, b + 1, total) == blocks[b].entryStartIndex + blocks[b].entryCount <= total
    decreases b
  {
    CoversEnds(blocks, start, total);
    if b == 0 {
      if |blocks| > 1 {
        assert blocks[1..][0] == blocks[1];
      }
      CoversEnds(blocks[1..], start + blocks[0].entryCount, total);
    } else {
      CoversStep(blocks[1..], start + blocks[0].entryCount, total, b - 1);
    }
  }

  lemma {:induction false} CoversEnds(blocks: seq<KeyBlock>, start: nat, total: nat)
    requires Covers(blocks, start, total)
    ensures start <= total
  {
    if blocks != [] {
      CoversEnds(blocks[1..], start + blocks[0].entryCount, total);
    }
  }

  /** Earlier blocks end before later ones start. */
  lemma {:induction false} StartsIncrease(blocks: seq<KeyBlock>, start: nat, total: nat, b: nat, c: nat)
    requires Covers(blocks, start, total) && b < c <= |blocks|
    ensures blocks[b].entryStartIndex + blocks[b].entryCount <= StartOf(blocks, c, total) <= total
    decreases c
  {
    CoversStep(blocks, start, total, c - 1);
    if b < c - 1 {
      StartsIncrease(blocks, start, total, b, c - 1);
    }
  }

  predicate StartsAscend(rows: seq<Row>) {
    forall i, j | 0 <= i < j < |rows| :: rows[i].recordStart <= rows[j].recordStart
  }

  predicate StartsWithin(rows: seq<Row>, total: nat) {
    forall i | 0 <= i < |rows| :: rows[i].recordStart <= total
  }

  datatype Dictionary = Dictionary(
    keyBlocks: seq<KeyBlock>,
    totalEntries: nat,
    totalRecordLen: nat,
    /** Reading, decompressing and parsing a block and comparing it with its summaries, without any cache. */
    decode: nat -> Result<seq<Row>>,
    normalizer: Normalizer,
    /** The comparison the normalizer makes. */
    matcher: Matcher,
    /** The digest of a raw key; nothing is asked of it. */
    digest: string -> nat,
    identity: SourceIdentity,
    isMdx: bool,
    locatorEntries: nat,
    locatorBytes: nat,
    decompressedBlockBytes: nat)
  {
    /** What opening a dictionary and parsing one of its blocks establish. */
    ghost predicate Valid() {
      && Covers(keyBlocks, 0, totalEntries) && totalEntries <= U64_MAX
      && identity.keyCount == totalEntries
      && IsMatcherOf(matcher, normalizer)
      && locatorBytes <= USIZE_MAX && decompressedBlockBytes <= USIZE_MAX
      && (forall b | 0 <= b < |keyBlocks| && decode(b).Ok? :: WellParsed(b, decode(b).value))
      && forall key :: DigestOf(digest, key) <= U32_MAX
    }

    /** Exactly the declared entries, their record starts ascending and inside the record stream. */
    ghost predicate WellParsed(b: nat, rows: seq<Row>)
      requires b < |keyBlocks|
    {
      |rows| == keyBlocks[b].entryCount && StartsAscend(rows) && StartsWithin(rows, totalRecordLen)
    }

    lemma RowsAreThere(b: nat)
      requires Valid() && b < |keyBlocks| && decode(b).Ok?
      ensures 0 < |decode(b).value| == keyBlocks[b].entryCount
    {
      CoversStep(keyBlocks, 0, totalEntries, b);
      assert WellParsed(b, decode(b).value);
    }

    /** The rows of block `b` if it decodes and starts no lower than its freshly decoded predecessor ends. */
    function CheckedBlock(b: nat): Result<seq<Row>>
      requires Valid()
    {
      if b >= |keyBlocks| then Err(InvalidFormat)
      else if b == 0 then decode(0)
      else
        match decode(b - 1)
        case Err(e) => Err(e)
        case Ok(previous) =>
          match decode(b)
          case Err(e) => Err(e)
          case Ok(rows) =>
            RowsAreThere(b - 1);
            RowsAreThere(b);
            if previous[|previous| - 1].recordStart > rows[0].recordStart then Err(InvalidData) else Ok(rows)
    }

    /** Every block before block `b` is good. */
    ghost predicate GoodBefore(b: nat)
      requires Valid()
    {
      b <= |keyBlocks| && forall c | 0 <= c < b :: CheckedBlock(c).Ok?
    }

    ghost predicate GoodUpTo(b: nat)
      requires Valid()
    {
      b < |keyBlocks| && GoodBefore(b + 1)
    }

    ghost predicate AllGood()
      requires Valid()
    {
      GoodBefore(|keyBlocks|)
    }

    /** Block `b` holds ordinal `ordinal`. */
    predicate Holds(b: nat, ordinal: nat) {
      b < |keyBlocks| && keyBlocks[b].entryStartIndex <= ordinal < keyBlocks[b].entryStartIndex + keyBlocks[b].entryCount
    }

    /** The row the file has at `ordinal`. */
    ghost predicate RowIs(ordinal: nat, row: Row)
      requires Valid()
    {
      exists b: nat :: RowIsIn(b, ordinal, row)
    }

    ghost predicate RowIsIn(b: nat, ordinal: nat, row: Row)
      requires Valid()
    {
      && Holds(b, ordinal)
      && CheckedBlock(b).Ok?
      && ordinal - keyBlocks[b].entryStartIndex < |CheckedBlock(b).value|
      && CheckedBlock(b).value[ordinal - keyBlocks[b].entryStartIndex] == row
    }

    ghost predicate KeyIs(ordinal: nat, key: string)
      requires Valid()
    {
      exists row: Row :: RowIs(ordinal, row) && row.key == key
    }

    /** An ordinal lies in one block only. */
    lemma HoldsOnce(b: nat, c: nat, ordinal: nat)
      requires Valid() && Holds(b, ordinal) && Holds(c, ordinal)
      ensures b == c
    {
      if b < c {
        StartsIncrease(keyBlocks, 0, totalEntries, b, c);
      } else if c < b {
        StartsIncrease(keyBlocks, 0, totalEntries, c, b);
      }
    }

    lemma RowIsUnique(ordinal: nat, row: Row, row': Row)
      requires Valid() && RowIs(ordinal, row) && RowIs(ordinal, row')
      ensures row == row'
    {
      var b: nat :| RowIsIn(b, ordinal, row);
      var c: nat :| RowIsIn(c, ordinal, row');
      HoldsOnce(b, c, ordinal);
    }

    lemma KeyIsUnique(ordinal: nat, key: string, key': string)
      requires Valid() && KeyIs(ordinal, key) && KeyIs(ordinal, key')
      ensures key == key'
    {
      var row :| RowIs(ordinal, row) && row.key == key;
      var row' :| RowIs(ordinal, row') && row'.key == key';
      RowIsUnique(ordinal, row, row');
    }

    // ----- all rows of a good dictionary -----

    /** The rows of the blocks before block `b`. */
    ghost function RowsBefore(b: nat): seq<Row>
      requires Valid() && GoodBefore(b)
    {
      if b == 0 then [] else RowsBefore(b - 1) + CheckedBlock(b - 1).value
    }

    ghost function AllRows(): seq<Row>
      requires Valid() && AllGood()
    {
      RowsBefore(|keyBlocks|)
    }

    lemma BlockLength(b: nat)
      requires Valid() && b < |keyBlocks| && CheckedBlock(b).Ok?
      ensures CheckedBlock(b) == decode(b) && 0 < |CheckedBlock(b).value| == keyBlocks[b].entryCount
      ensures StartsAscend(CheckedBlock(b).value) && StartsWithin(CheckedBlock(b).value, totalRecordLen)
      ensures StartOf(keyBlocks, b + 1, totalEntries) == keyBlocks[b].entryStartIndex + keyBlocks[b].entryCount
    {
      RowsAreThere(b);
      CoversStep(keyBlocks, 0, totalEntries, b);
      assert WellParsed(b, decode(b).value);
    }

    lemma {:induction false} RowsBeforeLength(b: nat)
      requires Valid() && GoodBefore(b)
      ensures |RowsBefore(b)| == StartOf(keyBlocks, b, totalEntries)
    {
      if b > 0 {
        RowsBeforeLength(b - 1);
        BlockLength(b - 1);
      }
    }

    lemma {:induction false} RowsBeforeExtends(b: nat, c: nat)
      requires Valid() && b <= c && GoodBefore(c)
      ensures RowsBefore(b) <= RowsBefore(c)
      decreases c
    {
      if b < c {
        RowsBeforeExtends(b, c - 1);
      }
    }

    lemma LastRowBefore(b: nat)
      requires Valid() && 0 < b && GoodBefore(b)
      ensures RowsBefore(b) != [] && CheckedBlock(b - 1).value != []
      ensures var rows := CheckedBlock(b - 1).value;
              RowsBefore(b)[|RowsBefore(b)| - 1] == rows[|rows| - 1]
    {
      BlockLength(b - 1);
    }

    /** A good block starts no lower than everything before it ends. */
    lemma BlockStartsBehind(b: nat)
      requires Valid() && GoodBefore(b + 1)
      ensures CheckedBlock(b).value != []
      ensures b > 0 ==> RowsBefore(b) != [] &&
                        RowsBefore(b)[|RowsBefore(b)| - 1].recordStart <= CheckedBlock(b).value[0].recordStart
    {
      BlockLength(b);
      if b > 0 {
        LastRowBefore(b);
        BlockLength(b - 1);
      }
    }

    /** Across block boundaries too, record starts ascend and stay inside the record stream. */
    lemma {:induction false} RowsBeforeAscend(b: nat)
      requires Valid() && GoodBefore(b)
      ensures StartsAscend(RowsBefore(b)) && StartsWithin(RowsBefore(b), totalRecordLen)
    {
      if b > 0 {
        RowsBeforeAscend(b - 1);
        BlockStartsBehind(b - 1);
        BlockLength(b - 1);
        AppendAscends(RowsBefore(b - 1), CheckedBlock(b - 1).value, totalRecordLen);
      }
    }

    /** The row of the file at an ordinal is the row of the concatenation. */
    lemma RowOfAll(b: nat, ordinal: nat)
      requires Valid() && AllGood() && Holds(b, ordinal)
      ensures |AllRows()| == totalEntries && ordinal < totalEntries
      ensures RowIsIn(b, ordinal, AllRows()[ordinal])
    {
      RowsBeforeLength(b);
      BlockLength(b);
      RowsBeforeExtends(b + 1, |keyBlocks|);
      RowsBeforeLength(|keyBlocks|);
      var local := ordinal - keyBlocks[b].entryStartIndex;
      assert RowsBefore(b + 1)[|RowsBefore(b)| + local] == CheckedBlock(b).value[local];
    }

    /** The raw keys in ordinal order. */
    ghost function Keys(): (keys: seq<string>)
      requires Valid() && AllGood()
      ensures |keys| == totalEntries
    {
      RowsBeforeLength(|keyBlocks|);
      KeysOf(AllRows())
    }

    /** Every block is good, and `keys` are the raw keys. */
    ghost predicate KeysAre(keys: seq<string>)
    {
      && Valid() && AllGood()
      && |keys| == totalEntries
      && forall ordinal: nat, key: string | KeyIs(ordinal, key) :: ordinal < |keys| && keys[ordinal] == key
    }

    lemma KeysAreKeys()
      requires Valid() && AllGood()
      ensures KeysAre(Keys())
    {
      forall ordinal: nat, key: string | KeyIs(ordinal, key)
        ensures ordinal < |Keys()| && Keys()[ordinal] == key
      {
        KeyOfAll(ordinal, key);
      }
    }

    lemma KeyOfAll(ordinal: nat, key: string)
      requires Valid() && AllGood() && KeyIs(ordinal, key)
      ensures ordinal < totalEntries && Keys()[ordinal] == key
    {
      var row :| RowIs(ordinal, row) && row.key == key;
      var b: nat :| RowIsIn(b, ordinal, row);
      RowOfAll(b, ordinal);
    }
  }

  lemma AppendAscends(before: seq<Row>, rows: seq<Row>, total: nat)
    requires StartsAscend(before) && StartsAscend(rows) && StartsWithin(before, total) && StartsWithin(rows, total)
    requires rows != [] && (before != [] ==> before[|before| - 1].recordStart <= rows[0].recordStart)
    ensures StartsAscend(before + rows) && StartsWithin(before + rows, total)
  {
    var all := before + rows;
    forall i, j | 0 <= i < j < |all|
      ensures all[i].recordStart <= all[j].recordStart
    {
      if i < |before| <= j {
        assert all[i].recordStart <= before[|before| - 1].recordStart;
        assert rows[0].recordStart <= all[j].recordStart;
      }
    }
  }

  function KeysOf(rows: seq<Row>): (keys: seq<string>)
    ensures |keys| == |rows|
    ensures forall i {:trigger keys[i]} | 0 <= i < |rows| :: keys[i] == rows[i].key
  {
    seq(|rows|, i requires 0 <= i < |rows| => rows[i].key)
  }

  lemma KeysAppend(rows: seq<Row>, row: Row)
    ensures KeysOf(rows + [row]) == KeysOf(rows) + [row.key]
  {
  }
}
