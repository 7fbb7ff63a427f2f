/** Iteration over keys and records, block by block (src/core/iter.rs). */
module Iterators {
  import opened Dictionary
  import opened IndexPrefix
  import opened KeyBlocks
  import opened RecordSpans
  import opened Wrappers

  /** The ordinal an iterator yields next. */
  function PositionOf(dict: Dictionary, blockIndex: nat, entryIndex: nat, current: Option<seq<Row>>): nat
    requires blockIndex <= |dict.keyBlocks|
  {
    StartOf(dict.keyBlocks, blockIndex, dict.totalEntries) + if current.Some? then entryIndex else 0
  }

  /** The loaded block is the one the iterator stands in. */
  ghost predicate Standing(dict: Dictionary, blockIndex: nat, entryIndex: nat, current: Option<seq<Row>>)
    requires dict.Valid()
  {
    && blockIndex <= |dict.keyBlocks|
    && (current.Some? ==>
          blockIndex < |dict.keyBlocks| && dict.CheckedBlock(blockIndex) == Ok(current.value) && entryIndex <= |current.value|)
  }

  class KeyIter {
    const file: MdictFile
    var blockIndex: nat
    var entryIndex: nat
    var currentBlock: Option<seq<Row>>
    var done: bool

    ghost predicate Valid()
      reads this, file
    {
      file.Valid() && Standing(file.dict, blockIndex, entryIndex, currentBlock)
    }

    /** The ordinal of the next key. */
    ghost function Position(): nat
      requires Valid()
      reads this, file
    {
      PositionOf(file.dict, blockIndex, entryIndex, currentBlock)
    }

    constructor (file: MdictFile)
      requires file.Valid()
      ensures this.file == file && Valid() && !done && Position() == 0
    {
      this.file := file;
      blockIndex, entryIndex, currentBlock, done := 0, 0, None, false;
      new;
      FirstBlockStartsAtZero(file.dict);
    }

    /**
     * The next key. Keys come in ordinal order and each is the file's key; an error or the end is final; a good
     * file yields every key.
     */
    method Next() returns (r: Option<Result<KeyEntry>>)
      requires Valid()
      modifies this, file
      ensures Valid()
      ensures old(done) ==> r == None && done
      ensures !old(done) && r == None ==> done && old(Position()) == file.dict.totalEntries
      ensures r.Some? && r.value.Err? ==> done && !file.dict.AllGood()
      ensures r.Some? && r.value.Ok? ==>
                && !done && r.value.value.ordinal == old(Position()) < file.dict.totalEntries && Position() == old(Position()) + 1
                && file.dict.KeyIs(r.value.value.ordinal, r.value.value.key)
    {
      if done {
        return None;
      }
      while true
        invariant Valid() && !done && Position() == old(Position())
        decreases |file.dict.keyBlocks| - blockIndex, if currentBlock.Some? then 0 else 1
      {
        if blockIndex >= |file.dict.keyBlocks| {
          done := true;
          return None;
        }
        if currentBlock == None {
          var loaded := Load();
          if loaded.Err? {
            done := true;
            return Some(Err(loaded.error));
          }
        }
        file.dict.BlockLength(blockIndex);
        if entryIndex >= |currentBlock.value| {
          blockIndex, currentBlock := blockIndex + 1, None;
          continue;
        }
        var yielded := Yield();
        return Some(Ok(yielded));
      }
    }

    /** Yields the key the iterator stands at. */
    method Yield() returns (r: KeyEntry)
      requires Valid() && currentBlock.Some? && entryIndex < |currentBlock.value|
      modifies this`entryIndex
      ensures Valid() && Position() == old(Position()) + 1
      ensures r.ordinal == old(Position()) < file.dict.totalEntries && file.dict.KeyIs(r.ordinal, r.key)
    {
      file.dict.BlockLength(blockIndex);
      RowIsKey(file.dict, blockIndex, entryIndex);
      var ordinal := file.dict.keyBlocks[blockIndex].entryStartIndex + entryIndex;
      r := KeyEntry(ordinal, currentBlock.value[entryIndex].key);
      entryIndex := entryIndex + 1;
    }

    /** Loads the block the iterator stands before. */
    method Load() returns (r: Result<()>)
      requires Valid() && currentBlock == None && blockIndex < |file.dict.keyBlocks|
      modifies this, file
      ensures Valid() && blockIndex == old(blockIndex) && done == old(done) && Position() == old(Position())
      ensures r.Ok? ==> currentBlock.Some? && entryIndex == 0
      ensures r.Err? ==> !file.dict.AllGood()
    {
      var entries :- file.DecodeKeyBlock(blockIndex);
      currentBlock, entryIndex := Some(entries), 0;
      return Ok(());
    }
  }

  lemma FirstBlockStartsAtZero(dict: Dictionary)
    requires dict.Valid()
    ensures StartOf(dict.keyBlocks, 0, dict.totalEntries) == 0
  {
  }

  lemma RowIsKey(dict: Dictionary, b: nat, i: nat)
    requires dict.Valid() && b < |dict.keyBlocks| && dict.CheckedBlock(b).Ok? && i < |dict.CheckedBlock(b).value|
    ensures dict.keyBlocks[b].entryStartIndex + i < dict.totalEntries
    ensures dict.KeyIs(dict.keyBlocks[b].entryStartIndex + i, dict.CheckedBlock(b).value[i].key)
  {
    dict.BlockLength(b);
    CoversStep(dict.keyBlocks, 0, dict.totalEntries, b);
    var row := dict.CheckedBlock(b).value[i];
    assert dict.RowIsIn(b, dict.keyBlocks[b].entryStartIndex + i, row);
    assert dict.RowIs(dict.keyBlocks[b].entryStartIndex + i, row);
  }

  class RecordIter {
    const file: MdictFile
    var blockIndex: nat
    var entryIndex: nat
    var currentBlock: Option<seq<Row>>
    var done: bool

    ghost predicate Valid()
      reads this, file
    {
      file.Valid() && Standing(file.dict, blockIndex, entryIndex, currentBlock)
    }

    ghost function Position(): nat
      requires Valid()
      reads this, file
    {
      PositionOf(file.dict, blockIndex, entryIndex, currentBlock)
    }

    constructor (file: MdictFile)
      requires file.Valid()
      ensures this.file == file && Valid() && !done && Position() == 0
    {
      this.file := file;
      blockIndex, entryIndex, currentBlock, done := 0, 0, None, false;
      new;
      FirstBlockStartsAtZero(file.dict);
    }

    /** Loads the block the iterator stands before. */
    method Load() returns (r: Result<()>)
      requires Valid() && currentBlock == None && blockIndex < |file.dict.keyBlocks|
      modifies this, file
      ensures Valid() && blockIndex == old(blockIndex) && done == old(done) && Position() == old(Position())
      ensures r.Ok? ==> currentBlock.Some? && entryIndex == 0
      ensures r.Err? ==> !file.dict.AllGood()
    {
      var entries :- file.DecodeKeyBlock(blockIndex);
      currentBlock, entryIndex := Some(entries), 0;
      return Ok(());
    }

    /** Yields the record the iterator stands at; the block is let go before the next one is decoded. */
    method Yield() returns (r: Result<RecordDescriptor>)
      requires Valid() && currentBlock.Some? && entryIndex < |currentBlock.value|
      modifies this, file
      ensures Valid() && Position() == old(Position()) + 1
      ensures done == (r.Err? || old(done))
      ensures r.Err? ==> !file.dict.AllGood()
      ensures r.Ok? ==> IsDescriptor(file.dict, r.value) && r.value.ordinal == old(Position())
    {
      var entries, b, i := currentBlock.value, blockIndex, entryIndex;
      file.dict.BlockLength(b);
      var isLastInBlock := i + 1 == |entries|;
      if isLastInBlock {
        currentBlock := None;
      }
      r := RecordDescriptorFromHit(file, KeyBlockHit(b, i, entries));
      if isLastInBlock {
        blockIndex, entryIndex := b + 1, 0;
      } else {
        entryIndex := i + 1;
      }
      if r.Err? {
        done := true;
      } else {
        assert IsDescriptorIn(file.dict, r.value, b, i);
      }
    }

    /**
     * The next record. Records come in ordinal order and each is what per-ordinal access gives; an error or the
     * end is final; a good file yields every record.
     */
    method Next() returns (r: Option<Result<RecordDescriptor>>)
      requires Valid()
      modifies this, file
      ensures Valid()
      ensures old(done) ==> r == None && done
      ensures !old(done) && r == None ==> done && old(Position()) == file.dict.totalEntries
      ensures r.Some? && r.value.Err? ==> done && !file.dict.AllGood()
      ensures r.Some? && r.value.Ok? ==>
                && !done && r.value.value.ordinal == old(Position()) && Position() == old(Position()) + 1
                && IsDescriptor(file.dict, r.value.value)
    {
      if done {
        return None;
      }
      while true
        invariant Valid() && !done && Position() == old(Position())
        decreases |file.dict.keyBlocks| - blockIndex, if currentBlock.Some? then 0 else 1
      {
        if blockIndex >= |file.dict.keyBlocks| {
          done := true;
          return None;
        }
        if currentBlock == None {
          var loaded := Load();
          if loaded.Err? {
            done := true;
            return Some(Err(loaded.error));
          }
        }
        file.dict.BlockLength(blockIndex);
        if entryIndex >= |currentBlock.value| {
          blockIndex, currentBlock := blockIndex + 1, None;
          continue;
        }
        var yielded := Yield();
        return Some(yielded);
      }
    }
  }
}
