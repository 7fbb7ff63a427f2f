/** Prefix queries and scans through a persistent key index (src/core/persistent/query.rs). */
module IndexPrefix {
  import opened Bytes
  import opened Dictionary
  import opened IndexCache
  import opened IndexQuery
  import opened IndexView
  import opened KeyBlocks
  import opened LocatorLookup
  import opened LookupSpec
  import opened RecordOrder
  import opened Sequences
  import opened Wrappers

  datatype KeyEntry = KeyEntry(ordinal: nat, key: string)

  /** The entries of rows of the dictionary. */
  function EntriesOf(keys: seq<string>, ordinals: seq<nat>): (entries: seq<KeyEntry>)
    ensures |entries| == |ordinals|
  {
    seq(|ordinals|, i requires 0 <= i < |ordinals| => EntryOf(keys, ordinals[i]))
  }

  function EntryOf(keys: seq<string>, ordinal: nat): KeyEntry {
    KeyEntry(ordinal, if ordinal < |keys| then keys[ordinal] else "")
  }

  lemma EntriesAppend(keys: seq<string>, ordinals: seq<nat>, ordinal: nat)
    ensures EntriesOf(keys, ordinals + [ordinal]) == EntriesOf(keys, ordinals) + [EntryOf(keys, ordinal)]
  {
  }

  /** The entry is the file's, and its normalized key starts with the prefix. */
  ghost predicate EntryFits(dict: Dictionary, entry: KeyEntry, prefix: string)
    requires dict.Valid()
  {
    dict.KeyIs(entry.ordinal, entry.key) && dict.matcher.Bytes(prefix) <= dict.matcher.Bytes(entry.key)
  }

  ghost predicate EntriesFit(dict: Dictionary, entries: seq<KeyEntry>, prefix: string)
    requires dict.Valid()
  {
    forall i | 0 <= i < |entries| :: EntryFits(dict, entries[i], prefix)
  }

  /** The verified entry at a position of the order, if its text starts with the prefix. */
  method PrefixEntryAt(file: MdictFile, index: PersistentKeyIndex, position: nat, normalized: bytes, ghost prefix: string,
                       ghost known: Option<KeyTable>)
    returns (r: Result<Option<KeyEntry>>)
    requires Session(file, index, known) == Sound
    requires normalized == file.dict.matcher.Bytes(prefix)
    modifies file, index
    ensures Session(file, index, known) == Sound
    ensures r.Ok? && r.value.Some? ==> EntryFits(file.dict, r.value.value, prefix)
    ensures known.Some? && position < |known.value.order| ==>
              && known.value.order[position] < |known.value.keys|
              && r == Ok(if Passes(file.dict.matcher, known.value.keys[known.value.order[position]], StartsLike(prefix))
                         then Some(KeyEntry(known.value.order[position], known.value.keys[known.value.order[position]]))
                         else None)
  {
    if known.Some? && position < |known.value.order| {
      RowFacts(file.dict, index.view, known.value, position);
    }
    var ordinal :- index.OrderAt(position);
    var row :- index.RowText(ordinal);
    if !(normalized <= row) {
      return Ok(None);
    }
    var key :- VerifiedSourceKey(file, index, ordinal, row, known);
    return Ok(Some(KeyEntry(ordinal, key)));
  }

  lemma RowFacts(dict: Dictionary, view: View, t: KeyTable, position: nat)
    requires Agrees(dict, view, t) && position < |t.order|
    ensures view.Order(position) == Ok(t.order[position]) && t.order[position] < |t.keys|
    ensures view.RowText(t.order[position]) == Ok(dict.matcher.Bytes(t.keys[t.order[position]]))
  {
    assert view.Order(position) == Ok(t.order[position]);
  }

  /** What a prefix run has found: the entries of the order's first rows that start with the prefix. */
  ghost function FoundBefore(m: Matcher, t: KeyTable, prefix: string, position: nat): seq<KeyEntry>
    requires position <= |t.order|
  {
    EntriesOf(t.keys, Select(m, t.keys, t.order[..position], StartsLike(prefix)))
  }

  lemma RunStep(m: Matcher, t: KeyTable, prefix: string, position: nat)
    requires position < |t.order| && t.order[position] < |t.keys|
    requires Passes(m, t.keys[t.order[position]], StartsLike(prefix))
    ensures FoundBefore(m, t, prefix, position + 1) ==
            FoundBefore(m, t, prefix, position) + [KeyEntry(t.order[position], t.keys[t.order[position]])]
  {
    SelectStep(m, t.keys, t.order, position, StartsLike(prefix));
    EntriesAppend(t.keys, Select(m, t.keys, t.order[..position], StartsLike(prefix)), t.order[position]);
  }

  /** The linear scan's entries. */
  ghost function PrefixAnswer(m: Matcher, t: KeyTable, prefix: string, limit: nat): seq<KeyEntry> {
    EntriesOf(t.keys, PrefixSpec(m, t.keys, prefix, limit))
  }

  /** A run that is full, or behind which no row starts with the prefix, is the answer. */
  lemma RunIsAnswer(m: Matcher, t: KeyTable, prefix: string, position: nat, limit: nat, found: seq<KeyEntry>)
    requires IsOrder(TextsOf(m, t.keys), t.order) && position <= |t.order| && found == FoundBefore(m, t, prefix, position)
    requires |found| == limit || (|found| <= limit &&
             Select(m, t.keys, t.order[..position], StartsLike(prefix)) == Select(m, t.keys, t.order, StartsLike(prefix)))
    ensures found == PrefixAnswer(m, t, prefix, limit)
  {
    var ordinals, all := Select(m, t.keys, t.order[..position], StartsLike(prefix)), Select(m, t.keys, t.order, StartsLike(prefix));
    OrderIsUnique(TextsOf(m, t.keys), t.order);
    SelectionGrows(m, t.keys, t.order, position, StartsLike(prefix));
    FirstMatches(ordinals, all, limit);
  }

  /** The entries whose normalized key starts with the prefix, in normalized order, at most `limit` of them. */
  method Prefix(file: MdictFile, index: PersistentKeyIndex, prefix: string, limit: nat, ghost known: Option<KeyTable>)
    returns (r: Result<seq<KeyEntry>>)
    requires Session(file, index, known) == Sound
    modifies file, index
    ensures Session(file, index, known) == Sound
    ensures r.Ok? ==> |r.value| <= limit && EntriesFit(file.dict, r.value, prefix)
    ensures known.Some? ==> (r.Ok? <==> limit == 0 || |file.dict.matcher.Bytes(prefix)| <= file.dict.locatorBytes)
    ensures known.Some? && r.Ok? ==> r.value == PrefixAnswer(file.dict.matcher, known.value, prefix, limit)
  {
    if limit == 0 {
      return Ok([]);
    }
    var valid :- ValidateDictionaryIdentity(file.dict, index.view.header.identity);
    var normalized :- NormalizeQuery(file.dict, prefix);
    if known.Some? {
      AgreeingIsReadable(file.dict, index.view, known.value);
    }
    var start :- index.LowerBound(normalized, false);
    if known.Some? {
      LowerBoundaryIsBound(file.dict, index.view, known.value, normalized, start);
    }
    r := PrefixRun(file, index, prefix, normalized, start, limit, known);
  }

  /** Collects entries from the lower bound on. */
  method PrefixRun(file: MdictFile, index: PersistentKeyIndex, ghost prefix: string, normalized: bytes, start: nat, limit: nat,
                   ghost known: Option<KeyTable>)
    returns (r: Result<seq<KeyEntry>>)
    requires Session(file, index, known) == Sound
    requires normalized == file.dict.matcher.Bytes(prefix) && start <= index.view.Rows() && 0 < limit
    requires known.Some? ==> StartsRun(file.dict.matcher, known.value, prefix, start)
    modifies file, index
    ensures Session(file, index, known) == Sound
    ensures r.Ok? ==> |r.value| <= limit && EntriesFit(file.dict, r.value, prefix)
    ensures known.Some? ==> r == Ok(PrefixAnswer(file.dict.matcher, known.value, prefix, limit))
  {
    ghost var m := file.dict.matcher;
    if known.Some? {
      RunBegins(m, known.value, prefix, start);
    }
    var found: seq<KeyEntry> := [];
    var position := start;
    while position < index.view.Rows() && |found| < limit
      invariant Session(file, index, known) == Sound
      invariant start <= position <= index.view.Rows() && |found| <= limit && EntriesFit(file.dict, found, prefix)
      invariant known.Some? ==> found == FoundBefore(m, known.value, prefix, position)
    {
      var entry :- PrefixEntryAt(file, index, position, normalized, prefix, known);
      if entry == None {
        break;
      }
      if known.Some? {
        RunStep(m, known.value, prefix, position);
      }
      found := found + [entry.value];
      position := position + 1;
    }
    if known.Some? {
      RunIsOver(m, known.value, prefix, start, position, limit, found);
    }
    return Ok(found);
  }

  /** The order stops being below the prefix at `start`. */
  ghost predicate StartsRun(m: Matcher, t: KeyTable, prefix: string, start: nat) {
    IsLowerBound(TextsOf(m, t.keys), t.order, m.Bytes(prefix), start)
  }

  /** A run ends at the end of the order, at the limit, or at a row that does not start with the prefix. */
  lemma RunIsOver(m: Matcher, t: KeyTable, prefix: string, start: nat, position: nat, limit: nat, found: seq<KeyEntry>)
    requires StartsRun(m, t, prefix, start)
    requires start <= position <= |t.order| && |found| <= limit && found == FoundBefore(m, t, prefix, position)
    requires position == |t.order| || |found| == limit
             || (t.order[position] < |t.keys| && !Passes(m, t.keys[t.order[position]], StartsLike(prefix)))
    ensures found == PrefixAnswer(m, t, prefix, limit)
  {
    if position == |t.order| || |found| == limit {
      RunCompletes(m, t, prefix, position, limit, found);
    } else {
      PrefixRunEnds(m, t.keys, t.order, prefix, start, position);
      RunIsAnswer(m, t, prefix, position, limit, found);
    }
  }

  lemma RunCompletes(m: Matcher, t: KeyTable, prefix: string, position: nat, limit: nat, found: seq<KeyEntry>)
    requires IsOrder(TextsOf(m, t.keys), t.order) && position <= |t.order| && found == FoundBefore(m, t, prefix, position)
    requires |found| <= limit && (position == |t.order| || |found| == limit)
    ensures found == PrefixAnswer(m, t, prefix, limit)
  {
    Whole(t.order);
    RunIsAnswer(m, t, prefix, position, limit, found);
  }

  lemma RunBegins(m: Matcher, t: KeyTable, prefix: string, start: nat)
    requires StartsRun(m, t, prefix, start)
    ensures start <= |t.order| && FoundBefore(m, t, prefix, start) == []
  {
    PrefixRunStarts(m, t.keys, t.order, prefix, start);
  }

  // ----- scanning -----

  /** A visited row has that ordinal, and its current source key normalizes to the visited text. */
  ghost predicate VisitFits(dict: Dictionary, visit: Visit, row: nat)
    requires dict.Valid()
  {
    visit.ordinal == row && exists key: string :: dict.KeyIs(row, key) && dict.matcher.Bytes(key) == visit.text
  }

  /** The verified text of a row. */
  method VisitAt(file: MdictFile, index: PersistentKeyIndex, row: nat, ghost known: Option<KeyTable>)
    returns (r: Result<Visit>)
    requires Session(file, index, known) == Sound && row < index.view.Rows()
    modifies file, index
    ensures Session(file, index, known) == Sound
    ensures r.Ok? ==> VisitFits(file.dict, r.value, row)
    ensures known.Some? ==> r == Ok(Visit(row, file.dict.matcher.Bytes(known.value.keys[row])))
  {
    var text :- index.RowText(row);
    var key :- VerifiedSourceKey(file, index, row, text, known);
    return Ok(Visit(row, text));
  }

  /** Visits every normalized key in physical order, until the visitor breaks off. */
  method Scan(file: MdictFile, index: PersistentKeyIndex, stopAfter: Option<nat>, ghost known: Option<KeyTable>)
    returns (r: Result<seq<Visit>>)
    requires Session(file, index, known) == Sound
    modifies file, index
    ensures Session(file, index, known) == Sound
    ensures r.Ok? ==> forall i | 0 <= i < |r.value| :: VisitFits(file.dict, r.value[i], i)
    ensures known.Some? ==> r == Ok(VisitsOf(TextsOf(file.dict.matcher, known.value.keys), stopAfter))
  {
    var valid :- ValidateDictionaryIdentity(file.dict, index.view.header.identity);
    var visits: seq<Visit> := [];
    for row := 0 to index.view.Rows()
      invariant Session(file, index, known) == Sound
      invariant |visits| == row && (stopAfter.Some? ==> row < Max(stopAfter.value, 1))
      invariant forall i | 0 <= i < row :: VisitFits(file.dict, visits[i], i)
      invariant known.Some? ==> VisitsAre(file.dict.matcher, known.value.keys, visits)
    {
      if row > U32_MAX {
        return Err(Reject(InvalidLayout));
      }
      var visit :- VisitAt(file, index, row, known);
      visits := visits + [visit];
      if stopAfter.Some? && |visits| >= stopAfter.value {
        if known.Some? {
          VisitsAreAll(file.dict.matcher, known.value.keys, visits, stopAfter);
        }
        return Ok(visits);
      }
    }
    if known.Some? {
      VisitsAreAll(file.dict.matcher, known.value.keys, visits, stopAfter);
    }
    return Ok(visits);
  }

  lemma VisitsAreAll(m: Matcher, keys: seq<string>, visits: seq<Visit>, stopAfter: Option<nat>)
    requires VisitsAre(m, keys, visits)
    requires |visits| == |keys| || (stopAfter.Some? && |visits| == Max(stopAfter.value, 1))
    requires stopAfter.Some? ==> |visits| <= Max(stopAfter.value, 1)
    ensures visits == VisitsOf(TextsOf(m, keys), stopAfter)
  {
  }

  /** The first visits of a scan over these keys. */
  ghost predicate VisitsAre(m: Matcher, keys: seq<string>, visits: seq<Visit>) {
    |visits| <= |keys| && forall i | 0 <= i < |visits| :: visits[i] == Visit(i, m.Bytes(keys[i]))
  }
}
