/**
 * Queries through a persistent key index (src/core/persistent/query.rs). Whatever the index file says, an answer
 * names only rows whose current source key fits; when the index is known to be the dictionary's own, the answer is
 * the linear scan's, as it is through the in-memory index.
 */
module IndexQuery {
  import opened Bytes
  import opened Dictionary
  import opened IndexCache
  import opened IndexLayout
  import opened IndexView
  import opened KeyBlocks
  import opened LocatorLookup
  import opened LookupSpec
  import opened Normalize
  import opened RecordOrder
  import opened Sequences
  import opened Wrappers

  /** The rows of a dictionary: their raw keys, and the sorted order of their normalized texts. */
  datatype KeyTable = KeyTable(keys: seq<string>, order: seq<nat>)

  /** The index is that of the dictionary, whose rows are `t`. */
  ghost predicate Agrees(dict: Dictionary, view: View, t: KeyTable) {
    && dict.KeysAre(t.keys) && IsOrder(TextsOf(dict.matcher, t.keys), t.order) && |t.order| == |t.keys|
    && view.Valid() && view.Rows() == |t.keys| && view.header.identity == dict.identity
    && RowsAgree(dict, view, t)
  }

  ghost predicate RowsAgree(dict: Dictionary, view: View, t: KeyTable)
    requires view.Valid() && |t.order| == |t.keys|
  {
    && (forall i {:trigger view.Order(i)} | 0 <= i < |t.keys| :: t.order[i] < |t.keys| && view.Order(i) == Ok(t.order[i]))
    && (forall i {:trigger view.RowText(i)} | 0 <= i < |t.keys| :: view.RowText(i) == Ok(dict.matcher.Bytes(t.keys[i])))
    && (forall i {:trigger view.Digest(i)} | 0 <= i < |t.keys| :: view.Digest(i) == Ok(DigestOf(dict.digest, t.keys[i])))
  }

  /** Nothing is known of the index, or it is known to be the dictionary's. */
  ghost predicate Known(dict: Dictionary, view: View, known: Option<KeyTable>) {
    known.Some? ==> Agrees(dict, view, known.value)
  }

  /** Whether a file, an index and what is known of it may be queried together. */
  datatype Soundness = Sound | Unsound

  /** The caches can be trusted and what is known is true: a value, so that every step hands it on as one fact. */
  ghost function Session(file: MdictFile, index: PersistentKeyIndex, known: Option<KeyTable>): Soundness
    reads file, index
  {
    if file.Valid() && index.Valid() && Known(file.dict, index.view, known) then Sound else Unsound
  }

  lemma RepresentingAgrees(dict: Dictionary, view: View)
    requires dict.Valid() && dict.AllGood() && view.header.identity == dict.identity
    requires view.Represents(TextsOf(dict.matcher, dict.Keys()), DigestsOf(dict.digest, dict.Keys()))
    ensures Agrees(dict, view, KeyTable(dict.Keys(), OrderOf(TextsOf(dict.matcher, dict.Keys()))))
  {
    dict.KeysAreKeys();
    OrderOfIsOrder(TextsOf(dict.matcher, dict.Keys()));
  }

  /** The index must describe this very snapshot of the dictionary file. */
  method ValidateDictionaryIdentity(dict: Dictionary, identity: SourceIdentity) returns (r: Result<()>)
    ensures r.Ok? <==> dict.identity == identity
  {
    if dict.identity.sourceBytes != identity.sourceBytes
       || dict.identity.modifiedUnixNanos != identity.modifiedUnixNanos
       || dict.identity.keyCount != identity.keyCount {
      return Err(Reject(SourceIdentityMismatch));
    }
    return Ok(());
  }

  /** What a verified row is: the source has this key there, and the index agrees with it. */
  ghost predicate IsVerified(dict: Dictionary, view: View, ordinal: nat, key: string)
    requires dict.Valid() && view.Valid()
  {
    && dict.KeyIs(ordinal, key)
    && view.RowText(ordinal) == Ok(dict.matcher.Bytes(key))
    && view.Digest(ordinal) == Ok(DigestOf(dict.digest, key))
  }

  /** The source key of a row, provided that the index agrees with it and with the expected text. */
  method VerifiedSourceKey(file: MdictFile, index: PersistentKeyIndex, ordinal: nat, expected: bytes,
                           ghost known: Option<KeyTable>)
    returns (r: Result<string>)
    requires Session(file, index, known) == Sound
    modifies file, index
    ensures Session(file, index, known) == Sound
    ensures r.Ok? ==> IsVerified(file.dict, index.view, ordinal, r.value) && file.dict.matcher.Bytes(r.value) == expected
    ensures known.Some? && ordinal < |known.value.keys| && file.dict.matcher.Bytes(known.value.keys[ordinal]) == expected ==>
              r == Ok(known.value.keys[ordinal])
  {
    var entry :- file.KeyAtOrdinal(ordinal);
    if entry == None {
      return Err(Reject(SourceKeyMismatch(ordinal)));
    }
    var key := entry.value;
    if known.Some? && ordinal < |known.value.keys| {
      SourceKeyFacts(file.dict, index.view, known.value, ordinal, key);
    }
    var normalizedLen :- NormalizedLen(file.dict.normalizer, key);
    var normalized := NormalizeBytesInto(file.dict.normalizer, key, []);
    NilConcat(file.dict.matcher.Bytes(key));
    if normalized != expected {
      return Err(Reject(SourceKeyMismatch(ordinal)));
    }
    var agrees :- RowAgrees(index, ordinal, normalized, DigestOf(file.dict.digest, key));
    if !agrees {
      return Err(Reject(SourceKeyMismatch(ordinal)));
    }
    return Ok(key);
  }

  /** Whether the index stores this text and this digest for a row. */
  method RowAgrees(index: PersistentKeyIndex, ordinal: nat, normalized: bytes, digest: nat) returns (r: Result<bool>)
    requires index.Valid()
    modifies index
    ensures index.Valid()
    ensures r == Ok(true) <==> index.view.RowText(ordinal) == Ok(normalized) && index.view.Digest(ordinal) == Ok(digest)
  {
    var row :- index.RowText(ordinal);
    if row != normalized {
      return Ok(false);
    }
    var stored :- index.RawDigestAt(ordinal);
    return Ok(stored == digest);
  }

  /** What an agreeing index says of a row whose source key is `key`. */
  lemma SourceKeyFacts(dict: Dictionary, view: View, t: KeyTable, ordinal: nat, key: string)
    requires Agrees(dict, view, t) && ordinal < |t.keys| && dict.KeyIs(ordinal, key)
    ensures key == t.keys[ordinal] && |dict.matcher.Bytes(key)| <= USIZE_MAX
    ensures view.RowText(ordinal) == Ok(dict.matcher.Bytes(key)) && view.Digest(ordinal) == Ok(DigestOf(dict.digest, key))
  {
    view.RowTextIsShort(ordinal);
  }

  /** Whether a candidate is raw-exact; only candidates whose stored digest is the query's are read. */
  method IsExactRow(file: MdictFile, index: PersistentKeyIndex, ordinal: nat, normalized: bytes, query: string,
                    ghost known: Option<KeyTable>)
    returns (r: Result<bool>)
    requires Session(file, index, known) == Sound
    modifies file, index
    ensures Session(file, index, known) == Sound
    ensures r == Ok(true) ==> IsVerified(file.dict, index.view, ordinal, query)
    ensures known.Some? && ordinal < |known.value.keys| && file.dict.matcher.Bytes(known.value.keys[ordinal]) == normalized ==>
              r == Ok(Chosen(file.dict.matcher, known.value.keys, ordinal, IsExactly(query)))
  {
    var digest :- index.RawDigestAt(ordinal);
    if digest != DigestOf(file.dict.digest, query) {
      return Ok(false);
    }
    var key :- VerifiedSourceKey(file, index, ordinal, normalized, known);
    return Ok(key == query);
  }

  // ----- ranges of an agreeing index -----

  lemma AgreeingIsReadable(dict: Dictionary, view: View, t: KeyTable)
    requires Agrees(dict, view, t)
    ensures view.AllReadable()
  {
  }

  /** Where a binary search in an agreeing index ends splits the order. */
  lemma BoundarySplits(dict: Dictionary, view: View, t: KeyTable, query: bytes, inclusiveEnd: bool, boundary: nat, j: nat)
    requires Agrees(dict, view, t) && view.IsBoundary(boundary, query, inclusiveEnd) && j < |t.order|
    ensures t.order[j] < |t.keys|
    ensures GoesLeft(TextsOf(dict.matcher, t.keys)[t.order[j]], query, inclusiveEnd) <==> boundary <= j
  {
    TurnSplits(TextsOf(dict.matcher, t.keys), t.order, query, inclusiveEnd, boundary, j);
  }

  lemma LowerBoundaryIsBound(dict: Dictionary, view: View, t: KeyTable, query: bytes, boundary: nat)
    requires Agrees(dict, view, t) && view.IsBoundary(boundary, query, false)
    ensures IsLowerBound(TextsOf(dict.matcher, t.keys), t.order, query, boundary)
  {
    forall j | 0 <= j < |t.order|
      ensures boundary <= j <==> LexLe(query, TextsOf(dict.matcher, t.keys)[t.order[j]])
    {
      BoundarySplits(dict, view, t, query, false, boundary, j);
    }
  }

  lemma UpperBoundaryIsBound(dict: Dictionary, view: View, t: KeyTable, query: bytes, boundary: nat)
    requires Agrees(dict, view, t) && view.IsBoundary(boundary, query, true)
    ensures IsUpperBound(TextsOf(dict.matcher, t.keys), t.order, query, boundary)
  {
    forall j | 0 <= j < |t.order|
      ensures boundary <= j <==> LexLt(query, TextsOf(dict.matcher, t.keys)[t.order[j]])
    {
      BoundarySplits(dict, view, t, query, true, boundary, j);
    }
  }

  /** The rows of the order inside a range. */
  function RowsIn(t: KeyTable, range: Option<(nat, nat)>): seq<nat> {
    if range.Some? && range.value.0 <= range.value.1 <= |t.order| then t.order[range.value.0..range.value.1] else []
  }

  /** The rows an equal range of an agreeing index holds are the linear scan for the query. */
  lemma RangeOfAgreeing(dict: Dictionary, view: View, t: KeyTable, query: string, range: Option<(nat, nat)>)
    requires Agrees(dict, view, t) && IsEqualRange(view, dict.matcher.Bytes(query), range)
    ensures range.Some? ==> range.value.0 < range.value.1 <= |t.order|
    ensures RowsIn(t, range) == ScanFor(dict.matcher, t.keys, NormalizesLike(query))
  {
    var start: nat, end: nat :|
      Brackets(view, dict.matcher.Bytes(query), start, end) && range == RangeOf(start, end);
    var texts, q := TextsOf(dict.matcher, t.keys), dict.matcher.Bytes(query);
    LowerBoundaryIsBound(dict, view, t, q, start);
    UpperBoundaryIsBound(dict, view, t, q, end);
    BoundsAreRange(texts, t.order, q, start, end);
    RangeIsScan(dict.matcher, t.keys, t.order, query, start, end);
    if start == end {
      assert t.order[start..end] == [];
    }
  }

  /** Rows known to normalize as the query does, when anything is known. */
  ghost predicate Alike(m: Matcher, known: Option<KeyTable>, rows: seq<nat>, query: string) {
    known.Some? ==> forall i | 0 <= i < |rows| :: Chosen(m, known.value.keys, rows[i], NormalizesLike(query))
  }

  lemma ScanIsAlike(m: Matcher, t: KeyTable, query: string)
    ensures Alike(m, Some(t), ScanFor(m, t.keys, NormalizesLike(query)), query)
  {
    var rows := ScanFor(m, t.keys, NormalizesLike(query));
    ScanIs(m, t.keys, NormalizesLike(query));
    forall i | 0 <= i < |rows|
      ensures Chosen(m, t.keys, rows[i], NormalizesLike(query))
    {
      assert rows[i] in rows;
    }
  }

  // ----- soundness of answers -----

  /** The current source key of a row passes the test. */
  ghost predicate SourceFits(dict: Dictionary, ordinal: nat, test: Test)
    requires dict.Valid()
  {
    exists key: string :: dict.KeyIs(ordinal, key) && Passes(dict.matcher, key, test)
  }

  ghost predicate AllFit(dict: Dictionary, ordinals: seq<nat>, test: Test)
    requires dict.Valid()
  {
    forall i | 0 <= i < |ordinals| :: SourceFits(dict, ordinals[i], test)
  }

  function TestOf(basis: Basis, query: string): Test {
    match basis
    case RawExact => IsExactly(query)
    case HeaderNormalized => NormalizesLike(query)
    case CaseVariants => IsVariantOf(query)
  }

  // ----- all matches -----

  /** Keeps the raw-exact rows of the candidates, compacting in place. */
  method KeepExact(file: MdictFile, index: PersistentKeyIndex, candidates: seq<nat>, normalized: bytes, query: string,
                   ghost known: Option<KeyTable>)
    returns (r: Result<seq<nat>>)
    requires Session(file, index, known) == Sound
    requires normalized == file.dict.matcher.Bytes(query) && Alike(file.dict.matcher, known, candidates, query)
    modifies file, index
    ensures Session(file, index, known) == Sound
    ensures r.Ok? ==> AllFit(file.dict, r.value, IsExactly(query))
    ensures known.Some? ==> r == Ok(Select(file.dict.matcher, known.value.keys, candidates, IsExactly(query)))
  {
    var ordinals, exactCount := candidates, 0;
    for position := 0 to |ordinals|
      invariant Session(file, index, known) == Sound
      invariant |ordinals| == |candidates| && 0 <= exactCount <= position
      invariant ordinals[position..] == candidates[position..]
      invariant AllFit(file.dict, ordinals[..exactCount], IsExactly(query))
      invariant known.Some? ==>
                  ordinals[..exactCount] == Select(file.dict.matcher, known.value.keys, candidates[..position], IsExactly(query))
    {
      SuffixShrinks(ordinals, position);
      SuffixShrinks(candidates, position);
      var ordinal := ordinals[position];
      var isExact :- IsExactRow(file, index, ordinal, normalized, query, known);
      if known.Some? {
        SelectStep(file.dict.matcher, known.value.keys, candidates, position, IsExactly(query));
      }
      if isExact {
        Compacted(ordinals, exactCount, position, ordinal);
        OneMoreFits(file.dict, ordinals[..exactCount], ordinal, query, IsExactly(query));
        ordinals := ordinals[exactCount := ordinal];
        exactCount := exactCount + 1;
      }
    }
    Whole(candidates);
    return Ok(ordinals[..exactCount]);
  }

  lemma Compacted(ordinals: seq<nat>, exactCount: nat, position: nat, ordinal: nat)
    requires exactCount <= position < |ordinals|
    ensures var now := ordinals[exactCount := ordinal];
            && now[..exactCount + 1] == ordinals[..exactCount] + [ordinal]
            && now[position + 1..] == ordinals[position + 1..]
  {
  }

  /** Verifies every candidate against its source key. */
  method VerifyAll(file: MdictFile, index: PersistentKeyIndex, candidates: seq<nat>, normalized: bytes, ghost query: string,
                   ghost known: Option<KeyTable>)
    returns (r: Result<()>)
    requires Session(file, index, known) == Sound
    requires normalized == file.dict.matcher.Bytes(query) && Alike(file.dict.matcher, known, candidates, query)
    modifies file, index
    ensures Session(file, index, known) == Sound
    ensures r.Ok? ==> AllFit(file.dict, candidates, NormalizesLike(query))
    ensures known.Some? ==> r.Ok?
  {
    for i := 0 to |candidates|
      invariant Session(file, index, known) == Sound
      invariant AllFit(file.dict, candidates[..i], NormalizesLike(query))
    {
      var key :- VerifiedSourceKey(file, index, candidates[i], normalized, known);
      PrefixGrows(candidates, i);
      OneMoreFits(file.dict, candidates[..i], candidates[i], key, NormalizesLike(query));
    }
    Whole(candidates);
    return Ok(());
  }

  /** The limits of a lookup of all matches. */
  ghost predicate MatchesFit(dict: Dictionary, keys: seq<string>, query: string) {
    && |dict.matcher.Bytes(query)| <= dict.locatorBytes
    && 4 * |ScanFor(dict.matcher, keys, NormalizesLike(query))| <= dict.locatorBytes
  }

  /** All matches of a query, with global raw-exact precedence. */
  method Locate(file: MdictFile, index: PersistentKeyIndex, query: string, ghost known: Option<KeyTable>)
    returns (r: Result<Option<Located>>)
    requires Session(file, index, known) == Sound
    modifies file, index
    ensures Session(file, index, known) == Sound
    ensures r.Ok? && r.value.Some? ==> AllFit(file.dict, r.value.value.ordinals, TestOf(r.value.value.basis, query))
    ensures known.Some? ==> (r.Ok? <==> MatchesFit(file.dict, known.value.keys, query))
    ensures known.Some? && r.Ok? ==> r.value == LocateSpec(file.dict.matcher, known.value.keys, query)
  {
    var valid :- ValidateDictionaryIdentity(file.dict, index.view.header.identity);
    var normalized :- NormalizeQuery(file.dict, query);
    if known.Some? {
      AgreeingIsReadable(file.dict, index.view, known.value);
      ExactAmongAlike(file.dict.matcher, known.value.keys, query);
    }
    var range :- index.EqualRange(normalized);
    if known.Some? {
      RangeOfAgreeing(file.dict, index.view, known.value, query, range);
    }
    if range == None {
      return Ok(None);
    }
    r := LocateIn(file, index, query, normalized, range.value.0, range.value.1, known);
  }

  /** The matches inside an equal range. */
  method LocateIn(file: MdictFile, index: PersistentKeyIndex, query: string, normalized: bytes, start: nat, end: nat,
                  ghost known: Option<KeyTable>)
    returns (r: Result<Option<Located>>)
    requires Session(file, index, known) == Sound
    requires normalized == file.dict.matcher.Bytes(query)
    requires start < end && IsAlikeRange(file.dict.matcher, known, query, start, end)
    modifies file, index
    ensures Session(file, index, known) == Sound
    ensures r.Ok? && r.value.Some? ==> AllFit(file.dict, r.value.value.ordinals, TestOf(r.value.value.basis, query))
    ensures known.Some? ==> (r.Ok? <==> 4 * (end - start) <= file.dict.locatorBytes)
    ensures known.Some? && r.Ok? ==> r.value == LocateSpec(file.dict.matcher, known.value.keys, query)
  {
    if 4 * (end - start) > file.dict.locatorBytes {
      return Err(LimitExceeded(MatchBytes));
    }
    ghost var m := file.dict.matcher;
    if known.Some? {
      AgreeingIsReadable(file.dict, index.view, known.value);
      LocateOfAlike(m, known.value.keys, query);
    }
    var ordinals :- index.OrdinalsIn(start, end);
    OrdinalsAreRange(file.dict, index.view, known, query, start, end, ordinals);
    r := DecideBasis(file, index, ordinals, normalized, query, known);
  }

  /** The exact candidates if there are any, otherwise all of them once verified. */
  method DecideBasis(file: MdictFile, index: PersistentKeyIndex, candidates: seq<nat>, normalized: bytes, query: string,
                     ghost known: Option<KeyTable>)
    returns (r: Result<Option<Located>>)
    requires Session(file, index, known) == Sound && candidates != []
    requires normalized == file.dict.matcher.Bytes(query) && Alike(file.dict.matcher, known, candidates, query)
    modifies file, index
    ensures Session(file, index, known) == Sound
    ensures r.Ok? && r.value.Some? ==> AllFit(file.dict, r.value.value.ordinals, TestOf(r.value.value.basis, query))
    ensures known.Some? ==>
              var exact := Select(file.dict.matcher, known.value.keys, candidates, IsExactly(query));
              r == Ok(Some(if exact != [] then Located(RawExact, exact) else Located(HeaderNormalized, candidates)))
  {
    var exact :- KeepExact(file, index, candidates, normalized, query, known);
    if |exact| != 0 {
      return Ok(Some(Located(RawExact, exact)));
    }
    var verified :- VerifyAll(file, index, candidates, normalized, query, known);
    return Ok(Some(Located(HeaderNormalized, candidates)));
  }

  /** The range is the linear scan for the query, when anything is known. */
  ghost predicate IsAlikeRange(m: Matcher, known: Option<KeyTable>, query: string, start: nat, end: nat) {
    known.Some? ==>
      && start <= end <= |known.value.order|
      && known.value.order[start..end] == ScanFor(m, known.value.keys, NormalizesLike(query))
  }

  /** What an agreeing index reads from its equal range is the linear scan. */
  lemma OrdinalsAreRange(dict: Dictionary, view: View, known: Option<KeyTable>, query: string, start: nat, end: nat,
                         ordinals: seq<nat>)
    requires Known(dict, view, known) && view.Valid() && OrdersAre(view, start, ordinals)
    requires IsAlikeRange(dict.matcher, known, query, start, end) && |ordinals| == end - start
    ensures known.Some? ==> ordinals == ScanFor(dict.matcher, known.value.keys, NormalizesLike(query))
    ensures Alike(dict.matcher, known, ordinals, query)
  {
    if known.Some? {
      ScanIsAlike(dict.matcher, known.value, query);
      forall j | 0 <= j < |ordinals|
        ensures ordinals[j] == known.value.order[start..end][j]
      {
        assert view.Order(start + j) == Ok(ordinals[j]);
      }
    }
  }

  lemma OneMoreFits(dict: Dictionary, rows: seq<nat>, row: nat, key: string, test: Test)
    requires dict.Valid() && AllFit(dict, rows, test)
    requires dict.KeyIs(row, key) && Passes(dict.matcher, key, test)
    ensures AllFit(dict, rows + [row], test)
  {
    assert SourceFits(dict, row, test);
  }
}
