/** Paged, prefix and scanning queries through a persistent key index (src/core/persistent/query.rs). */
module IndexPages {
  import opened Bytes
  import opened Dictionary
  import opened IndexCache
  import opened IndexQuery
  import opened IndexView
  import opened KeyBlocks
  import opened LocatorLookup
  import opened LookupSpec
  import opened Normalize
  import opened Wrappers

  // ----- pages -----

  /** Every row of the range normalizes as the query does, when anything is known. */
  ghost predicate RangeIsAlike(m: Matcher, known: Option<KeyTable>, query: string, start: nat, end: nat) {
    known.Some? ==>
      && start <= end <= |known.value.order|
      && forall j {:trigger Chosen(m, known.value.keys, known.value.order[j], NormalizesLike(query))} | start <= j < end ::
           Chosen(m, known.value.keys, known.value.order[j], NormalizesLike(query))
  }

  /** The row at a position of a range. */
  method CandidateAt(file: MdictFile, index: PersistentKeyIndex, ghost query: string, start: nat, end: nat, position: nat,
                     ghost known: Option<KeyTable>)
    returns (r: Result<nat>)
    requires Session(file, index, known) == Sound
    requires start <= position < end && RangeIsAlike(file.dict.matcher, known, query, start, end)
    modifies index
    ensures index.Valid()
    ensures known.Some? ==>
              r == Ok(known.value.order[position]) && Chosen(file.dict.matcher, known.value.keys, r.value, NormalizesLike(query))
  {
    r := index.OrderAt(position);
  }

  /** The row at a position, and whether it is raw-exact. */
  method ExactAt(file: MdictFile, index: PersistentKeyIndex, query: string, normalized: bytes, start: nat, end: nat,
                 position: nat, ghost known: Option<KeyTable>)
    returns (r: Result<(nat, bool)>)
    requires Session(file, index, known) == Sound && start <= position < end
    requires normalized == file.dict.matcher.Bytes(query)
    requires RangeIsAlike(file.dict.matcher, known, query, start, end)
    modifies file, index
    ensures Session(file, index, known) == Sound
    ensures r.Ok? && r.value.1 ==> SourceFits(file.dict, r.value.0, IsExactly(query))
    ensures known.Some? ==>
              r == Ok((known.value.order[position],
                       Chosen(file.dict.matcher, known.value.keys, known.value.order[position], IsExactly(query))))
  {
    var ordinal :- CandidateAt(file, index, query, start, end, position, known);
    var isExact :- IsExactRow(file, index, ordinal, normalized, query, known);
    return Ok((ordinal, isExact));
  }

  /** The row at a position, once its source key has been verified. */
  method VerifiedAt(file: MdictFile, index: PersistentKeyIndex, ghost query: string, normalized: bytes, start: nat, end: nat,
                    position: nat, ghost known: Option<KeyTable>)
    returns (r: Result<nat>)
    requires Session(file, index, known) == Sound && start <= position < end
    requires normalized == file.dict.matcher.Bytes(query)
    requires RangeIsAlike(file.dict.matcher, known, query, start, end)
    modifies file, index
    ensures Session(file, index, known) == Sound
    ensures r.Ok? ==> SourceFits(file.dict, r.value, NormalizesLike(query))
    ensures known.Some? ==> r == Ok(known.value.order[position])
  {
    var ordinal :- CandidateAt(file, index, query, start, end, position, known);
    var key :- VerifiedSourceKey(file, index, ordinal, normalized, known);
    return Ok(ordinal);
  }

  /** The rows of a known range. */
  ghost function KnownRows(known: Option<KeyTable>, start: nat, end: nat): seq<nat>
    requires known.Some? ==> start <= end <= |known.value.order|
  {
    if known.Some? then known.value.order[start..end] else []
  }

  /** The exact matches of a range: how many there are, and the window of them. */
  method ExactPage(file: MdictFile, index: PersistentKeyIndex, query: string, normalized: bytes, start: nat, end: nat,
                   offset: nat, limit: nat, ghost known: Option<KeyTable>)
    returns (r: Result<(nat, seq<nat>)>)
    requires Session(file, index, known) == Sound && start <= end
    requires normalized == file.dict.matcher.Bytes(query)
    requires RangeIsAlike(file.dict.matcher, known, query, start, end)
    modifies file, index
    ensures Session(file, index, known) == Sound
    ensures r.Ok? ==> AllFit(file.dict, r.value.1, IsExactly(query))
    ensures r.Ok? ==> |r.value.1| <= Min(limit, SaturatingSub(end - start, offset))
    ensures known.Some? ==>
              r == Ok(Collected(file.dict.matcher, known.value.keys, KnownRows(known, start, end), query, offset, limit))
  {
    ghost var seen, exact: seq<nat> := [], [];
    var ordinals: seq<nat> := [];
    var exactCount: nat := 0;
    for i := 0 to end - start
      invariant Session(file, index, known) == Sound && |seen| == i && |exact| == exactCount <= i
      invariant PageOf(file.dict, exact, ordinals, offset, limit, IsExactly(query)) == Sound
      invariant known.Some? ==> Follows(known.value.order, start, seen)
      invariant known.Some? ==> exact == Select(file.dict.matcher, known.value.keys, seen, IsExactly(query))
    {
      var found :- ExactAt(file, index, query, normalized, start, end, start + i, known);
      if known.Some? {
        FollowsAppend(known.value.order, start, seen, found.0);
        SelectAppend(file.dict.matcher, known.value.keys, seen, found.0, IsExactly(query));
      }
      seen := seen + [found.0];
      if found.1 {
        PageStep(file.dict, exact, ordinals, offset, limit, found.0, IsExactly(query));
        ordinals := Push(ordinals, exactCount, offset, limit, found.0);
        exactCount := exactCount + 1;
        exact := exact + [found.0];
      }
    }
    PageEnds(file.dict, exact, ordinals, offset, limit, IsExactly(query));
    if known.Some? {
      FollowsIsRange(known, start, end, seen);
    }
    return Ok((exactCount, ordinals));
  }

  /** Whether a page is the window of the matches so far, all of which fit the test. */
  ghost function PageOf(dict: Dictionary, matches: seq<nat>, page: seq<nat>, offset: nat, limit: nat, test: Test): Soundness
    requires dict.Valid()
  {
    if AllFit(dict, page, test) && page == Window(matches, offset, limit) then Sound else Unsound
  }

  lemma PageStep(dict: Dictionary, matches: seq<nat>, page: seq<nat>, offset: nat, limit: nat, ordinal: nat, test: Test)
    requires dict.Valid() && PageOf(dict, matches, page, offset, limit, test) == Sound && SourceFits(dict, ordinal, test)
    ensures PageOf(dict, matches + [ordinal], Push(page, |matches|, offset, limit, ordinal), offset, limit, test) == Sound
  {
    WindowAppend(matches, ordinal, offset, limit);
  }

  lemma PageEnds(dict: Dictionary, matches: seq<nat>, page: seq<nat>, offset: nat, limit: nat, test: Test)
    requires dict.Valid() && PageOf(dict, matches, page, offset, limit, test) == Sound
    ensures AllFit(dict, page, test) && page == Window(matches, offset, limit)
    ensures |page| == Min(limit, SaturatingSub(|matches|, offset))
  {
    WindowFits(matches, offset, limit);
  }

  /** Verifies the whole range and keeps its window. */
  method VerifiedPage(file: MdictFile, index: PersistentKeyIndex, ghost query: string, normalized: bytes, start: nat, end: nat,
                      offset: nat, limit: nat, ghost known: Option<KeyTable>)
    returns (r: Result<seq<nat>>)
    requires Session(file, index, known) == Sound && start <= end
    requires normalized == file.dict.matcher.Bytes(query)
    requires RangeIsAlike(file.dict.matcher, known, query, start, end)
    modifies file, index
    ensures Session(file, index, known) == Sound
    ensures r.Ok? ==> AllFit(file.dict, r.value, NormalizesLike(query))
    ensures r.Ok? ==> |r.value| == Min(limit, SaturatingSub(end - start, offset))
    ensures known.Some? ==> r == Ok(Window(KnownRows(known, start, end), offset, limit))
  {
    var ordinals: seq<nat> := [];
    ghost var seen: seq<nat> := [];
    for matchIndex := 0 to end - start
      invariant Session(file, index, known) == Sound && |seen| == matchIndex
      invariant PageOf(file.dict, seen, ordinals, offset, limit, NormalizesLike(query)) == Sound
      invariant known.Some? ==> Follows(known.value.order, start, seen)
    {
      var ordinal :- VerifiedAt(file, index, query, normalized, start, end, start + matchIndex, known);
      PageStep(file.dict, seen, ordinals, offset, limit, ordinal, NormalizesLike(query));
      ordinals := Push(ordinals, matchIndex, offset, limit, ordinal);
      if known.Some? {
        FollowsAppend(known.value.order, start, seen, ordinal);
      }
      seen := seen + [ordinal];
    }
    PageEnds(file.dict, seen, ordinals, offset, limit, NormalizesLike(query));
    if known.Some? {
      FollowsIsRange(known, start, end, seen);
    }
    return Ok(ordinals);
  }

  lemma FollowsIsRange(known: Option<KeyTable>, start: nat, end: nat, seen: seq<nat>)
    requires known.Some? && Follows(known.value.order, start, seen) && start + |seen| == end
    ensures KnownRows(known, start, end) == seen
  {
  }

  /**
   * The requested window, in ordinal order, of the raw-exact matches if there are any, and otherwise of all rows that
   * normalize alike; every row of it has been checked against the source.
   */
  method LocatePage(file: MdictFile, index: PersistentKeyIndex, query: string, offset: nat, limit: nat,
                    ghost known: Option<KeyTable>)
    returns (r: Result<Option<Page>>)
    requires Session(file, index, known) == Sound
    modifies file, index
    ensures Session(file, index, known) == Sound
    ensures r.Ok? && r.value.Some? ==> AllFit(file.dict, r.value.value.ordinals, TestOf(r.value.value.basis, query))
    ensures known.Some? ==> (r.Ok? <==> PageFits(file.dict, known.value.keys, query, offset, limit))
    ensures known.Some? && r.Ok? ==> r.value == PageSpec(file.dict.matcher, known.value.keys, query, offset, limit)
  {
    var valid :- ValidateDictionaryIdentity(file.dict, index.view.header.identity);
    var normalized :- NormalizeQuery(file.dict, query);
    if known.Some? {
      AgreeingIsReadable(file.dict, index.view, known.value);
    }
    var range :- index.EqualRange(normalized);
    if known.Some? {
      RangeDecides(file.dict, index.view, known.value, query, range, offset, limit);
    }
    if range == None {
      return Ok(None);
    }
    r := PageIn(file, index, query, normalized, range.value.0, range.value.1, offset, limit, known);
  }

  /** What an equal range of an agreeing index means for a page. */
  lemma RangeDecides(dict: Dictionary, view: View, t: KeyTable, query: string, range: Option<(nat, nat)>,
                     offset: nat, limit: nat)
    requires Agrees(dict, view, t) && IsEqualRange(view, dict.matcher.Bytes(query), range)
    requires |dict.matcher.Bytes(query)| <= dict.locatorBytes
    ensures range == None ==> PageSpec(dict.matcher, t.keys, query, offset, limit) == None
    ensures range == None ==> PageFits(dict, t.keys, query, offset, limit)
    ensures range.Some? ==>
              var (start, end) := range.value;
              && start < end && IsAlikeRange(dict.matcher, Some(t), query, start, end)
              && (PageFits(dict, t.keys, query, offset, limit) <==>
                  4 * Min(limit, SaturatingSub(end - start, offset)) <= dict.locatorBytes)
  {
    RangeOfAgreeing(dict, view, t, query, range);
    if range == None {
      ExactAmongAlike(dict.matcher, t.keys, query);
      PageOfScans(dict.matcher, t.keys, query, offset, limit);
    }
  }

  /** The page of an equal range. */
  method PageIn(file: MdictFile, index: PersistentKeyIndex, query: string, normalized: bytes, start: nat, end: nat,
                offset: nat, limit: nat, ghost known: Option<KeyTable>)
    returns (r: Result<Option<Page>>)
    requires Session(file, index, known) == Sound
    requires normalized == file.dict.matcher.Bytes(query)
    requires start < end && IsAlikeRange(file.dict.matcher, known, query, start, end)
    modifies file, index
    ensures Session(file, index, known) == Sound
    ensures r.Ok? && r.value.Some? ==> AllFit(file.dict, r.value.value.ordinals, TestOf(r.value.value.basis, query))
    ensures known.Some? ==> (r.Ok? <==> 4 * Min(limit, SaturatingSub(end - start, offset)) <= file.dict.locatorBytes)
    ensures known.Some? && r.Ok? ==> r.value == PageSpec(file.dict.matcher, known.value.keys, query, offset, limit)
  {
    var total := end - start;
    var pageCapacity := Min(limit, SaturatingSub(total, offset));
    if 4 * pageCapacity > file.dict.locatorBytes {
      return Err(LimitExceeded(PageBytes));
    }
    if known.Some? {
      ScanRangeIsAlike(file.dict.matcher, known.value, query, start, end);
      PageOfRows(file.dict.matcher, known.value.keys, query, KnownRows(known, start, end), offset, limit);
    }
    r := AssemblePage(file, index, query, normalized, start, end, offset, limit, known);
  }

  /** The page of a range: its exact rows, or all of them when there are none. */
  method AssemblePage(file: MdictFile, index: PersistentKeyIndex, query: string, normalized: bytes, start: nat, end: nat,
                      offset: nat, limit: nat, ghost known: Option<KeyTable>)
    returns (r: Result<Option<Page>>)
    requires Session(file, index, known) == Sound && start <= end
    requires normalized == file.dict.matcher.Bytes(query)
    requires RangeIsAlike(file.dict.matcher, known, query, start, end)
    modifies file, index
    ensures Session(file, index, known) == Sound
    ensures r.Ok? && r.value.Some? ==> AllFit(file.dict, r.value.value.ordinals, TestOf(r.value.value.basis, query))
    ensures known.Some? ==>
              r == Ok(PageAmong(file.dict.matcher, known.value.keys, KnownRows(known, start, end), query, offset, limit))
  {
    var found :- ExactPage(file, index, query, normalized, start, end, offset, limit, known);
    if found.0 != 0 {
      return Ok(Some(Page(RawExact, found.0, found.1)));
    }
    var ordinals :- VerifiedPage(file, index, query, normalized, start, end, offset, limit, known);
    return Ok(Some(Page(HeaderNormalized, end - start, ordinals)));
  }

  /** The page among rows that normalize alike: the exact ones, or all of them when there are none. */
  ghost function PageAmong(m: Matcher, keys: seq<string>, rows: seq<nat>, query: string, offset: nat, limit: nat): Option<Page> {
    var (count, ordinals) := Collected(m, keys, rows, query, offset, limit);
    if count != 0 then Some(Page(RawExact, count, ordinals))
    else Some(Page(HeaderNormalized, |rows|, Window(rows, offset, limit)))
  }

  lemma ScanRangeIsAlike(m: Matcher, t: KeyTable, query: string, start: nat, end: nat)
    requires IsAlikeRange(m, Some(t), query, start, end)
    ensures RangeIsAlike(m, Some(t), query, start, end)
  {
    ScanIsAlike(m, t, query);
    forall j | start <= j < end
      ensures Chosen(m, t.keys, t.order[j], NormalizesLike(query))
    {
      assert t.order[start..end][j - start] == t.order[j];
    }
  }

  /** The page in terms of what was collected from the rows that normalize alike. */
  lemma PageOfRows(m: Matcher, keys: seq<string>, query: string, rows: seq<nat>, offset: nat, limit: nat)
    requires rows == ScanFor(m, keys, NormalizesLike(query)) && rows != []
    ensures PageSpec(m, keys, query, offset, limit) == PageAmong(m, keys, rows, query, offset, limit)
  {
    PageOfScans(m, keys, query, offset, limit);
    ExactAmongAlike(m, keys, query);
  }
}
