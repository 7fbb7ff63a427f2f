/**
 * Case-variant lookups through both backends, and their place in front of the ordinary lookup
 * (src/core/locator.rs, src/core/persistent/query.rs, src/mdx.rs).
 */
module CaseVariantLookup {
  import opened Bytes
  import opened CaseVariantPages
  import opened Dictionary
  import opened IndexCache
  import opened IndexPages
  import opened IndexPrefix
  import opened IndexQuery
  import opened KeyBlocks
  import opened Locator
  import opened LocatorLookup
  import opened LookupSpec
  import opened Sequences
  import opened Normalize
  import opened Wrappers

  /** What is selected among the rows that normalize as the query does. */
  function CaseAmongAlike(m: Matcher, keys: seq<string>, query: string, offset: nat, limit: nat): Option<Page> {
    CasePage(ScanFor(m, keys, IsExactly(query)),
             Select(m, keys, ScanFor(m, keys, NormalizesLike(query)), IsVariantOf(query)), offset, limit)
  }

  /** With case-insensitive matching on an MDX dictionary that is everything a scan of the whole dictionary finds. */
  lemma CaseSelectionIsComplete(m: Matcher, n: Normalizer, keys: seq<string>, query: string, offset: nat, limit: nat)
    requires IsMatcherOf(m, n) && !n.caseSensitive && !n.resourcePath && LowerRespectsAscii(n.lower)
    ensures CaseAmongAlike(m, keys, query, offset, limit) == CaseSpec(m, keys, query, offset, limit)
  {
    VariantsAmongAlike(m, n, keys, query);
  }

  /** Entries of the offered rows. */
  ghost predicate EntriesAre(keys: seq<string>, rows: seq<nat>, entries: seq<KeyEntry>) {
    |entries| == |rows| &&
    forall i | 0 <= i < |rows| :: rows[i] < |keys| && entries[i] == KeyEntry(rows[i], keys[rows[i]])
  }

  lemma SuppliedAreOffered(dict: Dictionary, source: CandidateSource, offer: Offer, entries: seq<KeyEntry>)
    requires dict.Valid() && Offers(dict, source, offer.table, offer.rows) && |entries| == |offer.rows|
    requires AllSupplied(dict, source, entries)
    ensures EntriesAre(offer.table.keys, offer.rows, entries)
  {
    forall i | 0 <= i < |offer.rows|
      ensures offer.rows[i] < |offer.table.keys| && entries[i] == KeyEntry(offer.rows[i], offer.table.keys[offer.rows[i]])
    {
      assert Supplies(dict, source, i, entries[i]);
      match source {
        case FromLocator(locator, start) =>
          assert locator.order[start + i] == offer.rows[i];
        case FromIndex(index, start, normalized) =>
          OfferedRow(dict, index, start, normalized, offer, i);
      }
    }
  }

  lemma {:induction false} PickIsSelect(m: Matcher, keys: seq<string>, rows: seq<nat>, entries: seq<KeyEntry>, test: Test)
    requires EntriesAre(keys, rows, entries)
    ensures Pick(m, entries, test) == Select(m, keys, rows, test)
  {
    if rows != [] {
      PickIsSelect(m, keys, rows[..|rows| - 1], entries[..|rows| - 1], test);
    }
  }

  /** The selection from the linear scan for the query. */
  lemma SelectionAmongAlike(m: Matcher, keys: seq<string>, query: string, entries: seq<KeyEntry>, offset: nat, limit: nat)
    requires EntriesAre(keys, ScanFor(m, keys, NormalizesLike(query)), entries)
    ensures CaseSelection(m, entries, query, offset, limit) == CaseAmongAlike(m, keys, query, offset, limit)
  {
    PickIsSelect(m, keys, ScanFor(m, keys, NormalizesLike(query)), entries, IsExactly(query));
    PickIsSelect(m, keys, ScanFor(m, keys, NormalizesLike(query)), entries, IsVariantOf(query));
    ExactAmongAlike(m, keys, query);
  }

  /** With nothing that normalizes alike there is nothing to select. */
  lemma NothingToSelect(m: Matcher, keys: seq<string>, query: string, offset: nat, limit: nat)
    requires ScanFor(m, keys, NormalizesLike(query)) == []
    ensures CaseAmongAlike(m, keys, query, offset, limit) == None
  {
    ExactAmongAlike(m, keys, query);
  }

  // ----- soundness -----

  /**
   * Every row of the page fits the query in the current source as the page's basis says; a page of case variants
   * also holds the raw-exact rows.
   */
  ghost predicate ModePageFits(dict: Dictionary, page: Page, query: string)
    requires dict.Valid()
  {
    if page.basis == CaseVariants then
      forall i | 0 <= i < |page.ordinals| ::
        SourceFits(dict, page.ordinals[i], IsExactly(query)) || SourceFits(dict, page.ordinals[i], IsVariantOf(query))
    else AllFit(dict, page.ordinals, TestOf(page.basis, query))
  }

  lemma {:induction false} PickFits(dict: Dictionary, entries: seq<KeyEntry>, test: Test)
    requires dict.Valid() && forall i | 0 <= i < |entries| :: dict.KeyIs(entries[i].ordinal, entries[i].key)
    ensures AllFit(dict, Pick(dict.matcher, entries, test), test)
  {
    if entries != [] {
      var last := entries[|entries| - 1];
      PickFits(dict, entries[..|entries| - 1], test);
      if Passes(dict.matcher, last.key, test) {
        assert SourceFits(dict, last.ordinal, test);
      }
    }
  }

  lemma SelectionFits(dict: Dictionary, source: CandidateSource, entries: seq<KeyEntry>, query: string, offset: nat, limit: nat)
    requires dict.Valid() && AllSupplied(dict, source, entries)
    ensures CaseSelection(dict.matcher, entries, query, offset, limit).Some? ==>
              ModePageFits(dict, CaseSelection(dict.matcher, entries, query, offset, limit).value, query)
  {
    assert forall i | 0 <= i < |entries| :: Supplies(dict, source, i, entries[i]);
    PickFits(dict, entries, IsExactly(query));
    PickFits(dict, entries, IsVariantOf(query));
    var exact, variants := Pick(dict.matcher, entries, IsExactly(query)), Pick(dict.matcher, entries, IsVariantOf(query));
    forall i | 0 <= i < |exact + variants|
      ensures SourceFits(dict, (exact + variants)[i], IsExactly(query)) || SourceFits(dict, (exact + variants)[i], IsVariantOf(query))
    {
    }
    if variants == [] {
      NilConcat(exact);
    }
  }

  // ----- the in-memory backend -----

  method LocatorCaseVariants(file: MdictFile, l: KeyLocator, query: string, offset: nat, limit: nat, ghost keys: seq<string>)
    returns (r: Result<Option<Page>>)
    requires file.Valid() && Indexed(file.dict, l, keys)
    modifies file
    ensures file.Valid()
    ensures r.Ok? <==> PageFits(file.dict, keys, query, offset, limit)
    ensures r.Ok? ==> r.value == CaseAmongAlike(file.dict.matcher, keys, query, offset, limit)
  {
    var dict := file.dict;
    var normalized :- NormalizeQuery(dict, query);
    var range := EqualRange(dict, l, normalized, keys);
    if range == None {
      NothingAlike(dict, l, query, keys);
      NothingToSelect(dict.matcher, keys, query, offset, limit);
      return Ok(None);
    }
    AlikeAreRange(dict, l, query, range.value.0, range.value.1, keys);
    r := LocatorSelection(file, l, query, range.value.0, range.value.1, offset, limit, keys);
  }

  /** The selection inside an equal range. */
  method LocatorSelection(file: MdictFile, l: KeyLocator, query: string, start: nat, end: nat, offset: nat, limit: nat,
                          ghost keys: seq<string>)
    returns (r: Result<Option<Page>>)
    requires file.Valid() && Indexed(file.dict, l, keys) && start <= end <= |l.order|
    requires l.order[start..end] == ScanFor(file.dict.matcher, keys, NormalizesLike(query))
    modifies file
    ensures file.Valid()
    ensures r.Ok? <==> 4 * Min(limit, SaturatingSub(end - start, offset)) <= file.dict.locatorBytes
    ensures r.Ok? ==> r.value == CaseAmongAlike(file.dict.matcher, keys, query, offset, limit)
  {
    OrderIsOffered(file.dict, l, start, end, keys);
    ghost var offer := Offer(KeyTable(keys, l.order), l.order[start..end]);
    var selected, entries := SelectPage(file, FromLocator(l, start), query, end - start, offset, limit, Some(offer));
    if selected.Ok? {
      SuppliedAreOffered(file.dict, FromLocator(l, start), offer, entries);
      SelectionAmongAlike(file.dict.matcher, keys, query, entries, offset, limit);
    }
    return selected;
  }

  lemma OrderIsOffered(dict: Dictionary, l: KeyLocator, start: nat, end: nat, keys: seq<string>)
    requires Indexed(dict, l, keys) && start <= end <= |l.order|
    ensures Offers(dict, FromLocator(l, start), KeyTable(keys, l.order), l.order[start..end])
  {
  }

  // ----- the persistent backend -----

  method IndexCaseVariants(file: MdictFile, index: PersistentKeyIndex, query: string, offset: nat, limit: nat,
                           ghost known: Option<KeyTable>)
    returns (r: Result<Option<Page>>)
    requires Session(file, index, known) == Sound
    modifies file, index
    ensures Session(file, index, known) == Sound
    ensures r.Ok? && r.value.Some? ==> ModePageFits(file.dict, r.value.value, query)
    ensures known.Some? ==> (r.Ok? <==> PageFits(file.dict, known.value.keys, query, offset, limit))
    ensures known.Some? && r.Ok? ==> r.value == CaseAmongAlike(file.dict.matcher, known.value.keys, query, offset, limit)
  {
    var valid :- ValidateDictionaryIdentity(file.dict, index.view.header.identity);
    var normalized :- NormalizeQuery(file.dict, query);
    if known.Some? {
      AgreeingIsReadable(file.dict, index.view, known.value);
    }
    var range :- index.EqualRange(normalized);
    if known.Some? {
      RangeDecides(file.dict, index.view, known.value, query, range, offset, limit);
      RangeOfAgreeing(file.dict, index.view, known.value, query, range);
    }
    if range == None {
      if known.Some? {
        NothingToSelect(file.dict.matcher, known.value.keys, query, offset, limit);
      }
      return Ok(None);
    }
    r := IndexSelection(file, index, query, normalized, range.value.0, range.value.1, offset, limit, known);
  }

  /** The selection inside an equal range. */
  method IndexSelection(file: MdictFile, index: PersistentKeyIndex, query: string, normalized: bytes, start: nat, end: nat,
                        offset: nat, limit: nat, ghost known: Option<KeyTable>)
    returns (r: Result<Option<Page>>)
    requires Session(file, index, known) == Sound
    requires normalized == file.dict.matcher.Bytes(query)
    requires start < end && IsAlikeRange(file.dict.matcher, known, query, start, end)
    modifies file, index
    ensures Session(file, index, known) == Sound
    ensures r.Ok? && r.value.Some? ==> ModePageFits(file.dict, r.value.value, query)
    ensures known.Some? ==> (r.Ok? <==> 4 * Min(limit, SaturatingSub(end - start, offset)) <= file.dict.locatorBytes)
    ensures known.Some? && r.Ok? ==> r.value == CaseAmongAlike(file.dict.matcher, known.value.keys, query, offset, limit)
  {
    var source := FromIndex(index, start, normalized);
    ghost var offer := if known.Some? then Some(Offer(known.value, known.value.order[start..end])) else None;
    if known.Some? {
      RangeIsOffered(file.dict, index, known.value, query, normalized, start, end);
    }
    var selected, entries := SelectPage(file, source, query, end - start, offset, limit, offer);
    if selected.Ok? {
      SelectionFits(file.dict, source, entries, query, offset, limit);
      if known.Some? {
        SuppliedAreOffered(file.dict, source, offer.value, entries);
        SelectionAmongAlike(file.dict.matcher, known.value.keys, query, entries, offset, limit);
      }
    }
    return selected;
  }

  lemma RangeIsOffered(dict: Dictionary, index: PersistentKeyIndex, t: KeyTable, query: string, normalized: bytes,
                       start: nat, end: nat)
    requires Agrees(dict, index.view, t) && normalized == dict.matcher.Bytes(query) && start <= end
    requires IsAlikeRange(dict.matcher, Some(t), query, start, end)
    ensures Offers(dict, FromIndex(index, start, normalized), t, t.order[start..end])
  {
    ScanIsAlike(dict.matcher, t, query);
    var rows := t.order[start..end];
    forall i | 0 <= i < |rows|
      ensures rows[i] < |t.keys| && t.order[start + i] == rows[i] && dict.matcher.Bytes(t.keys[rows[i]]) == normalized
    {
      assert Chosen(dict.matcher, t.keys, rows[i], NormalizesLike(query));
    }
  }

  // ----- in front of the ordinary lookup -----

  /** Case variants are asked for only where matching ignores case; where there are none the ordinary page answers. */
  function ModePageSpec(n: Normalizer, m: Matcher, keys: seq<string>, query: string, offset: nat, limit: nat,
                        includeVariants: bool): Option<Page> {
    if includeVariants && !n.caseSensitive && CaseSpec(m, keys, query, offset, limit).Some?
    then CaseSpec(m, keys, query, offset, limit)
    else PageSpec(m, keys, query, offset, limit)
  }

  method LocatorPageWithMode(file: MdictFile, l: KeyLocator, query: string, offset: nat, limit: nat, includeVariants: bool,
                             ghost keys: seq<string>)
    returns (r: Result<Option<Page>>)
    requires file.Valid() && Indexed(file.dict, l, keys)
    requires !file.dict.normalizer.resourcePath && LowerRespectsAscii(file.dict.normalizer.lower)
    modifies file
    ensures file.Valid()
    ensures r.Ok? <==> PageFits(file.dict, keys, query, offset, limit)
    ensures r.Ok? ==>
              r.value == ModePageSpec(file.dict.normalizer, file.dict.matcher, keys, query, offset, limit, includeVariants)
  {
    if includeVariants && !file.dict.normalizer.caseSensitive {
      CaseSelectionIsComplete(file.dict.matcher, file.dict.normalizer, keys, query, offset, limit);
      var page :- LocatorCaseVariants(file, l, query, offset, limit, keys);
      if page.Some? {
        return Ok(page);
      }
    }
    r := LocateKeyPage(file, l, query, offset, limit, keys);
  }

  method IndexPageWithMode(file: MdictFile, index: PersistentKeyIndex, query: string, offset: nat, limit: nat,
                           includeVariants: bool, ghost known: Option<KeyTable>)
    returns (r: Result<Option<Page>>)
    requires Session(file, index, known) == Sound
    requires !file.dict.normalizer.resourcePath && LowerRespectsAscii(file.dict.normalizer.lower)
    modifies file, index
    ensures Session(file, index, known) == Sound
    ensures r.Ok? && r.value.Some? ==> ModePageFits(file.dict, r.value.value, query)
    ensures known.Some? ==> (r.Ok? <==> PageFits(file.dict, known.value.keys, query, offset, limit))
    ensures known.Some? && r.Ok? ==>
              r.value == ModePageSpec(file.dict.normalizer, file.dict.matcher, known.value.keys, query, offset, limit, includeVariants)
  {
    if includeVariants && !file.dict.normalizer.caseSensitive {
      if known.Some? {
        CaseSelectionIsComplete(file.dict.matcher, file.dict.normalizer, known.value.keys, query, offset, limit);
      }
      var page :- IndexCaseVariants(file, index, query, offset, limit, known);
      if page.Some? {
        return Ok(page);
      }
    }
    r := LocatePage(file, index, query, offset, limit, known);
  }
}
