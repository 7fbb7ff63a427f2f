/**
 * Case-only selection inside a normalized equal range (src/core/case_variants.rs). Both backends supply source
 * keys; the page is the window of all exact rows followed by all variants.
 */
module CaseVariantPages {
  import opened Bytes
  import opened Dictionary
  import opened IndexCache
  import opened IndexPrefix
  import opened IndexQuery
  import opened IndexView
  import opened KeyBlocks
  import opened Locator
  import opened LookupSpec
  import opened Normalize
  import opened Sequences
  import opened Wrappers

  // ----- candidates -----

  /** Where the candidates of a selection come from. */
  datatype CandidateSource =
    | FromLocator(locator: KeyLocator, start: nat)
    | FromIndex(index: PersistentKeyIndex, start: nat, normalized: bytes)
  {
    ghost function Frame(): set<object> {
      match this
      case FromLocator(_, _) => {}
      case FromIndex(index, _, _) => {index}
    }

    ghost predicate Valid()
      reads Frame()
    {
      FromIndex? ==> index.Valid()
    }
  }

  /** The candidate a source supplies at a position: a row it names there, with that row's current source key. */
  ghost predicate Supplies(dict: Dictionary, source: CandidateSource, position: nat, entry: KeyEntry)
    requires dict.Valid()
  {
    && dict.KeyIs(entry.ordinal, entry.key)
    && match source
       case FromLocator(locator, start) =>
         start + position < |locator.order| && entry.ordinal == locator.order[start + position]
       case FromIndex(index, start, normalized) =>
         && index.view.Valid() && index.view.Order(start + position) == Ok(entry.ordinal)
         && dict.matcher.Bytes(entry.key) == normalized
  }

  /** The source is known to name these rows of the dictionary from its start on. */
  ghost predicate Offers(dict: Dictionary, source: CandidateSource, t: KeyTable, rows: seq<nat>) {
    && dict.KeysAre(t.keys)
    && (forall i | 0 <= i < |rows| :: rows[i] < |t.keys|)
    && match source
       case FromLocator(locator, start) =>
         start + |rows| <= |locator.order| && forall i | 0 <= i < |rows| :: locator.order[start + i] == rows[i]
       case FromIndex(index, start, normalized) =>
         && Agrees(dict, index.view, t) && start + |rows| <= |t.order|
         && forall i | 0 <= i < |rows| :: t.order[start + i] == rows[i] && dict.matcher.Bytes(t.keys[rows[i]]) == normalized
  }

  /** What is known of a source, if anything. */
  datatype Offer = Offer(table: KeyTable, rows: seq<nat>)

  ghost predicate KnownOffer(dict: Dictionary, source: CandidateSource, count: nat, known: Option<Offer>) {
    known.Some? ==> |known.value.rows| == count && Offers(dict, source, known.value.table, known.value.rows)
  }

  /** The candidate at a position. */
  method SourceKeyAt(file: MdictFile, source: CandidateSource, position: nat, count: nat, ghost known: Option<Offer>)
    returns (r: Result<KeyEntry>)
    requires file.Valid() && source.Valid() && position < count && KnownOffer(file.dict, source, count, known)
    modifies file, source.Frame()
    ensures file.Valid() && source.Valid()
    ensures r.Ok? ==> Supplies(file.dict, source, position, r.value)
    ensures known.Some? ==> r.Ok?
  {
    match source {
      case FromLocator(locator, start) =>
        r := LocatorKeyAt(file, locator, start, position, count, known);
      case FromIndex(index, start, normalized) =>
        r := IndexKeyAt(file, index, start, normalized, position, count, known);
    }
  }

  method LocatorKeyAt(file: MdictFile, locator: KeyLocator, start: nat, position: nat, count: nat, ghost known: Option<Offer>)
    returns (r: Result<KeyEntry>)
    requires file.Valid() && position < count && KnownOffer(file.dict, FromLocator(locator, start), count, known)
    modifies file
    ensures file.Valid()
    ensures r.Ok? ==> Supplies(file.dict, FromLocator(locator, start), position, r.value)
    ensures known.Some? ==> r.Ok?
  {
    if start + position >= |locator.order| {
      return Err(InvalidFormat);
    }
    var ordinal := locator.order[start + position];
    if known.Some? {
      LocatorOffers(file.dict, locator, start, known.value, position);
    }
    var key :- file.KeyAtOrdinal(ordinal);
    if key == None {
      return Err(InvalidFormat);
    }
    return Ok(KeyEntry(ordinal, key.value));
  }

  lemma LocatorOffers(dict: Dictionary, locator: KeyLocator, start: nat, offer: Offer, position: nat)
    requires Offers(dict, FromLocator(locator, start), offer.table, offer.rows) && position < |offer.rows|
    ensures start + position < |locator.order| && locator.order[start + position] < dict.totalEntries
    ensures dict.AllGood()
  {
    assert locator.order[start + position] == offer.rows[position];
  }

  method IndexKeyAt(file: MdictFile, index: PersistentKeyIndex, start: nat, normalized: bytes, position: nat, count: nat,
                    ghost known: Option<Offer>)
    returns (r: Result<KeyEntry>)
    requires file.Valid() && index.Valid() && position < count
    requires KnownOffer(file.dict, FromIndex(index, start, normalized), count, known)
    modifies file, index
    ensures file.Valid() && index.Valid()
    ensures r.Ok? ==> Supplies(file.dict, FromIndex(index, start, normalized), position, r.value)
    ensures known.Some? ==> r.Ok?
  {
    ghost var row := OfferNamesRow(file, index, start, normalized, known, position);
    r := IndexEntryAt(file, index, start + position, normalized, TableIn(known), row);
  }

  /** The row of the index at a position of its order, if its source key normalizes to `normalized`. */
  method IndexEntryAt(file: MdictFile, index: PersistentKeyIndex, at: nat, normalized: bytes, ghost table: Option<KeyTable>,
                      ghost row: nat)
    returns (r: Result<KeyEntry>)
    requires Session(file, index, table) == Sound
    requires table.Some? ==> NamesRow(file.dict, index.view, at, normalized, table.value, row)
    modifies file, index
    ensures Session(file, index, table) == Sound
    ensures r.Ok? ==> index.view.Order(at) == Ok(r.value.ordinal) && file.dict.KeyIs(r.value.ordinal, r.value.key)
    ensures r.Ok? ==> file.dict.matcher.Bytes(r.value.key) == normalized
    ensures table.Some? ==> r.Ok?
  {
    var ordinal :- index.OrderAt(at);
    var key :- VerifiedSourceKey(file, index, ordinal, normalized, table);
    return Ok(KeyEntry(ordinal, key));
  }

  ghost predicate NamesRow(dict: Dictionary, view: View, at: nat, normalized: bytes, t: KeyTable, row: nat)
    requires view.Valid()
  {
    view.Order(at) == Ok(row) && row < |t.keys| && dict.matcher.Bytes(t.keys[row]) == normalized
  }

  ghost function TableIn(known: Option<Offer>): Option<KeyTable> {
    if known.Some? then Some(known.value.table) else None
  }

  lemma OfferedRow(dict: Dictionary, index: PersistentKeyIndex, start: nat, normalized: bytes, offer: Offer, position: nat)
    requires Offers(dict, FromIndex(index, start, normalized), offer.table, offer.rows) && position < |offer.rows|
    ensures var row := offer.rows[position];
            && index.view.Order(start + position) == Ok(row) && row < |offer.table.keys|
            && dict.matcher.Bytes(offer.table.keys[row]) == normalized
  {
    assert offer.table.order[start + position] == offer.rows[position];
    assert index.view.Order(start + position).Ok?;
  }

  /** What an offer says of a position. */
  lemma OfferNamesRow(file: MdictFile, index: PersistentKeyIndex, start: nat, normalized: bytes, known: Option<Offer>,
                      position: nat) returns (row: nat)
    requires file.Valid() && index.Valid()
    requires known.Some? ==>
               Offers(file.dict, FromIndex(index, start, normalized), known.value.table, known.value.rows) &&
               position < |known.value.rows|
    ensures Session(file, index, TableIn(known)) == Sound
    ensures known.Some? ==> NamesRow(file.dict, index.view, start + position, normalized, known.value.table, row)
  {
    row := 0;
    if known.Some? {
      row := known.value.rows[position];
      OfferedRow(file.dict, index, start, normalized, known.value, position);
    }
  }

  lemma SuppliesOnce(dict: Dictionary, source: CandidateSource, position: nat, a: KeyEntry, b: KeyEntry)
    requires dict.Valid() && Supplies(dict, source, position, a) && Supplies(dict, source, position, b)
    ensures a == b
  {
    dict.KeyIsUnique(a.ordinal, a.key, b.key);
  }

  ghost predicate AllSupplied(dict: Dictionary, source: CandidateSource, entries: seq<KeyEntry>)
    requires dict.Valid()
  {
    forall i | 0 <= i < |entries| :: Supplies(dict, source, i, entries[i])
  }

  // ----- the selection -----

  /** The ordinals of the candidates whose keys pass. */
  function Pick(m: Matcher, entries: seq<KeyEntry>, test: Test): seq<nat> {
    if entries == [] then []
    else
      var before, last := Pick(m, entries[..|entries| - 1], test), entries[|entries| - 1];
      if Passes(m, last.key, test) then before + [last.ordinal] else before
  }

  lemma PickAppend(m: Matcher, entries: seq<KeyEntry>, last: KeyEntry, test: Test)
    ensures Pick(m, entries + [last], test) ==
            if Passes(m, last.key, test) then Pick(m, entries, test) + [last.ordinal] else Pick(m, entries, test)
  {
    assert (entries + [last])[..|entries|] == entries;
  }

  lemma {:induction false} PickGrows(m: Matcher, entries: seq<KeyEntry>, i: nat, test: Test)
    requires i <= |entries|
    ensures Pick(m, entries[..i], test) <= Pick(m, entries, test)
    decreases |entries|
  {
    if i < |entries| {
      var front := entries[..|entries| - 1];
      assert front[..i] == entries[..i];
      PickGrows(m, front, i, test);
    } else {
      Whole(entries);
    }
  }

  /** The page of these candidates: all exact rows, then all case variants. */
  function CaseSelection(m: Matcher, entries: seq<KeyEntry>, query: string, offset: nat, limit: nat): Option<Page> {
    CasePage(Pick(m, entries, IsExactly(query)), Pick(m, entries, IsVariantOf(query)), offset, limit)
  }

  /** What the first pass has counted. */
  datatype Tally = Tally(exactCount: nat, variantCount: nat, ordinals: seq<nat>)

  ghost function TallyOf(m: Matcher, entries: seq<KeyEntry>, query: string, offset: nat, limit: nat): Tally {
    var exact := Pick(m, entries, IsExactly(query));
    Tally(|exact|, |Pick(m, entries, IsVariantOf(query))|, Window(exact, offset, limit))
  }

  /** Counts one more candidate. */
  function Count(m: Matcher, tally: Tally, entry: KeyEntry, query: string, offset: nat, limit: nat): Tally {
    if entry.key == query then
      tally.(exactCount := tally.exactCount + 1,
             ordinals := Push(tally.ordinals, tally.exactCount, offset, limit, entry.ordinal))
    else if EqualIgnoringCase(m.lower, entry.key, query) then tally.(variantCount := tally.variantCount + 1)
    else tally
  }

  lemma TallyStep(m: Matcher, entries: seq<KeyEntry>, entry: KeyEntry, query: string, offset: nat, limit: nat)
    ensures TallyOf(m, entries + [entry], query, offset, limit) ==
            Count(m, TallyOf(m, entries, query, offset, limit), entry, query, offset, limit)
  {
    PickAppend(m, entries, entry, IsExactly(query));
    PickAppend(m, entries, entry, IsVariantOf(query));
    WindowAppend(Pick(m, entries, IsExactly(query)), entry.ordinal, offset, limit);
  }

  /** The first pass: totals, and the exact part of the page. */
  method FirstPass(file: MdictFile, source: CandidateSource, query: string, count: nat, offset: nat, limit: nat,
                   ghost known: Option<Offer>)
    returns (r: Result<Tally>, ghost entries: seq<KeyEntry>)
    requires file.Valid() && source.Valid() && KnownOffer(file.dict, source, count, known)
    modifies file, source.Frame()
    ensures file.Valid() && source.Valid()
    ensures r.Ok? ==> |entries| == count && AllSupplied(file.dict, source, entries)
    ensures r.Ok? ==> r.value == TallyOf(file.dict.matcher, entries, query, offset, limit)
    ensures known.Some? ==> r.Ok?
  {
    var tally := Tally(0, 0, []);
    entries := [];
    for position := 0 to count
      invariant file.Valid() && source.Valid()
      invariant |entries| == position && AllSupplied(file.dict, source, entries)
      invariant tally == TallyOf(file.dict.matcher, entries, query, offset, limit)
    {
      var entry := SourceKeyAt(file, source, position, count, known);
      if entry.Err? {
        return Err(entry.error), entries;
      }
      TallyStep(file.dict.matcher, entries, entry.value, query, offset, limit);
      tally := Count(file.dict.matcher, tally, entry.value, query, offset, limit);
      entries := entries + [entry.value];
    }
    return Ok(tally), entries;
  }

  /** The page once the variants up to here have been pushed behind the exact rows. */
  ghost function Filled(exactPage: seq<nat>, variants: seq<nat>, variantOffset: nat, limit: nat): seq<nat>
    requires |exactPage| <= limit
  {
    exactPage + Window(variants, variantOffset, limit - |exactPage|)
  }

  lemma FilledStep(exactPage: seq<nat>, variants: seq<nat>, variantOffset: nat, limit: nat, ordinal: nat)
    requires |exactPage| <= limit && |Filled(exactPage, variants, variantOffset, limit)| < limit
    ensures Filled(exactPage, variants + [ordinal], variantOffset, limit) ==
            if |variants| >= variantOffset then Filled(exactPage, variants, variantOffset, limit) + [ordinal]
            else Filled(exactPage, variants, variantOffset, limit)
  {
    WindowAppend(variants, ordinal, variantOffset, limit - |exactPage|);
    Associative(exactPage, Window(variants, variantOffset, limit - |exactPage|), [ordinal]);
  }

  /** The page of exact rows followed by variants. */
  lemma WindowOfBoth(exact: seq<nat>, variants: seq<nat>, offset: nat, limit: nat)
    ensures |Window(exact, offset, limit)| <= limit
    ensures Window(exact + variants, offset, limit) ==
            Filled(Window(exact, offset, limit), variants, SaturatingSub(offset, |exact|), limit)
  {
    WindowFits(exact, offset, limit);
  }

  lemma FilledGrows(exactPage: seq<nat>, some: seq<nat>, all: seq<nat>, variantOffset: nat, limit: nat)
    requires |exactPage| <= limit && some <= all
    ensures Filled(exactPage, some, variantOffset, limit) <= Filled(exactPage, all, variantOffset, limit)
  {
  }

  /** Variants among the first `position` candidates. */
  ghost function VariantsUpTo(m: Matcher, entries: seq<KeyEntry>, position: nat, query: string): nat
    requires position <= |entries|
  {
    |Pick(m, entries[..position], IsVariantOf(query))|
  }

  /** The page once the first `position` candidates have been revisited. */
  ghost function PageUpTo(m: Matcher, entries: seq<KeyEntry>, position: nat, query: string, ordinals: seq<nat>,
                          variantOffset: nat, limit: nat): seq<nat>
    requires position <= |entries| && |ordinals| <= limit
  {
    Filled(ordinals, Pick(m, entries[..position], IsVariantOf(query)), variantOffset, limit)
  }

  /** The page once all candidates have been revisited. */
  ghost function WholePage(m: Matcher, entries: seq<KeyEntry>, query: string, ordinals: seq<nat>, variantOffset: nat,
                           limit: nat): seq<nat>
    requires |ordinals| <= limit
  {
    Filled(ordinals, Pick(m, entries, IsVariantOf(query)), variantOffset, limit)
  }

  lemma PassStarts(m: Matcher, entries: seq<KeyEntry>, query: string, ordinals: seq<nat>, variantOffset: nat, limit: nat)
    requires |ordinals| <= limit
    ensures VariantsUpTo(m, entries, 0, query) == 0
    ensures PageUpTo(m, entries, 0, query, ordinals, variantOffset, limit) == ordinals
    ensures PageUpTo(m, entries, |entries|, query, ordinals, variantOffset, limit) ==
            WholePage(m, entries, query, ordinals, variantOffset, limit)
  {
    Whole(entries);
  }

  /** One more candidate, while the page has room. */
  lemma PassStep(m: Matcher, entries: seq<KeyEntry>, position: nat, query: string, ordinals: seq<nat>,
                 variantOffset: nat, limit: nat)
    requires position < |entries| && |ordinals| <= limit
    requires |PageUpTo(m, entries, position, query, ordinals, variantOffset, limit)| < limit
    ensures VariantsUpTo(m, entries, position + 1, query) ==
            VariantsUpTo(m, entries, position, query) + if Passes(m, entries[position].key, IsVariantOf(query)) then 1 else 0
    ensures PageUpTo(m, entries, position + 1, query, ordinals, variantOffset, limit) ==
            PageUpTo(m, entries, position, query, ordinals, variantOffset, limit) +
            (if Passes(m, entries[position].key, IsVariantOf(query)) &&
                VariantsUpTo(m, entries, position, query) >= variantOffset
             then [entries[position].ordinal] else [])
  {
    var before, last := Pick(m, entries[..position], IsVariantOf(query)), entries[position];
    PrefixGrows(entries, position);
    PickAppend(m, entries[..position], last, IsVariantOf(query));
    if Passes(m, last.key, IsVariantOf(query)) {
      FilledStep(ordinals, before, variantOffset, limit, last.ordinal);
    }
  }

  lemma PassOnlyAppends(m: Matcher, entries: seq<KeyEntry>, position: nat, query: string, ordinals: seq<nat>,
                        variantOffset: nat, limit: nat)
    requires position <= |entries| && |ordinals| <= limit
    ensures PageUpTo(m, entries, position, query, ordinals, variantOffset, limit) <=
            WholePage(m, entries, query, ordinals, variantOffset, limit)
  {
    PickGrows(m, entries, position, IsVariantOf(query));
    FilledGrows(ordinals, Pick(m, entries[..position], IsVariantOf(query)), Pick(m, entries, IsVariantOf(query)),
                variantOffset, limit);
  }

  /** The second pass: revisits the candidates and appends variants until the page is full. */
  method SecondPass(file: MdictFile, source: CandidateSource, query: string, count: nat, variantOffset: nat, wanted: nat,
                    ordinals: seq<nat>, ghost limit: nat, ghost entries: seq<KeyEntry>, ghost known: Option<Offer>)
    returns (r: Result<seq<nat>>)
    requires file.Valid() && source.Valid() && KnownOffer(file.dict, source, count, known)
    requires |entries| == count && AllSupplied(file.dict, source, entries)
    requires |ordinals| < wanted <= limit
    requires wanted == |WholePage(file.dict.matcher, entries, query, ordinals, variantOffset, limit)|
    modifies file, source.Frame()
    ensures file.Valid() && source.Valid()
    ensures r.Ok? ==> r.value == WholePage(file.dict.matcher, entries, query, ordinals, variantOffset, limit)
    ensures known.Some? ==> r.Ok?
  {
    ghost var m := file.dict.matcher;
    var page, variantPosition := ordinals, 0;
    PassStarts(m, entries, query, ordinals, variantOffset, limit);
    for position := 0 to count
      invariant file.Valid() && source.Valid() && |page| < wanted
      invariant variantPosition == VariantsUpTo(m, entries, position, query)
      invariant page == PageUpTo(m, entries, position, query, ordinals, variantOffset, limit)
    {
      var entry :- SourceKeyAt(file, source, position, count, known);
      SuppliesOnce(file.dict, source, position, entry, entries[position]);
      PassStep(m, entries, position, query, ordinals, variantOffset, limit);
      if entry.key != query && EqualIgnoringCase(file.dict.matcher.lower, entry.key, query) {
        if variantPosition >= variantOffset {
          page := page + [entry.ordinal];
          if |page| == wanted {
            PassOnlyAppends(m, entries, position + 1, query, ordinals, variantOffset, limit);
            return Ok(page);
          }
        }
        variantPosition := variantPosition + 1;
      }
    }
    return Ok(page);
  }

  /** What the first pass counted decides the total, the mode and the size of the page. */
  lemma TallyDecides(m: Matcher, entries: seq<KeyEntry>, query: string, offset: nat, limit: nat, tally: Tally,
                     variantOffset: nat)
    requires tally == TallyOf(m, entries, query, offset, limit) && variantOffset == SaturatingSub(offset, tally.exactCount)
    ensures |tally.ordinals| <= limit
    ensures var total := tally.exactCount + tally.variantCount;
            var page := WholePage(m, entries, query, tally.ordinals, variantOffset, limit);
            && |page| == Min(limit, SaturatingSub(total, offset))
            && (|tally.ordinals| >= |page| ==> page == tally.ordinals)
            && CaseSelection(m, entries, query, offset, limit) ==
               if total == 0 then None
               else Some(Page(if tally.variantCount == 0 then RawExact else CaseVariants, total, page))
  {
    var exact, variants := Pick(m, entries, IsExactly(query)), Pick(m, entries, IsVariantOf(query));
    WindowOfBoth(exact, variants, offset, limit);
    WindowFits(exact + variants, offset, limit);
  }

  /** Completes the page the first pass has begun. */
  method CompletePage(file: MdictFile, source: CandidateSource, query: string, count: nat, offset: nat, limit: nat,
                      tally: Tally, ghost entries: seq<KeyEntry>, ghost known: Option<Offer>)
    returns (r: Result<Option<Page>>)
    requires file.Valid() && source.Valid() && KnownOffer(file.dict, source, count, known)
    requires |entries| == count && AllSupplied(file.dict, source, entries)
    requires tally == TallyOf(file.dict.matcher, entries, query, offset, limit)
    modifies file, source.Frame()
    ensures file.Valid() && source.Valid()
    ensures r.Ok? ==> r.value == CaseSelection(file.dict.matcher, entries, query, offset, limit)
    ensures known.Some? ==> r.Ok?
  {
    var total := tally.exactCount + tally.variantCount;
    var variantOffset := SaturatingSub(offset, tally.exactCount);
    TallyDecides(file.dict.matcher, entries, query, offset, limit, tally, variantOffset);
    if total == 0 {
      return Ok(None);
    }
    var ordinals := tally.ordinals;
    var wanted := Min(limit, SaturatingSub(total, offset));
    if |ordinals| < wanted {
      ordinals :- SecondPass(file, source, query, count, variantOffset, wanted, ordinals, limit, entries, known);
    }
    return Ok(Some(Page(if tally.variantCount == 0 then RawExact else CaseVariants, total, ordinals)));
  }

  /** Selects the page of `count` candidates. */
  method SelectPage(file: MdictFile, source: CandidateSource, query: string, count: nat, offset: nat, limit: nat,
                    ghost known: Option<Offer>)
    returns (r: Result<Option<Page>>, ghost entries: seq<KeyEntry>)
    requires file.Valid() && source.Valid() && KnownOffer(file.dict, source, count, known)
    modifies file, source.Frame()
    ensures file.Valid() && source.Valid()
    ensures r.Ok? ==> |entries| == count && AllSupplied(file.dict, source, entries)
    ensures r.Ok? ==> r.value == CaseSelection(file.dict.matcher, entries, query, offset, limit)
    ensures known.Some? ==> (r.Ok? <==> 4 * Min(limit, SaturatingSub(count, offset)) <= file.dict.locatorBytes)
  {
    entries := [];
    var capacity := Min(limit, SaturatingSub(count, offset));
    if 4 * capacity > file.dict.locatorBytes {
      return Err(LimitExceeded(PageBytes)), entries;
    }
    var counted;
    counted, entries := FirstPass(file, source, query, count, offset, limit, known);
    if counted.Err? {
      return Err(counted.error), entries;
    }
    r := CompletePage(file, source, query, count, offset, limit, counted.value, entries, known);
  }
}
