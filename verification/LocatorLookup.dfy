/** Lookups through the in-memory index; each equals its linear scan (src/core/locator.rs). */
module LocatorLookup {
  import opened Bytes
  import opened Dictionary
  import opened KeyBlocks
  import opened Locator
  import opened LookupSpec
  import opened Normalize
  import opened RecordOrder
  import opened Sequences
  import opened Wrappers

  /** The locator answers for the file's rows. */
  ghost predicate Indexed(dict: Dictionary, l: KeyLocator, keys: seq<string>) {
    && dict.KeysAre(keys)
    && IsOrder(TextsOf(dict.matcher, keys), l.order)
    && |l.order| == |l.rawDigest| == |keys|
    && ReadsAs(l, TextsOf(dict.matcher, keys))
    && forall i {:trigger l.rawDigest[i]} | 0 <= i < |keys| :: l.rawDigest[i] == DigestOf(dict.digest, keys[i])
  }

  /** The locator that was built answers for the file's rows. */
  lemma BuiltIsIndexed(dict: Dictionary, l: KeyLocator)
    requires dict.Valid() && dict.AllGood() && l == LocatorOf(dict.matcher, dict.digest, dict.Keys())
    ensures Indexed(dict, l, dict.Keys())
  {
    var texts := TextsOf(dict.matcher, dict.Keys());
    dict.KeysAreKeys();
    OrderOfIsOrder(texts);
    forall i | 0 <= i < |texts|
      ensures l.Row(i) == texts[i]
    {
      RowOfLocator(l.text, l.bounds, l.order, l.rawDigest, texts, i);
    }
  }

  /** The normalized query, unless it is longer than the limit. */
  method NormalizeQuery(dict: Dictionary, query: string) returns (r: Result<bytes>)
    requires dict.Valid()
    ensures r.Ok? <==> |dict.matcher.Bytes(query)| <= dict.locatorBytes
    ensures r.Ok? ==> r.value == dict.matcher.Bytes(query)
  {
    var normalizedLen :- NormalizedLen(dict.normalizer, query);
    if normalizedLen > dict.locatorBytes {
      return Err(LimitExceeded(NormalizedQueryBytes));
    }
    var normalized := NormalizeBytesInto(dict.normalizer, query, []);
    NilConcat(dict.matcher.Bytes(query));
    return Ok(normalized);
  }

  /** Rows of the order are read as these texts. */
  ghost predicate ReadsAs(l: KeyLocator, texts: seq<bytes>) {
    && (forall i {:trigger l.Row(i)} | 0 <= i < |texts| :: l.Row(i) == texts[i])
    && (forall j | 0 <= j < |l.order| :: l.order[j] < |texts|)
  }

  /** A position where the search for `query` turns from right to left. */
  method Partition(l: KeyLocator, query: bytes, inclusiveEnd: bool, ghost texts: seq<bytes>) returns (position: nat)
    requires ReadsAs(l, texts)
    ensures position <= |l.order|
    ensures position > 0 ==> !GoesLeft(texts[l.order[position - 1]], query, inclusiveEnd)
    ensures position < |l.order| ==> GoesLeft(texts[l.order[position]], query, inclusiveEnd)
  {
    var left, right := 0, |l.order|;
    while left < right
      invariant 0 <= left <= right <= |l.order|
      invariant left > 0 ==> !GoesLeft(texts[l.order[left - 1]], query, inclusiveEnd)
      invariant right < |l.order| ==> GoesLeft(texts[l.order[right]], query, inclusiveEnd)
    {
      var middle := left + (right - left) / 2;
      if GoesLeft(l.Row(l.order[middle]), query, inclusiveEnd) {
        right := middle;
      } else {
        left := middle + 1;
      }
    }
    return left;
  }

  /** The first position whose row is not below (`inclusiveEnd`: is above) the query. */
  method PartitionPoint(dict: Dictionary, l: KeyLocator, query: bytes, inclusiveEnd: bool, ghost keys: seq<string>)
    returns (position: nat)
    requires Indexed(dict, l, keys)
    ensures !inclusiveEnd ==> IsLowerBound(TextsOf(dict.matcher, keys), l.order, query, position)
    ensures inclusiveEnd ==> IsUpperBound(TextsOf(dict.matcher, keys), l.order, query, position)
  {
    position := Partition(l, query, inclusiveEnd, TextsOf(dict.matcher, keys));
    forall j | 0 <= j < |l.order|
      ensures GoesLeft(TextsOf(dict.matcher, keys)[l.order[j]], query, inclusiveEnd) <==> position <= j
    {
      TurnSplits(TextsOf(dict.matcher, keys), l.order, query, inclusiveEnd, position, j);
    }
  }

  /** The positions of the rows equal to the query, if there are any. */
  method EqualRange(dict: Dictionary, l: KeyLocator, query: bytes, ghost keys: seq<string>) returns (r: Option<(nat, nat)>)
    requires Indexed(dict, l, keys)
    ensures r.Some? ==> r.value.0 < r.value.1 <= |l.order| && IsRangeOf(TextsOf(dict.matcher, keys), l.order, query, r.value.0, r.value.1)
    ensures r == None ==> IsRangeOf(TextsOf(dict.matcher, keys), l.order, query, 0, 0)
  {
    var start := PartitionPoint(dict, l, query, false, keys);
    var end := PartitionPoint(dict, l, query, true, keys);
    BoundsAreRange(TextsOf(dict.matcher, keys), l.order, query, start, end);
    if start < end {
      return Some((start, end));
    }
    return None;
  }

  /** The source key of a row, through the key blocks. */
  method SourceKey(file: MdictFile, row: nat, ghost keys: seq<string>) returns (r: Result<string>)
    requires file.Valid() && file.dict.KeysAre(keys) && row < |keys|
    modifies file
    ensures file.Valid() && r == Ok(keys[row])
  {
    var found := file.KeyEntryAtOrdinal(row);
    var hit := found.value.value;
    HitIsKey(file.dict, row, hit);
    return Ok(hit.entries[hit.entryIndex].key);
  }

  lemma HitIsKey(dict: Dictionary, row: nat, hit: KeyBlockHit)
    requires dict.Valid() && IsHit(dict, row, hit)
    ensures dict.KeyIs(row, hit.entries[hit.entryIndex].key)
  {
    assert dict.RowIsIn(hit.blockIndex, row, hit.entries[hit.entryIndex]);
    assert dict.RowIs(row, hit.entries[hit.entryIndex]);
  }

  /** Whether the row at `position` of the order is raw-exact; the digest only saves reading its key. */
  method IsExactAt(file: MdictFile, l: KeyLocator, position: nat, query: string, ghost keys: seq<string>) returns (r: Result<bool>)
    requires file.Valid() && Indexed(file.dict, l, keys) && position < |l.order|
    modifies file
    ensures file.Valid()
    ensures r == Ok(Chosen(file.dict.matcher, keys, l.order[position], IsExactly(query)))
  {
    var row := l.order[position];
    if l.rawDigest[row] != DigestOf(file.dict.digest, query) {
      return Ok(false);
    }
    var key := SourceKey(file, row, keys);
    return Ok(key.value == query);
  }

  /** The raw-exact rows of a range, in ascending order; `None` when there are none. */
  method RawExactWithin(file: MdictFile, l: KeyLocator, start: nat, end: nat, query: string, ghost keys: seq<string>)
    returns (r: Result<Option<seq<nat>>>)
    requires file.Valid() && Indexed(file.dict, l, keys) && start <= end <= |l.order| && Ascending(l.order[start..end])
    modifies file
    ensures file.Valid()
    ensures var exact := Select(file.dict.matcher, keys, l.order[start..end], IsExactly(query));
            r == Ok(if exact == [] then None else Some(exact))
  {
    ghost var m, seen := file.dict.matcher, [];
    var matches := [];
    for i := 0 to end - start
      invariant file.Valid() && Follows(l.order, start, seen) && |seen| == i
      invariant matches == Select(m, keys, seen, IsExactly(query))
    {
      var ordinal := l.order[start + i];
      var isExact := IsExactAt(file, l, start + i, query, keys);
      FollowsAppend(l.order, start, seen, ordinal);
      SelectAppend(m, keys, seen, ordinal, IsExactly(query));
      seen := seen + [ordinal];
      if isExact.value {
        matches := matches + [ordinal];
      } else {
        NilConcat(matches);
      }
    }
    FollowsIsSlice(l.order, start, seen);
    if matches == [] {
      return Ok(None);
    }
    SelectKeepsAscending(m, keys, seen, IsExactly(query));
    SortOfAscending(matches);
    return Ok(Some(SortOrdinals(matches)));
  }

  function SortOrdinals(s: seq<nat>): seq<nat> {
    if s == [] then [] else InsertOrdinal(s[0], SortOrdinals(s[1..]))
  }

  function InsertOrdinal(x: nat, sorted: seq<nat>): seq<nat> {
    if sorted == [] || x <= sorted[0] then [x] + sorted else [sorted[0]] + InsertOrdinal(x, sorted[1..])
  }

  lemma {:induction false} SortOfAscending(s: seq<nat>)
    requires Ascending(s)
    ensures SortOrdinals(s) == s
  {
    if s != [] {
      SortOfAscending(s[1..]);
      HeadTail(s);
    }
  }

  /** All matches of a query, with global raw-exact precedence. */
  method LocateKeys(file: MdictFile, l: KeyLocator, query: string, ghost keys: seq<string>) returns (r: Result<Option<Located>>)
    requires file.Valid() && Indexed(file.dict, l, keys)
    modifies file
    ensures file.Valid()
    ensures r.Ok? <==> |file.dict.matcher.Bytes(query)| <= file.dict.locatorBytes
    ensures r.Ok? ==> r.value == LocateSpec(file.dict.matcher, keys, query)
  {
    var dict := file.dict;
    var normalized :- NormalizeQuery(dict, query);
    var range := EqualRange(dict, l, normalized, keys);
    if range == None {
      NothingAlike(dict, l, query, keys);
      return Ok(None);
    }
    var (start, end) := range.value;
    AlikeAreRange(dict, l, query, start, end, keys);
    var exact := RawExactWithin(file, l, start, end, query, keys);
    if exact.value.Some? {
      return Ok(Some(Located(RawExact, exact.value.value)));
    }
    return Ok(Some(Located(HeaderNormalized, l.order[start..end])));
  }

  lemma AlikeAreRange(dict: Dictionary, l: KeyLocator, query: string, start: nat, end: nat, keys: seq<string>)
    requires Indexed(dict, l, keys) && start <= end <= |l.order|
    requires IsRangeOf(TextsOf(dict.matcher, keys), l.order, dict.matcher.Bytes(query), start, end)
    ensures Ascending(l.order[start..end])
    ensures l.order[start..end] == ScanFor(dict.matcher, keys, NormalizesLike(query))
    ensures Select(dict.matcher, keys, l.order[start..end], IsExactly(query)) ==
            ScanFor(dict.matcher, keys, IsExactly(query))
  {
    RangeAscends(TextsOf(dict.matcher, keys), l.order, dict.matcher.Bytes(query), start, end);
    RangeIsScan(dict.matcher, keys, l.order, query, start, end);
    ExactAmongAlike(dict.matcher, keys, query);
  }

  lemma NothingAlike(dict: Dictionary, l: KeyLocator, query: string, keys: seq<string>)
    requires Indexed(dict, l, keys) && IsRangeOf(TextsOf(dict.matcher, keys), l.order, dict.matcher.Bytes(query), 0, 0)
    ensures ScanFor(dict.matcher, keys, NormalizesLike(query)) == []
    ensures ScanFor(dict.matcher, keys, IsExactly(query)) == []
  {
    AlikeAreRange(dict, l, query, 0, 0, keys);
    assert l.order[0..0] == [];
  }

  // ----- pages -----

  /** The room a page needs: it is computed from the matches that normalize alike. */
  ghost predicate PageFits(dict: Dictionary, keys: seq<string>, query: string, offset: nat, limit: nat)
  {
    var alike := ScanFor(dict.matcher, keys, NormalizesLike(query));
    && |dict.matcher.Bytes(query)| <= dict.locatorBytes
    && (alike != [] ==> 4 * Min(limit, SaturatingSub(|alike|, offset)) <= dict.locatorBytes)
  }

  /** What a page has collected from these rows: the number of exact matches and the window of them. */
  ghost function Collected(m: Matcher, keys: seq<string>, rows: seq<nat>, query: string, offset: nat, limit: nat)
    : (nat, seq<nat>)
  {
    var exact := Select(m, keys, rows, IsExactly(query));
    (|exact|, Window(exact, offset, limit))
  }

  /** The window of the exact matches in a range, and how many there are; it never outgrows the room for it. */
  method ExactWindow(file: MdictFile, l: KeyLocator, start: nat, end: nat, query: string, offset: nat, limit: nat, ghost keys: seq<string>)
    returns (r: Result<(nat, seq<nat>)>)
    requires file.Valid() && Indexed(file.dict, l, keys) && start <= end <= |l.order|
    modifies file
    ensures file.Valid()
    ensures r == Ok(Collected(file.dict.matcher, keys, l.order[start..end], query, offset, limit))
  {
    ghost var m, seen, exact: seq<nat> := file.dict.matcher, [], [];
    var ordinals: seq<nat> := [];
    var exactCount: nat := 0;
    for i := 0 to end - start
      invariant file.Valid() && Follows(l.order, start, seen) && |seen| == i
      invariant exact == Select(m, keys, seen, IsExactly(query))
      invariant exactCount == |exact| && ordinals == Window(exact, offset, limit)
    {
      var ordinal := l.order[start + i];
      var isExact := IsExactAt(file, l, start + i, query, keys);
      FollowsAppend(l.order, start, seen, ordinal);
      SelectAppend(m, keys, seen, ordinal, IsExactly(query));
      seen := seen + [ordinal];
      if isExact.value {
        WindowAppend(exact, ordinal, offset, limit);
        ordinals := Push(ordinals, exactCount, offset, limit, ordinal);
        exactCount := exactCount + 1;
        exact := exact + [ordinal];
      } else {
        NilConcat(exact);
      }
    }
    FollowsIsSlice(l.order, start, seen);
    return Ok((exactCount, ordinals));
  }

  /** `seen` is what the order has from `start` on. */
  ghost predicate Follows(order: seq<nat>, start: nat, seen: seq<nat>) {
    start + |seen| <= |order| && forall j | 0 <= j < |seen| :: seen[j] == order[start + j]
  }

  lemma FollowsAppend(order: seq<nat>, start: nat, seen: seq<nat>, ordinal: nat)
    requires Follows(order, start, seen) && start + |seen| < |order| && ordinal == order[start + |seen|]
    ensures Follows(order, start, seen + [ordinal])
  {
  }

  lemma FollowsIsSlice(order: seq<nat>, start: nat, seen: seq<nat>)
    requires Follows(order, start, seen)
    ensures order[start..start + |seen|] == seen
  {
  }

  /** The requested window, in ordinal order, of the raw-exact matches if there are any, and otherwise of all that normalize alike. */
  method LocateKeyPage(file: MdictFile, l: KeyLocator, query: string, offset: nat, limit: nat, ghost keys: seq<string>)
    returns (r: Result<Option<Page>>)
    requires file.Valid() && Indexed(file.dict, l, keys)
    modifies file
    ensures file.Valid()
    ensures r.Ok? <==> PageFits(file.dict, keys, query, offset, limit)
    ensures r.Ok? ==> r.value == PageSpec(file.dict.matcher, keys, query, offset, limit)
  {
    var dict := file.dict;
    var normalized :- NormalizeQuery(dict, query);
    var range := EqualRange(dict, l, normalized, keys);
    if range == None {
      NothingAlike(dict, l, query, keys);
      return Ok(None);
    }
    var (start, end) := range.value;
    AlikeAreRange(dict, l, query, start, end, keys);
    r := PageOfRange(file, l, start, end, query, offset, limit, keys);
  }

  /** The page of a nonempty range. */
  method PageOfRange(file: MdictFile, l: KeyLocator, start: nat, end: nat, query: string, offset: nat, limit: nat,
                     ghost keys: seq<string>)
    returns (r: Result<Option<Page>>)
    requires file.Valid() && Indexed(file.dict, l, keys) && start < end <= |l.order|
    requires l.order[start..end] == ScanFor(file.dict.matcher, keys, NormalizesLike(query))
    modifies file
    ensures file.Valid()
    ensures r.Ok? <==> 4 * Min(limit, SaturatingSub(end - start, offset)) <= file.dict.locatorBytes
    ensures r.Ok? ==> r.value == PageSpec(file.dict.matcher, keys, query, offset, limit)
  {
    var dict := file.dict;
    var pageCapacity := Min(limit, SaturatingSub(end - start, offset));
    if 4 * pageCapacity > dict.locatorBytes {
      return Err(LimitExceeded(PageBytes));
    }
    PageOfCollected(dict.matcher, keys, query, l.order, start, end, offset, limit);
    var found := ExactWindow(file, l, start, end, query, offset, limit, keys);
    var (exactCount, ordinals) := found.value;
    if exactCount != 0 {
      return Ok(Some(Page(RawExact, exactCount, ordinals)));
    }
    var total := end - start;
    var pageStart := start + Min(offset, total);
    var pageEnd := Min(pageStart + limit, end);
    return Ok(Some(Page(HeaderNormalized, total, l.order[pageStart..pageEnd])));
  }

  /** The page in terms of what was collected from the range. */
  lemma PageOfCollected(m: Matcher, keys: seq<string>, query: string, order: seq<nat>, start: nat, end: nat,
                        offset: nat, limit: nat)
    requires start < end <= |order| && order[start..end] == ScanFor(m, keys, NormalizesLike(query))
    ensures var (count, ordinals) := Collected(m, keys, order[start..end], query, offset, limit);
            var from := start + Min(offset, end - start);
            PageSpec(m, keys, query, offset, limit) ==
            if count != 0 then Some(Page(RawExact, count, ordinals))
            else Some(Page(HeaderNormalized, end - start, order[from..Min(from + limit, end)]))
  {
    PageOfScans(m, keys, query, offset, limit);
    ExactAmongAlike(m, keys, query);
    RangeWindow(order, start, end, offset, limit);
  }

  lemma RangeWindow(order: seq<nat>, start: nat, end: nat, offset: nat, limit: nat)
    requires start <= end <= |order|
    ensures var from := start + Min(offset, end - start);
            order[from..Min(from + limit, end)] == Window(order[start..end], offset, limit)
  {
    SliceOfSlice(order, start, end, Min(offset, end - start), Min(offset + limit, end - start));
  }

  // ----- prefixes -----

  /** The first `limit` rows, in normalized order, whose normalized key starts with the normalized prefix. */
  method LocatePrefix(file: MdictFile, l: KeyLocator, prefix: string, limit: nat, ghost keys: seq<string>) returns (r: Result<seq<nat>>)
    requires Indexed(file.dict, l, keys)
    ensures r.Ok? <==> limit == 0 || |file.dict.matcher.Bytes(prefix)| <= file.dict.locatorBytes
    ensures r.Ok? ==> r.value == PrefixSpec(file.dict.matcher, keys, prefix, limit)
  {
    if limit == 0 {
      return Ok([]);
    }
    var dict := file.dict;
    var normalized :- NormalizeQuery(dict, prefix);
    var start := PartitionPoint(dict, l, normalized, false, keys);
    var found := PrefixRun(l, normalized, start, limit, dict.matcher, keys, prefix);
    OrderIsUnique(TextsOf(dict.matcher, keys), l.order);
    return Ok(found);
  }

  /** Collects rows from `start` on while they start with the prefix. */
  method PrefixRun(l: KeyLocator, normalized: bytes, start: nat, limit: nat,
                   ghost m: Matcher, ghost keys: seq<string>, ghost prefix: string)
    returns (found: seq<nat>)
    requires ReadsAs(l, TextsOf(m, keys)) && IsLowerBound(TextsOf(m, keys), l.order, normalized, start)
    requires normalized == m.Bytes(prefix) && 0 < limit
    ensures found == Window(Select(m, keys, l.order, StartsLike(prefix)), 0, limit)
  {
    ghost var all := Select(m, keys, l.order, StartsLike(prefix));
    PrefixRunStarts(m, keys, l.order, prefix, start);
    found := [];
    var position := start;
    while position < |l.order|
      invariant start <= position <= |l.order|
      invariant found == Select(m, keys, l.order[..position], StartsLike(prefix)) && |found| < limit
    {
      var row := l.order[position];
      assert l.Row(row) == m.Bytes(keys[row]);
      if !(normalized <= l.Row(row)) {
        PrefixRunEnds(m, keys, l.order, prefix, start, position);
        FirstMatches(found, all, limit);
        return found;
      }
      SelectStep(m, keys, l.order, position, StartsLike(prefix));
      found := found + [row];
      position := position + 1;
      if |found| == limit {
        SelectionGrows(m, keys, l.order, position, StartsLike(prefix));
        FirstMatches(found, all, limit);
        return found;
      }
    }
    Whole(l.order);
    FirstMatches(found, all, limit);
  }

  // ----- scanning -----

  datatype Visit = Visit(ordinal: nat, text: bytes)

  /** What a visitor that breaks off at its `stopAfter`-th call sees. */
  function VisitsOf(texts: seq<bytes>, stopAfter: Option<nat>): (visits: seq<Visit>)
  {
    var count := match stopAfter case None => |texts| case Some(k) => Min(Max(k, 1), |texts|);
    seq(count, i requires 0 <= i < |texts| => Visit(i, texts[i]))
  }

  /** Visits every normalized key in physical order. */
  method ScanNormalizedKeys(dict: Dictionary, l: KeyLocator, stopAfter: Option<nat>, ghost keys: seq<string>) returns (visits: seq<Visit>)
    requires Indexed(dict, l, keys)
    ensures visits == VisitsOf(TextsOf(dict.matcher, keys), stopAfter)
  {
    visits := VisitRows(l, stopAfter, TextsOf(dict.matcher, keys));
  }

  method VisitRows(l: KeyLocator, stopAfter: Option<nat>, ghost texts: seq<bytes>) returns (visits: seq<Visit>)
    requires ReadsAs(l, texts) && |l.order| == |texts|
    ensures visits == VisitsOf(texts, stopAfter)
  {
    visits := [];
    for row := 0 to |l.order|
      invariant |visits| == row && (stopAfter.Some? ==> row < Max(stopAfter.value, 1))
      invariant forall i | 0 <= i < row :: visits[i] == Visit(i, texts[i])
    {
      visits := visits + [Visit(row, l.Row(row))];
      if stopAfter.Some? && |visits| >= stopAfter.value {
        break;
      }
    }
  }
}
