/** What every lookup means: a linear scan of the source keys (src/core/locator.rs, src/core/case_variants.rs). */
module LookupSpec {
  import opened Bytes
  import opened Normalize
  import opened RecordOrder
  import opened Sequences
  import opened Wrappers

  /** How keys are compared: the bytes of their normalized texts, and the scalar lowercase. */
  datatype Matcher = Matcher(normalize: string -> bytes, lower: char -> string)
  {
    function Bytes(key: string): bytes {
      normalize(key)
    }
  }

  /** The comparison a normalizer makes. */
  ghost predicate IsMatcherOf(m: Matcher, n: Normalizer) {
    m.lower == n.lower && forall key: string {:trigger n.Bytes(key)} :: m.Bytes(key) == n.Bytes(key)
  }

  /** What a key is tested for. */
  datatype Test =
    | IsExactly(query: string)
    | NormalizesLike(query: string)
    | IsVariantOf(query: string)
    | StartsLike(prefix: string)

  predicate Passes(m: Matcher, key: string, test: Test) {
    match test
    case IsExactly(query) => key == query
    case NormalizesLike(query) => m.Bytes(key) == m.Bytes(query)
    case IsVariantOf(query) => key != query && EqualIgnoringCase(m.lower, key, query)
    case StartsLike(prefix) => m.Bytes(prefix) <= m.Bytes(key)
  }

  /** `ordinal` names a key that passes. */
  predicate Chosen(m: Matcher, keys: seq<string>, ordinal: nat, test: Test) {
    ordinal < |keys| && Passes(m, keys[ordinal], test)
  }

  /** The ordinals among `rows` whose keys pass, in the order of `rows`. */
  function Select(m: Matcher, keys: seq<string>, rows: seq<nat>, test: Test): seq<nat> {
    if rows == [] then []
    else
      var before := Select(m, keys, rows[..|rows| - 1], test);
      if Chosen(m, keys, rows[|rows| - 1], test) then before + [rows[|rows| - 1]] else before
  }

  /** The linear scan. */
  function ScanFor(m: Matcher, keys: seq<string>, test: Test): seq<nat> {
    Select(m, keys, Iota(|keys|), test)
  }

  datatype Basis = RawExact | HeaderNormalized | CaseVariants

  datatype Located = Located(basis: Basis, ordinals: seq<nat>)

  datatype Page = Page(basis: Basis, total: nat, ordinals: seq<nat>)

  /** Global raw-exact precedence: exact matches if there are any, otherwise everything that normalizes alike. */
  function LocateSpec(m: Matcher, keys: seq<string>, query: string): Option<Located> {
    var exact, alike := ScanFor(m, keys, IsExactly(query)), ScanFor(m, keys, NormalizesLike(query));
    if exact != [] then Some(Located(RawExact, exact))
    else if alike != [] then Some(Located(HeaderNormalized, alike))
    else None
  }

  /** The window `[offset, offset + limit)` of a match list. */
  function Window<T>(matches: seq<T>, offset: nat, limit: nat): seq<T> {
    matches[Min(offset, |matches|)..Min(offset + limit, |matches|)]
  }

  function PageSpec(m: Matcher, keys: seq<string>, query: string, offset: nat, limit: nat): Option<Page> {
    match LocateSpec(m, keys, query)
    case None => None
    case Some(located) => Some(Page(located.basis, |located.ordinals|, Window(located.ordinals, offset, limit)))
  }

  /** All exact rows, then all case variants. */
  function CaseSpec(m: Matcher, keys: seq<string>, query: string, offset: nat, limit: nat): Option<Page> {
    var exact, variants := ScanFor(m, keys, IsExactly(query)), ScanFor(m, keys, IsVariantOf(query));
    CasePage(exact, variants, offset, limit)
  }

  function CasePage(exact: seq<nat>, variants: seq<nat>, offset: nat, limit: nat): Option<Page> {
    if exact + variants == [] then None
    else Some(Page(if variants == [] then RawExact else CaseVariants, |exact + variants|,
                   Window(exact + variants, offset, limit)))
  }

  /** The first `limit` rows, in normalized order, whose normalized key starts with the normalized prefix. */
  function PrefixSpec(m: Matcher, keys: seq<string>, prefix: string, limit: nat): seq<nat> {
    Window(Select(m, keys, OrderOf(TextsOf(m, keys)), StartsLike(prefix)), 0, limit)
  }

  function TextsOf(m: Matcher, keys: seq<string>): (texts: seq<bytes>)
    ensures |texts| == |keys|
    ensures forall i {:trigger texts[i]} | 0 <= i < |keys| :: texts[i] == m.Bytes(keys[i])
  {
    seq(|keys|, i requires 0 <= i < |keys| => m.Bytes(keys[i]))
  }

  /** The digest of a raw key; it may be any function. */
  function DigestOf(digest: string -> nat, key: string): nat {
    digest(key)
  }

  function DigestsOf(digest: string -> nat, keys: seq<string>): (digests: seq<nat>)
    ensures |digests| == |keys|
    ensures forall i {:trigger digests[i]} | 0 <= i < |keys| :: digests[i] == DigestOf(digest, keys[i])
  {
    seq(|keys|, i requires 0 <= i < |keys| => DigestOf(digest, keys[i]))
  }

  lemma TextsOfAppend(m: Matcher, keys: seq<string>, key: string)
    ensures TextsOf(m, keys + [key]) == TextsOf(m, keys) + [m.Bytes(key)]
  {
  }

  lemma DigestsAppend(digest: string -> nat, keys: seq<string>, key: string)
    ensures DigestsOf(digest, keys + [key]) == DigestsOf(digest, keys) + [DigestOf(digest, key)]
  {
  }

  // ----- selection -----

  lemma SelectStep(m: Matcher, keys: seq<string>, rows: seq<nat>, i: nat, test: Test)
    requires i < |rows|
    ensures Select(m, keys, rows[..i + 1], test) ==
            if Chosen(m, keys, rows[i], test) then Select(m, keys, rows[..i], test) + [rows[i]]
            else Select(m, keys, rows[..i], test)
  {
    assert rows[..i + 1][..i] == rows[..i];
  }

  lemma SelectAppend(m: Matcher, keys: seq<string>, rows: seq<nat>, row: nat, test: Test)
    ensures Select(m, keys, rows + [row], test) ==
            Select(m, keys, rows, test) + if Chosen(m, keys, row, test) then [row] else []
  {
    assert (rows + [row])[..|rows|] == rows;
    NilConcat(Select(m, keys, rows, test));
  }

  lemma {:induction false} SelectConcat(m: Matcher, keys: seq<string>, a: seq<nat>, b: seq<nat>, test: Test)
    ensures Select(m, keys, a + b, test) == Select(m, keys, a, test) + Select(m, keys, b, test)
  {
    if b == [] {
      NilConcat(a);
      NilConcat(Select(m, keys, a, test));
    } else {
      var front, last := b[..|b| - 1], b[|b| - 1];
      PrefixGrows(b, |b| - 1);
      Whole(b);
      Associative(a, front, [last]);
      SelectConcat(m, keys, a, front, test);
      SelectAppend(m, keys, a + front, last, test);
      SelectAppend(m, keys, front, last, test);
      Associative(Select(m, keys, a, test), Select(m, keys, front, test), if Chosen(m, keys, last, test) then [last] else []);
    }
  }

  lemma {:induction false} SelectedAre(m: Matcher, keys: seq<string>, rows: seq<nat>, test: Test, x: nat)
    ensures x in Select(m, keys, rows, test) <==> x in rows && Chosen(m, keys, x, test)
  {
    if rows != [] {
      SelectedAre(m, keys, rows[..|rows| - 1], test, x);
      assert rows == rows[..|rows| - 1] + [rows[|rows| - 1]];
    }
  }

  lemma {:induction false} SelectIsShorter(m: Matcher, keys: seq<string>, rows: seq<nat>, test: Test)
    ensures |Select(m, keys, rows, test)| <= |rows|
  {
    if rows != [] {
      SelectIsShorter(m, keys, rows[..|rows| - 1], test);
    }
  }

  lemma {:induction false} SelectNone(m: Matcher, keys: seq<string>, rows: seq<nat>, test: Test)
    requires forall i | 0 <= i < |rows| :: !Chosen(m, keys, rows[i], test)
    ensures Select(m, keys, rows, test) == []
  {
    if rows != [] {
      SelectNone(m, keys, rows[..|rows| - 1], test);
    }
  }

  /** Selecting in two steps, when what the second keeps survives the first. */
  lemma {:induction false} SelectTwice(m: Matcher, keys: seq<string>, rows: seq<nat>, wide: Test, narrow: Test)
    requires forall i | 0 <= i < |rows| && Chosen(m, keys, rows[i], narrow) :: Chosen(m, keys, rows[i], wide)
    ensures Select(m, keys, Select(m, keys, rows, wide), narrow) == Select(m, keys, rows, narrow)
  {
    if rows != [] {
      var front, last := rows[..|rows| - 1], rows[|rows| - 1];
      SelectTwice(m, keys, front, wide, narrow);
      SelectAppend(m, keys, Select(m, keys, front, wide), last, narrow);
    }
  }

  predicate Ascending(s: seq<nat>) {
    forall i, j | 0 <= i < j < |s| :: s[i] < s[j]
  }

  lemma {:induction false} SelectKeepsAscending(m: Matcher, keys: seq<string>, rows: seq<nat>, test: Test)
    requires Ascending(rows)
    ensures Ascending(Select(m, keys, rows, test))
  {
    if rows != [] {
      var front, last := rows[..|rows| - 1], rows[|rows| - 1];
      SelectKeepsAscending(m, keys, front, test);
      var before := Select(m, keys, front, test);
      forall i | 0 <= i < |before|
        ensures before[i] < last
      {
        SelectedAre(m, keys, front, test, before[i]);
        assert before[i] in front;
        var k :| 0 <= k < |front| && front[k] == before[i];
        assert rows[k] == before[i];
      }
    }
  }

  /** An ascending sequence is determined by what is in it. */
  lemma {:induction false} AscendingIsUnique(a: seq<nat>, b: seq<nat>)
    requires Ascending(a) && Ascending(b) && forall x :: x in a <==> x in b
    ensures a == b
    decreases |a|
  {
    assert a != [] ==> a[0] in a;
    assert b != [] ==> b[0] in b;
    if a != [] && b != [] {
      assert a[0] in b && b[0] in a;
      assert a[0] == b[0];
      forall x
        ensures x in a[1..] <==> x in b[1..]
      {
        InTail(a, x);
        InTail(b, x);
      }
      AscendingIsUnique(a[1..], b[1..]);
      HeadTail(a);
      HeadTail(b);
    }
  }

  lemma InTail(s: seq<nat>, x: nat)
    requires s != [] && Ascending(s)
    ensures x in s[1..] <==> x in s && x != s[0]
  {
    HeadTail(s);
    if x in s && x != s[0] {
      var i :| 0 <= i < |s| && s[i] == x;
      assert s[1..][i - 1] == x;
    }
  }

  lemma ScanIs(m: Matcher, keys: seq<string>, test: Test)
    ensures Ascending(ScanFor(m, keys, test))
    ensures forall x: nat :: x in ScanFor(m, keys, test) <==> Chosen(m, keys, x, test)
  {
    SelectKeepsAscending(m, keys, Iota(|keys|), test);
    forall x: nat
      ensures x in ScanFor(m, keys, test) <==> Chosen(m, keys, x, test)
    {
      SelectedAre(m, keys, Iota(|keys|), test, x);
      if x < |keys| {
        assert Iota(|keys|)[x] == x;
      }
    }
  }

  /** Any ascending list of exactly the chosen rows is the linear scan. */
  lemma IsScan(m: Matcher, keys: seq<string>, test: Test, rows: seq<nat>)
    requires Ascending(rows) && forall x: nat :: x in rows <==> Chosen(m, keys, x, test)
    ensures rows == ScanFor(m, keys, test)
  {
    ScanIs(m, keys, test);
    AscendingIsUnique(rows, ScanFor(m, keys, test));
  }

  /** Looking for exact matches among the rows that normalize alike finds all of them. */
  lemma ExactAmongAlike(m: Matcher, keys: seq<string>, query: string)
    ensures Select(m, keys, ScanFor(m, keys, NormalizesLike(query)), IsExactly(query)) == ScanFor(m, keys, IsExactly(query))
  {
    SelectTwice(m, keys, Iota(|keys|), NormalizesLike(query), IsExactly(query));
  }

  /** With case-insensitive matching, every case variant is found among the normalized matches, even with StripKey. */
  lemma VariantsAmongAlike(m: Matcher, n: Normalizer, keys: seq<string>, query: string)
    requires IsMatcherOf(m, n) && !n.caseSensitive && !n.resourcePath && LowerRespectsAscii(n.lower)
    ensures Select(m, keys, ScanFor(m, keys, NormalizesLike(query)), IsVariantOf(query)) ==
            ScanFor(m, keys, IsVariantOf(query))
  {
    forall i | 0 <= i < |keys| && Chosen(m, keys, i, IsVariantOf(query))
      ensures Chosen(m, keys, i, NormalizesLike(query))
    {
      CaseVariantsNormalizeAlike(n, keys[i], query);
      assert m.Bytes(keys[i]) == n.Bytes(keys[i]) && m.Bytes(query) == n.Bytes(query);
    }
    SelectTwice(m, keys, Iota(|keys|), NormalizesLike(query), IsVariantOf(query));
  }

  // ----- the sorted order answers the scan -----

  /** Where `order` starts and stops holding rows equal to `query`. */
  ghost predicate IsRangeOf(texts: seq<bytes>, order: seq<nat>, query: bytes, start: nat, end: nat) {
    && IsOrder(texts, order)
    && forall j | 0 <= j < |order| :: start <= j < end <==> texts[order[j]] == query
  }

  lemma OrderElements(texts: seq<bytes>, order: seq<nat>, x: nat)
    requires IsOrder(texts, order)
    ensures |order| == |texts| && (x in order <==> x < |texts|)
  {
    assert |multiset(order)| == |multiset(Iota(|texts|))|;
    assert x in order <==> x in multiset(order);
    assert x in Iota(|texts|) <==> x in multiset(Iota(|texts|));
    if x < |texts| {
      assert Iota(|texts|)[x] == x;
    }
  }

  lemma {:induction false} IotaCounts(n: nat, x: nat)
    ensures multiset(Iota(n))[x] <= 1 && (x >= n ==> x !in multiset(Iota(n)))
  {
    if n > 0 {
      IotaCounts(n - 1, x);
      assert Iota(n) == Iota(n - 1) + [n - 1];
    }
  }

  lemma EqualPlacesCountTwice(order: seq<nat>, i: nat, j: nat)
    requires i < j < |order| && order[i] == order[j]
    ensures multiset(order)[order[i]] >= 2
  {
    var x := order[i];
    SplitAt(order, i + 1);
    assert order[..i + 1][i] == x && order[i + 1..][j - i - 1] == x;
    MultisetOfConcat(order[..i + 1], order[i + 1..]);
  }

  lemma OrderIsInjective(texts: seq<bytes>, order: seq<nat>, i: nat, j: nat)
    requires IsOrder(texts, order) && i < j < |order|
    ensures order[i] != order[j]
  {
    IotaCounts(|texts|, order[i]);
    if order[i] == order[j] {
      EqualPlacesCountTwice(order, i, j);
    }
  }

  lemma RangeAscends(texts: seq<bytes>, order: seq<nat>, query: bytes, start: nat, end: nat)
    requires IsRangeOf(texts, order, query, start, end) && start <= end <= |order|
    ensures Ascending(order[start..end])
  {
    var rows := order[start..end];
    forall i, j | 0 <= i < j < |rows|
      ensures rows[i] < rows[j]
    {
      assert RowLe(texts, order[start + i], order[start + j]);
      assert texts[order[start + i]] == query && texts[order[start + j]] == query;
      OrderIsInjective(texts, order, start + i, start + j);
    }
  }

  /** The equal range of the order is the linear scan for keys that normalize alike. */
  lemma RangeIsScan(m: Matcher, keys: seq<string>, order: seq<nat>, query: string, start: nat, end: nat)
    requires IsRangeOf(TextsOf(m, keys), order, m.Bytes(query), start, end) && start <= end <= |order|
    ensures order[start..end] == ScanFor(m, keys, NormalizesLike(query))
  {
    var texts, rows := TextsOf(m, keys), order[start..end];
    RangeAscends(texts, order, m.Bytes(query), start, end);
    forall x: nat
      ensures x in rows <==> Chosen(m, keys, x, NormalizesLike(query))
    {
      OrderElements(texts, order, x);
      if x in rows {
        var i :| 0 <= i < |rows| && rows[i] == x;
        assert order[start + i] == x;
      }
      if Chosen(m, keys, x, NormalizesLike(query)) {
        var j :| 0 <= j < |order| && order[j] == x;
        assert rows[j - start] == x;
      }
    }
    IsScan(m, keys, NormalizesLike(query), rows);
  }

  /** Where the order stops being below `query`. */
  ghost predicate IsLowerBound(texts: seq<bytes>, order: seq<nat>, query: bytes, start: nat) {
    && IsOrder(texts, order)
    && start <= |order|
    && forall j | 0 <= j < |order| :: start <= j <==> LexLe(query, texts[order[j]])
  }

  /** Where the order starts being above `query`. */
  ghost predicate IsUpperBound(texts: seq<bytes>, order: seq<nat>, query: bytes, end: nat) {
    && IsOrder(texts, order)
    && end <= |order|
    && forall j | 0 <= j < |order| :: end <= j <==> LexLt(query, texts[order[j]])
  }

  lemma BoundsAreRange(texts: seq<bytes>, order: seq<nat>, query: bytes, start: nat, end: nat)
    requires IsLowerBound(texts, order, query, start) && IsUpperBound(texts, order, query, end)
    ensures IsRangeOf(texts, order, query, start, end) && start <= end
  {
    LexReflexive(query);
    forall j | 0 <= j < |order|
      ensures start <= j < end <==> texts[order[j]] == query
    {
      if start <= j < end {
        LexAntisymmetric(query, texts[order[j]]);
      }
    }
    if end < |order| {
      LexTotal(query, texts[order[end]]);
    }
  }

  /** No row before the lower bound of a prefix starts with it. */
  lemma PrefixRunStarts(m: Matcher, keys: seq<string>, order: seq<nat>, prefix: string, start: nat)
    requires IsLowerBound(TextsOf(m, keys), order, m.Bytes(prefix), start)
    ensures Select(m, keys, order[..start], StartsLike(prefix)) == []
  {
    forall i | 0 <= i < start
      ensures !Chosen(m, keys, order[..start][i], StartsLike(prefix))
    {
      if m.Bytes(prefix) <= m.Bytes(keys[order[i]]) {
        PrefixIsBelow(m.Bytes(prefix), m.Bytes(keys[order[i]]));
      }
    }
    SelectNone(m, keys, order[..start], StartsLike(prefix));
  }

  /** The rows starting with a prefix are one run: behind the first other row there are none. */
  lemma PrefixRunEnds(m: Matcher, keys: seq<string>, order: seq<nat>, prefix: string, start: nat, position: nat)
    requires IsLowerBound(TextsOf(m, keys), order, m.Bytes(prefix), start) && start <= position < |order|
    requires !(m.Bytes(prefix) <= m.Bytes(keys[order[position]]))
    ensures Select(m, keys, order[..position], StartsLike(prefix)) == Select(m, keys, order, StartsLike(prefix))
  {
    var texts, p := TextsOf(m, keys), m.Bytes(prefix);
    var rest := order[position..];
    forall i | 0 <= i < |rest|
      ensures !Chosen(m, keys, rest[i], StartsLike(prefix))
    {
      if i > 0 {
        assert RowLe(texts, order[position], order[position + i]);
        if p <= texts[order[position + i]] && texts[order[position]] != texts[order[position + i]] {
          PrefixRunIsContiguous(p, texts[order[position]], texts[order[position + i]]);
        }
      }
    }
    SelectNone(m, keys, rest, StartsLike(prefix));
    SelectConcat(m, keys, order[..position], rest, StartsLike(prefix));
    SplitAt(order, position);
    NilConcat(Select(m, keys, order[..position], StartsLike(prefix)));
  }

  /** What has been selected so far opens the whole selection. */
  lemma SelectionGrows(m: Matcher, keys: seq<string>, rows: seq<nat>, i: nat, test: Test)
    requires i <= |rows|
    ensures Select(m, keys, rows[..i], test) <= Select(m, keys, rows, test)
  {
    SplitAt(rows, i);
    SelectConcat(m, keys, rows[..i], rows[i..], test);
  }

  // ----- windows -----

  /** A page takes a match once its number has reached the offset, while there is room. */
  function Push<T>(page: seq<T>, matchIndex: nat, offset: nat, limit: nat, x: T): seq<T> {
    if matchIndex >= offset && |page| < limit then page + [x] else page
  }

  /** Pushing match after match builds the window. */
  lemma WindowAppend<T>(matches: seq<T>, last: T, offset: nat, limit: nat)
    ensures Window(matches + [last], offset, limit) == Push(Window(matches, offset, limit), |matches|, offset, limit, last)
  {
  }

  /** A page never outgrows the room reserved for it. */
  lemma WindowFits<T>(matches: seq<T>, offset: nat, limit: nat)
    ensures |Window(matches, offset, limit)| == Min(limit, SaturatingSub(|matches|, offset))
  {
  }

  /** The first `limit` matches, once as many have been found or there are no more. */
  lemma FirstMatches<T>(found: seq<T>, matches: seq<T>, limit: nat)
    requires found <= matches && (|found| == limit || (found == matches && |found| <= limit))
    ensures found == Window(matches, 0, limit)
  {
  }

  /** With anything that normalizes alike, the answer is the exact matches among it, or else all of it. */
  lemma LocateOfAlike(m: Matcher, keys: seq<string>, query: string)
    ensures var alike := ScanFor(m, keys, NormalizesLike(query));
            var exact := Select(m, keys, alike, IsExactly(query));
            LocateSpec(m, keys, query) ==
            if exact != [] then Some(Located(RawExact, exact))
            else if alike != [] then Some(Located(HeaderNormalized, alike))
            else None
  {
    ExactAmongAlike(m, keys, query);
  }

  lemma PageOfScans(m: Matcher, keys: seq<string>, query: string, offset: nat, limit: nat)
    ensures var exact, alike := ScanFor(m, keys, IsExactly(query)), ScanFor(m, keys, NormalizesLike(query));
            PageSpec(m, keys, query, offset, limit) ==
            if exact != [] then Some(Page(RawExact, |exact|, Window(exact, offset, limit)))
            else if alike != [] then Some(Page(HeaderNormalized, |alike|, Window(alike, offset, limit)))
            else None
  {
  }
}
