/**
 * The order every index is sorted by: normalized bytes, then physical ordinal
 * (src/core/persistent/sort.rs and src/core/locator.rs).
 */
module RecordOrder {
  import opened Bytes

  datatype Rec = Rec(key: bytes, ordinal: nat)

  predicate RecLe(a: Rec, b: Rec) {
    if a.key == b.key then a.ordinal <= b.ordinal else LexLe(a.key, b.key)
  }

  ghost predicate Sorted(s: seq<Rec>) {
    forall i, j | 0 <= i < j < |s| :: RecLe(s[i], s[j])
  }

  /** `r` is `s` rearranged into ascending order. */
  ghost predicate IsSortOf(r: seq<Rec>, s: seq<Rec>) {
    Sorted(r) && multiset(r) == multiset(s)
  }

  lemma RecLeTotal(a: Rec, b: Rec)
    ensures RecLe(a, b) || RecLe(b, a)
  {
    LexTotal(a.key, b.key);
  }

  lemma RecLeAntisymmetric(a: Rec, b: Rec)
    requires RecLe(a, b) && RecLe(b, a)
    ensures a == b
  {
    if a.key != b.key {
      LexAntisymmetric(a.key, b.key);
    }
  }

  lemma RecLeTransitive(a: Rec, b: Rec, c: Rec)
    requires RecLe(a, b) && RecLe(b, c)
    ensures RecLe(a, c)
  {
    LexReflexive(a.key);
    LexReflexive(b.key);
    LexTransitive(a.key, b.key, c.key);
    if a.key == c.key {
      if a.key != b.key {
        LexAntisymmetric(a.key, b.key);
      }
    }
  }

  lemma HeadIsLeast(s: seq<Rec>, x: Rec)
    requires Sorted(s) && x in s
    ensures RecLe(s[0], x)
  {
    var i :| 0 <= i < |s| && s[i] == x;
    RecLeTotal(x, x);
    assert i > 0 ==> RecLe(s[0], s[i]);
  }

  lemma SameHeads(a: seq<Rec>, b: seq<Rec>)
    requires Sorted(a) && Sorted(b) && multiset(a) == multiset(b) && a != []
    ensures b != [] && a[0] == b[0]
  {
    assert |multiset(a)| == |multiset(b)|;
    assert a[0] in multiset(b) && b[0] in multiset(a);
    HeadIsLeast(a, b[0]);
    HeadIsLeast(b, a[0]);
    RecLeAntisymmetric(a[0], b[0]);
  }

  lemma MultisetOfTail(s: seq<Rec>)
    requires s != []
    ensures multiset(s[1..]) == multiset(s) - multiset{s[0]} && s == [s[0]] + s[1..]
  {
    assert s == [s[0]] + s[1..];
  }

  /** The least element of a sorted sequence is its head, so sorted rearrangements are equal. */
  lemma {:induction false} SortedIsUnique(a: seq<Rec>, b: seq<Rec>)
    requires Sorted(a) && Sorted(b) && multiset(a) == multiset(b)
    ensures a == b
  {
    if a == [] {
      assert |multiset(a)| == |multiset(b)|;
    } else {
      SameHeads(a, b);
      MultisetOfTail(a);
      MultisetOfTail(b);
      SortedIsUnique(a[1..], b[1..]);
    }
  }

  function Insert(x: Rec, s: seq<Rec>): seq<Rec> {
    if s == [] then [x]
    else if RecLe(x, s[0]) then [x] + s
    else [s[0]] + Insert(x, s[1..])
  }

  /** What the library sort leaves behind; any algorithm does, by `SortedIsUnique`. */
  function SortRecs(s: seq<Rec>): seq<Rec> {
    if s == [] then [] else Insert(s[0], SortRecs(s[1..]))
  }

  lemma {:induction false} InsertKeeps(x: Rec, s: seq<Rec>)
    requires Sorted(s)
    ensures IsSortOf(Insert(x, s), [x] + s)
  {
    if s != [] {
      if RecLe(x, s[0]) {
        forall j | 0 <= j < |s|
          ensures RecLe(x, s[j])
        {
          if j > 0 {
            RecLeTransitive(x, s[0], s[j]);
          }
        }
      } else {
        InsertKeeps(x, s[1..]);
        var r := Insert(x, s[1..]);
        assert s == [s[0]] + s[1..];
        RecLeTotal(x, s[0]);
        forall j | 0 <= j < |r|
          ensures RecLe(s[0], r[j])
        {
          assert r[j] in multiset(r);
          assert r[j] in multiset([x] + s[1..]);
          assert r[j] == x || r[j] in s[1..];
        }
      }
    }
  }

  lemma {:induction false} SortRecsSorts(s: seq<Rec>)
    ensures IsSortOf(SortRecs(s), s)
  {
    if s != [] {
      SortRecsSorts(s[1..]);
      InsertKeeps(s[0], SortRecs(s[1..]));
      assert s == [s[0]] + s[1..];
    }
  }

  lemma SortOfIsSortRecs(r: seq<Rec>, s: seq<Rec>)
    requires IsSortOf(r, s)
    ensures r == SortRecs(s)
  {
    SortRecsSorts(s);
    SortedIsUnique(r, SortRecs(s));
  }

  // ----- the order section -----

  function Ordinals(s: seq<Rec>): (r: seq<nat>)
    ensures |r| == |s|
    ensures forall i | 0 <= i < |s| :: r[i] == s[i].ordinal
  {
    seq(|s|, i requires 0 <= i < |s| => s[i].ordinal)
  }

  /** Row `i` of a dictionary with normalized keys `texts`, as a sort record. */
  function RowRecs(texts: seq<bytes>): (r: seq<Rec>)
    ensures |r| == |texts|
    ensures forall i | 0 <= i < |texts| :: r[i] == Rec(texts[i], i)
  {
    seq(|texts|, i requires 0 <= i < |texts| => Rec(texts[i], i))
  }

  function OrderOf(texts: seq<bytes>): seq<nat> {
    Ordinals(SortRecs(RowRecs(texts)))
  }

  function Iota(n: nat): (r: seq<nat>)
    ensures |r| == n && forall i | 0 <= i < n :: r[i] == i
  {
    seq(n, i => i)
  }

  predicate RowLe(texts: seq<bytes>, i: nat, j: nat)
    requires i < |texts| && j < |texts|
  {
    RecLe(Rec(texts[i], i), Rec(texts[j], j))
  }

  ghost predicate AreRows(texts: seq<bytes>, rows: seq<nat>) {
    forall k | 0 <= k < |rows| :: rows[k] < |texts|
  }

  /** `order` is a permutation of the rows, sorted by normalized bytes and then by row. */
  ghost predicate IsOrder(texts: seq<bytes>, order: seq<nat>) {
    && multiset(order) == multiset(Iota(|texts|))
    && AreRows(texts, order)
    && forall i, j {:trigger RowLe(texts, order[i], order[j])} | 0 <= i < j < |order| :: RowLe(texts, order[i], order[j])
  }

  function RecsOf(texts: seq<bytes>, rows: seq<nat>): (r: seq<Rec>)
    requires AreRows(texts, rows)
    ensures |r| == |rows|
    ensures forall k | 0 <= k < |rows| :: r[k] == Rec(texts[rows[k]], rows[k])
  {
    seq(|rows|, k requires 0 <= k < |rows| => Rec(texts[rows[k]], rows[k]))
  }

  lemma {:induction false} RecsOfKeepsCounts(texts: seq<bytes>, rows: seq<nat>, x: nat)
    requires AreRows(texts, rows) && x < |texts|
    ensures multiset(RecsOf(texts, rows))[Rec(texts[x], x)] == multiset(rows)[x]
    ensures forall r :: r in multiset(RecsOf(texts, rows)) ==> r.ordinal < |texts| && r == Rec(texts[r.ordinal], r.ordinal)
  {
    if rows != [] {
      var n := |rows| - 1;
      RecsOfKeepsCounts(texts, rows[..n], x);
      assert rows == rows[..n] + [rows[n]];
      assert RecsOf(texts, rows) == RecsOf(texts, rows[..n]) + [Rec(texts[rows[n]], rows[n])];
    }
  }

  lemma RecsOfRespectsPermutation(texts: seq<bytes>, a: seq<nat>, b: seq<nat>)
    requires AreRows(texts, a) && AreRows(texts, b)
    ensures multiset(a) == multiset(b) ==> multiset(RecsOf(texts, a)) == multiset(RecsOf(texts, b))
    ensures multiset(RecsOf(texts, a)) == multiset(RecsOf(texts, b)) ==> multiset(a) == multiset(b)
  {
    var ra, rb := multiset(RecsOf(texts, a)), multiset(RecsOf(texts, b));
    forall x: nat | x < |texts|
      ensures ra[Rec(texts[x], x)] == multiset(a)[x] && rb[Rec(texts[x], x)] == multiset(b)[x]
    {
      RecsOfKeepsCounts(texts, a, x);
      RecsOfKeepsCounts(texts, b, x);
    }
    if multiset(a) == multiset(b) {
      forall r: Rec
        ensures ra[r] == rb[r]
      {
        if r in ra || r in rb {
          RecsOfKeepsCounts(texts, a, 0);
          RecsOfKeepsCounts(texts, b, 0);
        }
      }
    }
    if ra == rb {
      forall x: nat
        ensures multiset(a)[x] == multiset(b)[x]
      {
        if x < |texts| {
          assert ra[Rec(texts[x], x)] == rb[Rec(texts[x], x)];
        }
      }
    }
  }

  /** The order section is a sorted permutation of the rows. */
  lemma OrderOfIsOrder(texts: seq<bytes>)
    ensures IsOrder(texts, OrderOf(texts))
    ensures |OrderOf(texts)| == |texts|
  {
    var rows, sorted := RowRecs(texts), SortRecs(RowRecs(texts));
    SortRecsSorts(rows);
    assert |multiset(sorted)| == |multiset(rows)|;
    forall k | 0 <= k < |sorted|
      ensures sorted[k].ordinal < |texts| && sorted[k] == Rec(texts[sorted[k].ordinal], sorted[k].ordinal)
    {
      assert sorted[k] in multiset(sorted);
      assert sorted[k] in multiset(rows);
    }
    var order := OrderOf(texts);
    assert RecsOf(texts, order) == sorted && RecsOf(texts, Iota(|texts|)) == rows;
    RecsOfRespectsPermutation(texts, order, Iota(|texts|));
  }

  /** It is the only one. */
  lemma OrderIsUnique(texts: seq<bytes>, order: seq<nat>)
    requires IsOrder(texts, order)
    ensures order == OrderOf(texts)
  {
    var recs := RecsOf(texts, order);
    assert RecsOf(texts, Iota(|texts|)) == RowRecs(texts);
    RecsOfRespectsPermutation(texts, order, Iota(|texts|));
    assert forall i, j | 0 <= i < j < |order| :: RowLe(texts, order[i], order[j]) && recs[i] == Rec(texts[order[i]], order[i]);
    SortOfIsSortRecs(recs, RowRecs(texts));
  }

  /** Whether a binary search for `query` turns left at a row. */
  predicate GoesLeft(row: bytes, query: bytes, inclusiveEnd: bool) {
    if inclusiveEnd then LexLt(query, row) else LexLe(query, row)
  }

  /** A place where the search turns from right to left splits a sorted order. */
  lemma TurnSplits(texts: seq<bytes>, order: seq<nat>, query: bytes, inclusiveEnd: bool, boundary: nat, j: nat)
    requires IsOrder(texts, order) && boundary <= |order| && j < |order|
    requires boundary > 0 ==> !GoesLeft(texts[order[boundary - 1]], query, inclusiveEnd)
    requires boundary < |order| ==> GoesLeft(texts[order[boundary]], query, inclusiveEnd)
    ensures GoesLeft(texts[order[j]], query, inclusiveEnd) <==> boundary <= j
  {
    var at := if boundary <= j then boundary else boundary - 1;
    if at != j {
      var lower, upper := Min(at, j), Max(at, j);
      assert RowLe(texts, order[lower], order[upper]);
      var a, b := texts[order[lower]], texts[order[upper]];
      if LexLe(query, a) && LexLe(a, b) {
        LexTransitive(query, a, b);
      }
      if LexLe(a, b) && LexLe(b, query) {
        LexTransitive(a, b, query);
      }
    }
  }
}
