/**
 * What the order of an index means to a reader of its rows: text order by the first difference, and then physical
 * order (src/core/persistent/sort.rs, src/core/locator.rs).
 */
module TextOrder {
  import opened Bytes
  import opened LookupSpec
  import opened RecordOrder
  import opened Sequences
  import opened Utf8

  /** The strings agree before position `k` and `a` has the smaller byte there. */
  ghost predicate FallsBelowAt(a: bytes, b: bytes, k: nat) {
    k < |a| && k < |b| && a[..k] == b[..k] && a[k] < b[k]
  }

  /** `a` is the beginning of `b`, or smaller where they first differ. */
  ghost predicate NotAbove(a: bytes, b: bytes) {
    a <= b || exists k: nat :: FallsBelowAt(a, b, k)
  }

  lemma {:induction false} OrderIsFirstDifference(a: bytes, b: bytes)
    ensures LexLe(a, b) <==> NotAbove(a, b)
  {
    if a != [] && b != [] {
      if a[0] == b[0] {
        OrderIsFirstDifference(a[1..], b[1..]);
        DifferenceShifts(a, b);
      } else if a[0] < b[0] {
        assert FallsBelowAt(a, b, 0);
      } else {
        NotBelowHead(a, b);
      }
    }
  }

  lemma NotBelowHead(a: bytes, b: bytes)
    requires a != [] && b != [] && a[0] > b[0]
    ensures !NotAbove(a, b)
  {
    forall k: nat
      ensures !FallsBelowAt(a, b, k)
    {
      if 0 < k < |a| && k < |b| {
        assert a[..k][0] == a[0] && b[..k][0] == b[0];
      }
    }
  }

  lemma DifferenceShifts(a: bytes, b: bytes)
    requires a != [] && b != [] && a[0] == b[0]
    ensures NotAbove(a, b) <==> NotAbove(a[1..], b[1..])
  {
    HeadTail(a);
    HeadTail(b);
    if k: nat :| FallsBelowAt(a, b, k) {
      assert a[1..][..k - 1] == a[..k][1..] && b[1..][..k - 1] == b[..k][1..];
      assert FallsBelowAt(a[1..], b[1..], k - 1);
    }
    if k: nat :| FallsBelowAt(a[1..], b[1..], k) {
      assert a[..k + 1] == [a[0]] + a[1..][..k] && b[..k + 1] == [b[0]] + b[1..][..k];
      assert FallsBelowAt(a, b, k + 1);
    }
  }

  // ----- the order section -----

  /** Row `i` comes before row `j`: by text, and where the texts are equal by row. */
  ghost predicate RowBefore(texts: seq<bytes>, i: nat, j: nat) {
    && i < |texts| && j < |texts|
    && if texts[i] == texts[j] then i < j else NotAbove(texts[i], texts[j])
  }

  /** Every row of the order comes before the next. */
  ghost predicate StepsUp(texts: seq<bytes>, order: seq<nat>) {
    forall p: nat | p + 1 < |order| :: RowBefore(texts, order[p], order[p + 1])
  }

  lemma RowBeforeIs(texts: seq<bytes>, i: nat, j: nat)
    requires i < |texts| && j < |texts| && i != j
    ensures RowBefore(texts, i, j) <==> RowLe(texts, i, j)
  {
    OrderIsFirstDifference(texts[i], texts[j]);
  }

  lemma RowsDiffer(texts: seq<bytes>, order: seq<nat>, p: nat, q: nat)
    requires IsOrder(texts, order) && p < q < |order|
    ensures order[p] != order[q]
  {
    OrderIsInjective(texts, order, p, q);
  }

  /** In an order of these rows, whatever stands earlier comes before. */
  lemma OrderStepsUp(texts: seq<bytes>, order: seq<nat>)
    requires IsOrder(texts, order)
    ensures forall p, q | 0 <= p < q < |order| :: RowBefore(texts, order[p], order[q])
    ensures StepsUp(texts, order)
  {
    forall p, q | 0 <= p < q < |order|
      ensures RowBefore(texts, order[p], order[q])
    {
      RowsDiffer(texts, order, p, q);
      assert RowLe(texts, order[p], order[q]);
      RowBeforeIs(texts, order[p], order[q]);
    }
  }

  /** An arrangement of all rows is the order section's exactly when neighbours ascend. */
  lemma OrderSectionAscends(texts: seq<bytes>, order: seq<nat>)
    requires multiset(order) == multiset(Iota(|texts|))
    ensures order == OrderOf(texts) <==> StepsUp(texts, order)
  {
    OrderOfIsOrder(texts);
    OrderStepsUp(texts, OrderOf(texts));
    if StepsUp(texts, order) {
      RowsOfPermutation(texts, order);
      forall p, q | 0 <= p < q < |order|
        ensures RowLe(texts, order[p], order[q])
      {
        StepsReach(texts, order, p, q);
      }
      OrderIsUnique(texts, order);
    }
  }

  lemma RowsOfPermutation(texts: seq<bytes>, order: seq<nat>)
    requires multiset(order) == multiset(Iota(|texts|))
    ensures AreRows(texts, order)
  {
    forall k | 0 <= k < |order|
      ensures order[k] < |texts|
    {
      assert order[k] in multiset(order);
      assert order[k] in Iota(|texts|);
    }
  }

  lemma {:induction false} StepsReach(texts: seq<bytes>, order: seq<nat>, p: nat, q: nat)
    requires AreRows(texts, order) && StepsUp(texts, order) && p < q < |order|
    ensures RowLe(texts, order[p], order[q])
    decreases q
  {
    assert RowBefore(texts, order[q - 1], order[q - 1 + 1]);
    OrderIsFirstDifference(texts[order[q - 1]], texts[order[q]]);
    if p < q - 1 {
      StepsReach(texts, order, p, q - 1);
      RecLeTransitive(Rec(texts[order[p]], order[p]), Rec(texts[order[q - 1]], order[q - 1]), Rec(texts[order[q]], order[q]));
    }
  }

  // ----- prefix answers -----

  ghost predicate AllBefore(texts: seq<bytes>, rows: seq<nat>) {
    forall p, q | 0 <= p < q < |rows| :: RowBefore(texts, rows[p], rows[q])
  }

  lemma {:induction false} SelectKeepsBefore(m: Matcher, keys: seq<string>, rows: seq<nat>, test: Test)
    requires AllBefore(TextsOf(m, keys), rows)
    ensures AllBefore(TextsOf(m, keys), Select(m, keys, rows, test))
  {
    if rows != [] {
      var front, last := rows[..|rows| - 1], rows[|rows| - 1];
      SelectKeepsBefore(m, keys, front, test);
      var before := Select(m, keys, front, test);
      forall p | 0 <= p < |before|
        ensures RowBefore(TextsOf(m, keys), before[p], last)
      {
        SelectedAre(m, keys, front, test, before[p]);
        var k :| 0 <= k < |front| && front[k] == before[p];
        assert rows[k] == before[p];
      }
    }
  }

  /**
   * A prefix answer is in text order, holds rows with the prefix only, and is cut off no earlier than at the limit:
   * whatever else has the prefix comes after all of it.
   */
  lemma PrefixAnswerAscends(m: Matcher, keys: seq<string>, prefix: string, limit: nat)
    ensures var rows := PrefixSpec(m, keys, prefix, limit);
            && |rows| <= limit && AllBefore(TextsOf(m, keys), rows)
            && (forall p | 0 <= p < |rows| :: rows[p] < |keys| && m.Bytes(prefix) <= m.Bytes(keys[rows[p]]))
            && forall x: nat | x < |keys| && m.Bytes(prefix) <= m.Bytes(keys[x]) && x !in rows ::
                 |rows| == limit && forall p | 0 <= p < |rows| :: RowBefore(TextsOf(m, keys), rows[p], x)
  {
    var texts := TextsOf(m, keys);
    var order, rows := OrderOf(texts), PrefixSpec(m, keys, prefix, limit);
    OrderOfIsOrder(texts);
    OrderStepsUp(texts, order);
    SelectKeepsBefore(m, keys, order, StartsLike(prefix));
    var all := Select(m, keys, order, StartsLike(prefix));
    assert rows == all[..Min(limit, |all|)];
    forall p | 0 <= p < |rows|
      ensures rows[p] < |keys| && m.Bytes(prefix) <= m.Bytes(keys[rows[p]])
    {
      SelectedAre(m, keys, order, StartsLike(prefix), all[p]);
    }
    forall x: nat | x < |keys| && m.Bytes(prefix) <= m.Bytes(keys[x]) && x !in rows
      ensures |rows| == limit && forall p | 0 <= p < |rows| :: RowBefore(texts, rows[p], x)
    {
      OrderElements(texts, order, x);
      SelectedAre(m, keys, order, StartsLike(prefix), x);
      var q :| 0 <= q < |all| && all[q] == x;
      assert forall r | 0 <= r < |rows| :: rows[r] == all[r];
    }
  }

  // ----- and for a reader of text -----

  /** `a` is the beginning of `b`, or has the smaller character where they first differ. */
  ghost predicate TextNotAbove(a: string, b: string) {
    a <= b || exists k: nat :: TextBelowAt(a, b, k)
  }

  ghost predicate TextBelowAt(a: string, b: string, k: nat) {
    k < |a| && k < |b| && a[..k] == b[..k] && a[k] < b[k]
  }

  /** The smaller number is smaller in the first base-64 digit that differs. */
  lemma DigitsCompare(v: nat, w: nat)
    requires v < w
    ensures v / 0x40 < w / 0x40 || (v / 0x40 == w / 0x40 && v % 0x40 < w % 0x40)
  {
  }

  lemma TwoBytesCompare(v: nat, w: nat, a: bytes, b: bytes) returns (k: nat)
    requires v < w < 0x800
    requires a == [0xC0 + v / 0x40, 0x80 + v % 0x40] && b == [0xC0 + w / 0x40, 0x80 + w % 0x40]
    ensures FallsBelowAt(a, b, k)
  {
    DigitsCompare(v, w);
    k := if a[0] < b[0] then 0 else 1;
    assert a[..1] == [a[0]] && b[..1] == [b[0]];
  }

  lemma ThreeBytesCompare(v: nat, w: nat, a: bytes, b: bytes) returns (k: nat)
    requires v < w < 0x1_0000
    requires a == [0xE0 + v / 0x1000, 0x80 + v / 0x40 % 0x40, 0x80 + v % 0x40]
    requires b == [0xE0 + w / 0x1000, 0x80 + w / 0x40 % 0x40, 0x80 + w % 0x40]
    ensures FallsBelowAt(a, b, k)
  {
    DigitsCompare(v, w);
    assert v / 0x40 / 0x40 == v / 0x1000 && w / 0x40 / 0x40 == w / 0x1000;
    if v / 0x40 < w / 0x40 {
      DigitsCompare(v / 0x40, w / 0x40);
      k := if a[0] < b[0] then 0 else 1;
      assert a[..1] == [a[0]] && b[..1] == [b[0]];
    } else {
      k := 2;
      assert a[..2] == [a[0], a[1]] && b[..2] == [b[0], b[1]];
    }
  }

  lemma FourBytesCompare(v: nat, w: nat, a: bytes, b: bytes) returns (k: nat)
    requires v < w < 0x11_0000
    requires a == [0xF0 + v / 0x4_0000, 0x80 + v / 0x1000 % 0x40, 0x80 + v / 0x40 % 0x40, 0x80 + v % 0x40]
    requires b == [0xF0 + w / 0x4_0000, 0x80 + w / 0x1000 % 0x40, 0x80 + w / 0x40 % 0x40, 0x80 + w % 0x40]
    ensures FallsBelowAt(a, b, k)
  {
    DigitsCompare(v, w);
    if v / 0x40 < w / 0x40 {
      k := HigherDigitsCompare(v / 0x40, w / 0x40, v, w, a, b);
    } else {
      assert v / 0x40 / 0x40 == v / 0x1000 && w / 0x40 / 0x40 == w / 0x1000;
      assert v / 0x1000 / 0x40 == v / 0x4_0000 && w / 0x1000 / 0x40 == w / 0x4_0000;
      k := 3;
      assert a[..3] == [a[0], a[1], a[2]] && b[..3] == [b[0], b[1], b[2]];
    }
  }

  lemma HigherDigitsCompare(x: nat, y: nat, v: nat, w: nat, a: bytes, b: bytes) returns (k: nat)
    requires x == v / 0x40 < y == w / 0x40 && v < 0x11_0000 && w < 0x11_0000
    requires a == [0xF0 + v / 0x4_0000, 0x80 + v / 0x1000 % 0x40, 0x80 + x % 0x40, 0x80 + v % 0x40]
    requires b == [0xF0 + w / 0x4_0000, 0x80 + w / 0x1000 % 0x40, 0x80 + y % 0x40, 0x80 + w % 0x40]
    ensures FallsBelowAt(a, b, k)
  {
    DigitsCompare(x, y);
    assert x / 0x40 == v / 0x1000 && y / 0x40 == w / 0x1000;
    assert v / 0x1000 / 0x40 == v / 0x4_0000 && w / 0x1000 / 0x40 == w / 0x4_0000;
    if x / 0x40 < y / 0x40 {
      DigitsCompare(x / 0x40, y / 0x40);
      k := if a[0] < b[0] then 0 else 1;
      assert a[..1] == [a[0]] && b[..1] == [b[0]];
    } else {
      k := 2;
      assert a[..2] == [a[0], a[1]] && b[..2] == [b[0], b[1]];
    }
  }

  /** A smaller character is encoded below, whatever follows: the encodings differ inside the shorter one. */
  lemma CharactersKeepOrder(c: char, d: char) returns (k: nat)
    requires c < d
    ensures FallsBelowAt(EncodeChar(c), EncodeChar(d), k)
  {
    var v, w := c as int, d as int;
    var a, b := EncodeChar(c), EncodeChar(d);
    if |a| < |b| || |b| == 1 {
      k := 0;
    } else if |b| == 2 {
      k := TwoBytesCompare(v, w, a, b);
    } else if |b| == 3 {
      k := ThreeBytesCompare(v, w, a, b);
    } else {
      k := FourBytesCompare(v, w, a, b);
    }
  }

  lemma BelowWhateverFollows(p: bytes, a: bytes, x: bytes, b: bytes, y: bytes, k: nat)
    requires FallsBelowAt(a, b, k)
    ensures FallsBelowAt(p + a + x, p + b + y, |p| + k)
  {
    var s, t := p + a + x, p + b + y;
    assert s[..|p| + k] == p + a[..k] && t[..|p| + k] == p + b[..k];
  }

  lemma TextBelowIsBytesBelow(a: string, b: string, k: nat)
    requires TextBelowAt(a, b, k)
    ensures LexLe(Encode(a), Encode(b)) && !LexLe(Encode(b), Encode(a))
  {
    var j := CharactersKeepOrder(a[k], b[k]);
    EncodedAround(a, k);
    EncodedAround(b, k);
    var p := Encode(a[..k]);
    BelowWhateverFollows(p, EncodeChar(a[k]), Encode(a[k + 1..]), EncodeChar(b[k]), Encode(b[k + 1..]), j);
    assert FallsBelowAt(Encode(a), Encode(b), |p| + j);
    OrderIsFirstDifference(Encode(a), Encode(b));
    if LexLe(Encode(b), Encode(a)) {
      LexAntisymmetric(Encode(a), Encode(b));
    }
  }

  lemma EncodedAround(text: string, k: nat)
    requires k < |text|
    ensures Encode(text) == Encode(text[..k]) + EncodeChar(text[k]) + Encode(text[k + 1..])
  {
    assert text == text[..k] + text[k..] && text[k..] == [text[k]] + text[k + 1..];
    EncodeConcat(text[..k], text[k..]);
    EncodeConcat([text[k]], text[k + 1..]);
    EncodeSingle(text[k]);
    Associative(Encode(text[..k]), EncodeChar(text[k]), Encode(text[k + 1..]));
  }

  /** Rows are compared as bytes; that is the order of their texts by character value (section 1 of RFC 3629). */
  lemma BytesOrderIsTextOrder(a: string, b: string)
    ensures NotAbove(Encode(a), Encode(b)) <==> TextNotAbove(a, b)
  {
    OrderIsFirstDifference(Encode(a), Encode(b));
    if a <= b {
      PrefixOfEncoded(a, b);
      PrefixIsBelow(Encode(a), Encode(b));
    } else if b <= a {
      PrefixOfEncoded(b, a);
      PrefixIsBelow(Encode(b), Encode(a));
      PrefixExcludesBelow(a, b);
      if LexLe(Encode(a), Encode(b)) {
        LexAntisymmetric(Encode(a), Encode(b));
        PrefixOfEncoded(a, b);
      }
    } else {
      var k := FirstDifference(a, b);
      if a[k] < b[k] {
        assert TextBelowAt(a, b, k);
        TextBelowIsBytesBelow(a, b, k);
      } else {
        TextBelowIsBytesBelow(b, a, k);
        OneDifferenceDecides(a, b, k);
      }
    }
  }

  lemma PrefixExcludesBelow(a: string, b: string)
    requires b <= a
    ensures forall k: nat :: !TextBelowAt(a, b, k)
  {
  }

  lemma {:induction false} FirstDifference(a: string, b: string) returns (k: nat)
    requires !(a <= b) && !(b <= a)
    ensures k < |a| && k < |b| && a[..k] == b[..k] && a[k] != b[k]
  {
    if a[0] != b[0] {
      k := 0;
    } else {
      HeadTail(a);
      HeadTail(b);
      k := FirstDifference(a[1..], b[1..]);
      assert a[..k + 1] == [a[0]] + a[1..][..k] && b[..k + 1] == [b[0]] + b[1..][..k];
      k := k + 1;
    }
  }

  lemma OneDifferenceDecides(a: string, b: string, k: nat)
    requires TextBelowAt(b, a, k)
    ensures !TextNotAbove(a, b)
  {
    forall j: nat
      ensures !TextBelowAt(a, b, j)
    {
      if j < k {
        assert a[..k][j] == b[..k][j];
      } else if k < j < |a| && j < |b| {
        assert a[..j][k] == a[k] && b[..j][k] == b[k];
      }
    }
  }

  /** Two of the examples in section 7 of RFC 3629: all four widths. */
  lemma EncodingExamples()
    ensures Encode("A\U{2262}\U{391}.") == [0x41, 0xE2, 0x89, 0xA2, 0xCE, 0x91, 0x2E]
    ensures Encode("\U{FEFF}\U{233B4}") == [0xEF, 0xBB, 0xBF, 0xF0, 0xA3, 0x8E, 0xB4]
  {
    EncodeConcat("A\U{2262}", "\U{391}.");
    EncodeConcat("A", "\U{2262}");
    EncodeConcat("\U{391}", ".");
    EncodeConcat("\U{FEFF}", "\U{233B4}");
    EncodeSingle('A');
    EncodeSingle('\U{2262}');
    EncodeSingle('\U{391}');
    EncodeSingle('.');
    EncodeSingle('\U{FEFF}');
    EncodeSingle('\U{233B4}');
  }
}
