/** Bytes, fixed-width integers in both byte orders, and the lexicographic order on byte strings. */
module Bytes {
  import opened Sequences

  type byte = b: int | 0 <= b < 0x100
  type bytes = seq<byte>

  const U32_MAX: nat := 0xFFFF_FFFF
  const U64_MAX: nat := 0xFFFF_FFFF_FFFF_FFFF
  const USIZE_MAX: nat := U64_MAX

  type u32 = n: int | 0 <= n <= U32_MAX
  type u64 = n: int | 0 <= n <= U64_MAX

  function Min(a: int, b: int): int {
    if a <= b then a else b
  }

  function Max(a: int, b: int): int {
    if a <= b then b else a
  }

  /** `a - b` clamped at zero. */
  function SaturatingSub(a: nat, b: nat): nat {
    if b <= a then a - b else 0
  }

  // ----- fixed-width integers -----

  /** The number of values `width` bytes can hold. */
  function Range(width: nat): (r: nat)
    ensures r > 0
  {
    if width == 0 then 1 else 0x100 * Range(width - 1)
  }

  lemma Ranges()
    ensures Range(1) == 0x100
    ensures Range(2) == 0x1_0000
    ensures Range(4) == U32_MAX + 1
    ensures Range(8) == U64_MAX + 1
  {
    assert Range(3) == 0x100 * Range(2);
    assert Range(4) == 0x100 * Range(3);
    assert Range(5) == 0x100 * Range(4);
    assert Range(6) == 0x100 * Range(5);
    assert Range(7) == 0x100 * Range(6);
    assert Range(8) == 0x100 * Range(7);
  }

  /** `n` in `width` little-endian bytes; higher bits are dropped. */
  function Le(width: nat, n: nat): (s: bytes)
    ensures |s| == width
  {
    if width == 0 then [] else [n % 0x100] + Le(width - 1, n / 0x100)
  }

  function FromLe(s: bytes): nat {
    if s == [] then 0 else s[0] + 0x100 * FromLe(s[1..])
  }

  lemma {:induction false} FromLeBound(s: bytes)
    ensures FromLe(s) < Range(|s|)
  {
    if s != [] {
      FromLeBound(s[1..]);
    }
  }

  lemma {:induction false} LeRoundTrip(width: nat, n: nat)
    requires n < Range(width)
    ensures FromLe(Le(width, n)) == n
  {
    if width != 0 {
      LeRoundTrip(width - 1, n / 0x100);
      assert Le(width, n)[1..] == Le(width - 1, n / 0x100);
    }
  }

  /** `n` in `width` big-endian bytes. */
  function Be(width: nat, n: nat): (s: bytes)
    ensures |s| == width
  {
    if width == 0 then [] else Be(width - 1, n / 0x100) + [n % 0x100]
  }

  function FromBe(s: bytes): nat {
    if s == [] then 0 else 0x100 * FromBe(s[..|s| - 1]) + s[|s| - 1]
  }

  lemma {:induction false} FromBeBound(s: bytes)
    ensures FromBe(s) < Range(|s|)
  {
    if s != [] {
      FromBeBound(s[..|s| - 1]);
    }
  }

  lemma {:induction false} BeRoundTrip(width: nat, n: nat)
    requires n < Range(width)
    ensures FromBe(Be(width, n)) == n
  {
    if width != 0 {
      BeRoundTrip(width - 1, n / 0x100);
      assert Be(width, n)[..width - 1] == Be(width - 1, n / 0x100);
    }
  }

  lemma {:induction false} BeOfFromBe(s: bytes)
    ensures Be(|s|, FromBe(s)) == s
  {
    if s != [] {
      var front := s[..|s| - 1];
      BeOfFromBe(front);
      assert FromBe(s) % 0x100 == s[|s| - 1] && FromBe(s) / 0x100 == FromBe(front);
      assert s == front + [s[|s| - 1]];
    }
  }

  /** Two's-complement reading of an unsigned `width`-byte value. */
  function ToSigned(width: nat, n: nat): int
    requires n < Range(width)
  {
    if n < Range(width) / 2 then n else n - Range(width)
  }

  function ToUnsigned(width: nat, n: int): nat
    requires -(Range(width) / 2) <= n < Range(width) / 2
  {
    if n >= 0 then n else n + Range(width)
  }

  // ----- lexicographic order -----

  predicate LexLe(a: bytes, b: bytes) {
    a == [] || (b != [] && (a[0] < b[0] || (a[0] == b[0] && LexLe(a[1..], b[1..]))))
  }

  predicate LexLt(a: bytes, b: bytes) {
    !LexLe(b, a)
  }

  lemma {:induction false} LexReflexive(a: bytes)
    ensures LexLe(a, a)
  {
    if a != [] {
      LexReflexive(a[1..]);
    }
  }

  lemma {:induction false} LexTotal(a: bytes, b: bytes)
    ensures LexLe(a, b) || LexLe(b, a)
  {
    if a != [] && b != [] {
      LexTotal(a[1..], b[1..]);
    }
  }

  lemma {:induction false} LexAntisymmetric(a: bytes, b: bytes)
    requires LexLe(a, b) && LexLe(b, a)
    ensures a == b
  {
    if a != [] {
      LexAntisymmetric(a[1..], b[1..]);
      assert a == [a[0]] + a[1..] && b == [b[0]] + b[1..];
    }
  }

  lemma {:induction false} LexTransitive(a: bytes, b: bytes, c: bytes)
    requires LexLe(a, b) && LexLe(b, c)
    ensures LexLe(a, c)
  {
    if a != [] && a[0] == b[0] == c[0] {
      LexTransitive(a[1..], b[1..], c[1..]);
    }
  }

  lemma {:induction false} PrefixIsBelow(p: bytes, s: bytes)
    requires p <= s
    ensures LexLe(p, s)
  {
    if p != [] {
      PrefixIsBelow(p[1..], s[1..]);
    }
  }

  /** Strings starting with `p` are contiguous: whatever lies between `p` and one of them is one. */
  lemma {:induction false} PrefixRunIsContiguous(p: bytes, s: bytes, t: bytes)
    requires LexLe(p, s) && LexLe(s, t) && p <= t
    ensures p <= s
  {
    if p != [] {
      assert t[0] == p[0] == s[0];
      PrefixRunIsContiguous(p[1..], s[1..], t[1..]);
      assert p == [p[0]] + p[1..] && s == [s[0]] + s[1..];
    }
  }

  // ----- concatenation -----

  function Concat(parts: seq<bytes>): bytes {
    if parts == [] then [] else parts[0] + Concat(parts[1..])
  }

  lemma {:induction false} ConcatAppend(parts: seq<bytes>, last: bytes)
    ensures Concat(parts + [last]) == Concat(parts) + last
  {
    if parts == [] {
      assert [last][1..] == [];
      assert Concat([last]) == last + Concat([]);
    } else {
      ConcatAppend(parts[1..], last);
      assert (parts + [last])[1..] == parts[1..] + [last];
      assert parts[0] + (Concat(parts[1..]) + last) == (parts[0] + Concat(parts[1..])) + last;
    }
  }

  lemma {:induction false} ConcatSplit(a: seq<bytes>, b: seq<bytes>)
    ensures Concat(a + b) == Concat(a) + Concat(b)
  {
    if a == [] {
      NilConcat(b);
    } else {
      ConcatSplit(a[1..], b);
      TailOfConcat(a, b);
      Associative(a[0], Concat(a[1..]), Concat(b));
    }
  }

  /** Part `i` lies inside the concatenation right after the parts before it. */
  lemma ConcatAt(parts: seq<bytes>, i: nat)
    requires i < |parts|
    ensures |Concat(parts[..i])| + |parts[i]| == |Concat(parts[..i + 1])| <= |Concat(parts)|
    ensures Concat(parts)[|Concat(parts[..i])|..|Concat(parts[..i + 1])|] == parts[i]
  {
    assert parts[..i + 1] == parts[..i] + [parts[i]];
    ConcatAppend(parts[..i], parts[i]);
    ConcatSplit(parts[..i + 1], parts[i + 1..]);
    assert parts == parts[..i + 1] + parts[i + 1..];
  }

  /** Where every row's text starts, and where the last one ends. */
  function TextBounds(texts: seq<bytes>): (bounds: seq<nat>)
    ensures |bounds| == |texts| + 1
    ensures forall i {:trigger bounds[i]} | 0 <= i <= |texts| :: bounds[i] == |Concat(texts[..i])|
  {
    seq(|texts| + 1, i requires 0 <= i <= |texts| => |Concat(texts[..i])|)
  }

  lemma TextsAppend(texts: seq<bytes>, last: bytes)
    ensures Concat(texts + [last]) == Concat(texts) + last
    ensures TextBounds(texts + [last]) == TextBounds(texts) + [|Concat(texts)| + |last|]
  {
    ConcatAppend(texts, last);
    var all := texts + [last];
    forall i | 0 <= i <= |texts| + 1
      ensures TextBounds(all)[i] == (TextBounds(texts) + [|Concat(texts)| + |last|])[i]
    {
      if i <= |texts| {
        assert all[..i] == texts[..i];
      } else {
        Whole(all);
      }
    }
  }

  /** The little-endian table of `values`, `width` bytes each. */
  function LeTable(width: nat, values: seq<nat>): (s: bytes)
    ensures |s| == width * |values|
  {
    if values == [] then [] else Le(width, values[0]) + LeTable(width, values[1..])
  }

  lemma {:induction false} LeTableAppend(width: nat, values: seq<nat>, last: nat)
    ensures LeTable(width, values + [last]) == LeTable(width, values) + Le(width, last)
  {
    if values == [] {
      NilConcat([last]);
      assert LeTable(width, [last]) == Le(width, last) + LeTable(width, []);
    } else {
      LeTableAppend(width, values[1..], last);
      TailOfConcat(values, [last]);
      Associative(Le(width, values[0]), LeTable(width, values[1..]), Le(width, last));
    }
  }

  /** The `width` bytes at `from` are `n`. */
  predicate EntryIs(table: bytes, from: nat, width: nat, n: nat) {
    from + width <= |table| && table[from..from + width] == Le(width, n)
  }

  /** Entry `i` of the table sits at `width * i`. */
  ghost predicate Tabulates(table: bytes, width: nat, values: seq<nat>) {
    forall i, from: nat | 0 <= i < |values| && from == width * i :: EntryIs(table, from, width, values[i])
  }

  lemma {:induction false} LeTableAt(width: nat, values: seq<nat>, i: nat, from: nat)
    requires i < |values| && from == width * i
    ensures EntryIs(LeTable(width, values), from, width, values[i])
  {
    if i > 0 {
      PreviousEntry(width, i, from);
      LeTableAt(width, values[1..], i - 1, from - width);
    }
    EntryShifts(Le(width, values[0]), LeTable(width, values[1..]), width, from, values[i]);
  }

  lemma PreviousEntry(width: nat, i: nat, from: nat)
    requires i > 0 && from == width * i
    ensures from >= width && from - width == width * (i - 1)
  {
  }

  /** An entry of the tail is an entry of the table, one entry later; the head is the first. */
  lemma EntryShifts(head: bytes, tail: bytes, width: nat, from: nat, n: nat)
    requires |head| == width
    requires if from == 0 then head == Le(width, n) else from >= width && EntryIs(tail, from - width, width, n)
    ensures EntryIs(head + tail, from, width, n)
  {
    if from == 0 {
      ShiftedSlice(head, tail, 0, 0);
    } else {
      ShiftedSlice(head, tail, from - width, from);
    }
  }

  lemma LeTableTabulates(width: nat, values: seq<nat>)
    ensures Tabulates(LeTable(width, values), width, values)
  {
    forall i, from: nat | 0 <= i < |values| && from == width * i
      ensures EntryIs(LeTable(width, values), from, width, values[i])
    {
      LeTableAt(width, values, i, from);
    }
  }
}
