/** Facts about sequences that are used everywhere and are cheaper to cite than to rediscover. */
module Sequences {

  lemma Associative<T>(a: seq<T>, b: seq<T>, c: seq<T>)
    ensures (a + b) + c == a + (b + c)
  {
  }

  lemma TailOfConcat<T>(a: seq<T>, b: seq<T>)
    requires a != []
    ensures (a + b)[0] == a[0] && (a + b)[1..] == a[1..] + b
  {
  }

  lemma NilConcat<T>(a: seq<T>)
    ensures [] + a == a && a + [] == a
  {
  }

  lemma HeadTail<T>(a: seq<T>)
    requires a != []
    ensures a == [a[0]] + a[1..]
  {
  }

  lemma PrefixGrows<T>(a: seq<T>, i: nat)
    requires i < |a|
    ensures a[..i + 1] == a[..i] + [a[i]]
  {
  }

  lemma SuffixShrinks<T>(a: seq<T>, i: nat)
    requires i < |a|
    ensures a[i..] == [a[i]] + a[i + 1..] && a[i..][1..] == a[i + 1..]
  {
  }

  lemma Whole<T>(a: seq<T>)
    ensures a[..|a|] == a && a[0..] == a && a[|a|..] == [] && a[..0] == []
  {
  }

  lemma SplitAt<T>(a: seq<T>, i: nat)
    requires i <= |a|
    ensures a == a[..i] + a[i..]
  {
  }

  lemma Adjacent<T>(a: seq<T>, i: nat, j: nat, k: nat)
    requires i <= j <= k <= |a|
    ensures a[i..k] == a[i..j] + a[j..k]
  {
  }

  lemma SliceOfSlice<T>(a: seq<T>, from: nat, to: nat, i: nat, j: nat)
    requires from <= to <= |a| && i <= j <= to - from
    ensures a[from + i..from + j] == a[from..to][i..j]
  {
    var direct, nested := a[from + i..from + j], a[from..to][i..j];
    forall k | 0 <= k < j - i
      ensures direct[k] == nested[k]
    {
    }
  }

  /** The pieces of a concatenation. */
  lemma Pieces<T>(a: seq<T>, b: seq<T>, c: seq<T>, d: seq<T>)
    ensures var s := a + b + c + d;
            && s[0..|a|] == a
            && s[|a|..|a| + |b|] == b
            && s[|a| + |b|..|a| + |b| + |c|] == c
            && s[|a| + |b| + |c|..|s|] == d
  {
  }

  /** A prefix that starts with `x` leaves the rest of the prefix behind `x`. */
  lemma PrefixOfConcat<T>(x: seq<T>, y: seq<T>, z: seq<T>)
    requires x + y <= z
    ensures x <= z && y <= z[|x|..] && z == x + z[|x|..]
  {
    assert (x + y)[..|x|] == x && (x + y)[|x|..] == y;
    assert z[..|x + y|] == x + y;
  }

  lemma ShiftedSlice<T>(head: seq<T>, tail: seq<T>, i: nat, j: nat)
    requires i <= j <= |tail|
    ensures (head + tail)[|head| + i..|head| + j] == tail[i..j]
    ensures (head + tail)[0..|head|] == head && (head + tail)[|head|..] == tail
  {
  }

  lemma PrefixTransitive<T>(a: seq<T>, b: seq<T>, c: seq<T>)
    requires a <= b && b <= c
    ensures a <= c
  {
    assert c[..|a|] == b[..|a|];
  }

  lemma MultisetOfConcat<T>(a: seq<T>, b: seq<T>)
    ensures multiset(a + b) == multiset(a) + multiset(b)
  {
  }

  /** Taking one occurrence of `x` out of a sequence that has it. */
  lemma TakeOut<T>(s: seq<T>, x: T) returns (i: nat)
    requires x in multiset(s)
    ensures i < |s| && s[i] == x && s == s[..i] + [x] + s[i + 1..]
    ensures multiset(s[..i] + s[i + 1..]) == multiset(s) - multiset{x}
  {
    i :| 0 <= i < |s| && s[i] == x;
    assert s == s[..i] + [x] + s[i + 1..];
  }
}
