/**
 * The checksum of the index file in closed form (section 2.2 of RFC 1950): one plus the sum of the bytes, and the length
 * plus the sum of the bytes weighted by how many there are from each on, both modulo 65521, the second in the upper half.
 */
module ChecksumForm {
  import opened Adler
  import opened Bytes
  import opened Sequences

  /** The sum of the first `n` bytes. */
  function ByteSum(s: bytes, n: nat): nat
    requires n <= |s|
  {
    if n == 0 then 0 else ByteSum(s, n - 1) + s[n - 1]
  }

  /** The sum of the first `n` bytes, byte `i` weighted by `|s| - i`. */
  function WeightedSum(s: bytes, n: nat): nat
    requires n <= |s|
  {
    if n == 0 then 0 else WeightedSum(s, n - 1) + (|s| - (n - 1)) * s[n - 1]
  }

  /** One more byte behind raises every weight by one. */
  lemma {:induction false} WeightsGrow(s: bytes, last: byte, n: nat)
    requires n <= |s|
    ensures ByteSum(s + [last], n) == ByteSum(s, n)
    ensures WeightedSum(s + [last], n) == WeightedSum(s, n) + ByteSum(s, n)
  {
    if n > 0 {
      WeightsGrow(s, last, n - 1);
      assert (s + [last])[n - 1] == s[n - 1];
      OneWeightGrows(|s| - (n - 1), s[n - 1]);
    }
  }

  lemma OneWeightGrows(weight: nat, b: nat)
    ensures (weight + 1) * b == weight * b + b
  {
  }

  lemma SumsAppend(s: bytes, last: byte)
    ensures ByteSum(s + [last], |s| + 1) == ByteSum(s, |s|) + last
    ensures WeightedSum(s + [last], |s| + 1) == WeightedSum(s, |s|) + ByteSum(s, |s|) + last
  {
    WeightsGrow(s, last, |s|);
  }

  lemma {:induction false} RunningSumsAre(s: bytes)
    ensures RunningSums(Sums(1, 0), s).a == (1 + ByteSum(s, |s|)) % 65521
    ensures RunningSums(Sums(1, 0), s).b == (|s| + WeightedSum(s, |s|)) % 65521
  {
    if s != [] {
      var front, last := s[..|s| - 1], s[|s| - 1];
      RunningSumsAre(front);
      assert s == front + [last];
      SumsAppend(front, last);
      assert s[..|s| - 1] == front && s[|s| - 1] == last;
      ReducedStep(1 + ByteSum(front, |front|), |front| + WeightedSum(front, |front|), last);
    }
  }

  /** Reducing after every byte or only at the end is the same. */
  lemma ReducedStep(a: nat, b: nat, x: nat)
    ensures (a % 65521 + x) % 65521 == (a + x) % 65521
    ensures (b % 65521 + (a + x) % 65521) % 65521 == (b + (a + x)) % 65521
  {
    ModAdd(a, x);
    ModAdd(a + x, b % 65521);
    ModAdd(b, a + x);
  }

  /** The Adler-32 of `s`. */
  predicate IsAdler32(checksum: nat, s: bytes) {
    && checksum % 0x1_0000 == (1 + ByteSum(s, |s|)) % 65521
    && checksum / 0x1_0000 == (|s| + WeightedSum(s, |s|)) % 65521
  }

  lemma ChecksumIs(s: bytes)
    ensures IsAdler32(Checksum(s), s)
  {
    RunningSumsAre(s);
    Halves((|s| + WeightedSum(s, |s|)) % 65521, (1 + ByteSum(s, |s|)) % 65521);
  }

  lemma Halves(high: nat, low: nat)
    requires low < 0x1_0000
    ensures (high * 0x1_0000 + low) % 0x1_0000 == low && (high * 0x1_0000 + low) / 0x1_0000 == high
  {
  }

  /** Entry `i` of a checksum table is the Adler-32 of the `i`-th stretch of `chunk` bytes, the last one perhaps shorter. */
  lemma TableEntryIs(s: bytes, chunk: nat, i: nat, start: nat)
    requires chunk > 0 && i < ChunkCount(|s|, chunk) && start == chunk * i
    ensures start < |s| && i < |ChunkChecksums(s, chunk)|
    ensures IsAdler32(ChunkChecksums(s, chunk)[i], s[start..Min(start + chunk, |s|)])
  {
    EntryIsChecksum(s, chunk, i, start);
    ChecksumIs(s[start..Min(start + chunk, |s|)]);
  }

  lemma EntryIsChecksum(s: bytes, chunk: nat, i: nat, start: nat)
    requires chunk > 0 && i < ChunkCount(|s|, chunk) && start == chunk * i
    ensures start < |s| && i < |ChunkChecksums(s, chunk)|
    ensures ChunkChecksums(s, chunk)[i] == Checksum(s[start..Min(start + chunk, |s|)])
  {
    ChunkChecksumAt(s, chunk, i);
    StretchIs(s, chunk, start);
  }

  lemma StretchIs(s: bytes, chunk: nat, start: nat)
    requires start <= |s|
    ensures s[start..][..Min(chunk, |s| - start)] == s[start..Min(start + chunk, |s|)]
  {
  }

  /** The computed checksum is that. */
  method Adler32Is(s: bytes) returns (checksum: u32)
    ensures IsAdler32(checksum, s)
  {
    checksum := Adler32(s);
    ChecksumIs(s);
  }
}
