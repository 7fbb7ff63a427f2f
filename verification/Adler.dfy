/** Adler-32 (section 2.2 of RFC 1950) with deferred reduction (src/format/common/checksum.rs). */
module Adler {
  import opened Arithmetic
  import opened Bytes

  const MODULUS: nat := 65521
  const REDUCTION_BLOCK_BYTES: nat := 5552

  datatype Sums = Sums(a: nat, b: nat)

  /** The two running sums of the definition, each reduced after every byte. */
  function RunningSums(start: Sums, s: bytes): Sums {
    if s == [] then start
    else
      var before := RunningSums(start, s[..|s| - 1]);
      var a := (before.a + s[|s| - 1]) % MODULUS;
      Sums(a, (before.b + a) % MODULUS)
  }

  function Pack(sums: Sums): nat {
    sums.b * 0x1_0000 + sums.a
  }

  /** The checksum as RFC 1950 defines it. */
  function Checksum(s: bytes): nat {
    Pack(RunningSums(Sums(1, 0), s))
  }

  lemma RunningSumsAreReduced(start: Sums, s: bytes)
    requires start.a < MODULUS && start.b < MODULUS
    ensures RunningSums(start, s).a < MODULUS && RunningSums(start, s).b < MODULUS
  {
  }

  lemma {:induction false} RunningSumsCompose(start: Sums, s: bytes, t: bytes)
    ensures RunningSums(start, s + t) == RunningSums(RunningSums(start, s), t)
  {
    if t == [] {
      assert s + t == s;
    } else {
      RunningSumsCompose(start, s, t[..|t| - 1]);
      assert (s + t)[..|s + t| - 1] == s + t[..|t| - 1];
    }
  }

  // ----- deferred reduction -----

  /** How large the unreduced sums can be `n` bytes into a block; see `BoundsFitU32`. */
  function BoundA(n: nat): nat {
    MODULUS - 1 + 0xFF * n
  }

  function BoundB(n: nat): nat {
    if n == 0 then MODULUS - 1 else BoundB(n - 1) + BoundA(n)
  }

  lemma {:induction false} BoundBClosedForm(n: nat)
    ensures 2 * BoundB(n) == 2 * (MODULUS - 1) * (n + 1) + 0xFF * n * (n + 1)
  {
    if n != 0 {
      BoundBClosedForm(n - 1);
    }
  }

  lemma {:induction false} BoundBIsMonotone(m: nat, n: nat)
    requires m <= n
    ensures BoundB(m) <= BoundB(n)
    decreases n
  {
    if m < n {
      BoundBIsMonotone(m, n - 1);
    }
  }

  /** 5552 is small enough: no partial sum of a block leaves `u32`. */
  lemma BoundsFitU32(n: nat)
    requires n <= REDUCTION_BLOCK_BYTES
    ensures BoundA(n) <= U32_MAX && BoundB(n) <= U32_MAX
  {
    BoundBClosedForm(REDUCTION_BLOCK_BYTES);
    BoundBIsMonotone(n, REDUCTION_BLOCK_BYTES);
  }

  /** `sums` stand for the reduced sums `exact`. */
  ghost predicate Represents(sums: Sums, exact: Sums) {
    sums.a % MODULUS == exact.a && sums.b % MODULUS == exact.b
  }

  lemma UnreducedStep(sums: Sums, start: Sums, s: bytes, b: byte)
    requires Represents(sums, RunningSums(start, s))
    ensures Represents(Sums(sums.a + b, sums.b + (sums.a + b)), RunningSums(start, s + [b]))
  {
    var exact := RunningSums(start, s);
    assert (s + [b])[..|s + [b]| - 1] == s;
    ModAdd(sums.a, b);
    ModAdd(sums.b, sums.a + b);
    ModAdd(sums.a + b, exact.b);
  }

  lemma ModAdd(x: nat, y: nat)
    ensures (x % MODULUS + y) % MODULUS == (x + y) % MODULUS
  {
    var q := x / MODULUS;
    assert x == q * MODULUS + x % MODULUS;
    assert x + y == q * MODULUS + (x % MODULUS + y);
    assert (x + y) % MODULUS == (x % MODULUS + y) % MODULUS;
  }

  /** Adds one block without reducing; every addition stays inside `u32`. */
  method AddBlock(start: Sums, block: bytes) returns (sums: Sums)
    requires start.a < MODULUS && start.b < MODULUS && |block| <= REDUCTION_BLOCK_BYTES
    ensures Represents(sums, RunningSums(start, block))
  {
    var a: u32, b: u32 := start.a, start.b;
    for i := 0 to |block|
      invariant a <= BoundA(i) && b <= BoundB(i)
      invariant Represents(Sums(a, b), RunningSums(start, block[..i]))
    {
      BoundsFitU32(i + 1);
      UnreducedStep(Sums(a, b), start, block[..i], block[i]);
      assert block[..i + 1] == block[..i] + [block[i]];
      a := a + block[i];
      b := b + a;
    }
    assert block[..|block|] == block;
    return Sums(a, b);
  }

  /** Folds `s` into reduced sums, reducing once per 5552 bytes. */
  method Update(start: Sums, s: bytes) returns (sums: Sums)
    requires start.a < MODULUS && start.b < MODULUS
    ensures sums == RunningSums(start, s)
    ensures sums.a < MODULUS && sums.b < MODULUS
  {
    sums := start;
    var done := 0;
    while done < |s|
      invariant 0 <= done <= |s|
      invariant sums == RunningSums(start, s[..done])
      invariant sums.a < MODULUS && sums.b < MODULUS
    {
      var block := s[done..Min(done + REDUCTION_BLOCK_BYTES, |s|)];
      RunningSumsCompose(start, s[..done], block);
      RunningSumsAreReduced(sums, block);
      assert s[..done + |block|] == s[..done] + block;
      var unreduced := AddBlock(sums, block);
      sums := Sums(unreduced.a % MODULUS, unreduced.b % MODULUS);
      done := done + |block|;
    }
    assert s[..|s|] == s;
  }

  method Adler32(s: bytes) returns (checksum: u32)
    ensures checksum == Checksum(s)
  {
    var sums := Update(Sums(1, 0), s);
    checksum := Pack(sums);
  }

  // ----- one checksum per chunk -----

  /** The checksums of `s` cut into chunks of `chunk` bytes, the last one possibly shorter. */
  function ChunkChecksums(s: bytes, chunk: nat): seq<nat>
    requires chunk > 0
    decreases |s|
  {
    if s == [] then []
    else if |s| <= chunk then [Checksum(s)]
    else [Checksum(s[..chunk])] + ChunkChecksums(s[chunk..], chunk)
  }

  function ChunkCount(len: nat, chunk: nat): nat
    requires chunk > 0
    decreases len
  {
    if len == 0 then 0 else if len <= chunk then 1 else 1 + ChunkCount(len - chunk, chunk)
  }

  lemma {:induction false} ChunkCountIsCeiling(len: nat, chunk: nat)
    requires chunk > 0
    ensures ChunkCount(len, chunk) == (len + chunk - 1) / chunk
    decreases len
  {
    if len == 0 {
      QuotientIs(chunk - 1, chunk, 0);
    } else if len <= chunk {
      QuotientIs(len - 1, chunk, 0);
      QuotientOfSum(len - 1, chunk);
    } else {
      ChunkCountIsCeiling(len - chunk, chunk);
      QuotientOfSum(len - 1, chunk);
      assert len - chunk + chunk - 1 == len - 1;
    }
  }

  /** A position lies in chunk `position / chunk`, and that chunk exists. */
  lemma {:induction false} ChunkOfPosition(position: nat, len: nat, chunk: nat)
    requires chunk > 0 && position < len
    ensures position / chunk < ChunkCount(len, chunk)
  {
    ChunkCountIsCeiling(len, chunk);
    QuotientIsMonotone(position, len - 1, chunk);
    QuotientOfSum(len - 1, chunk);
  }

  lemma {:induction false} ChunkStartsInside(len: nat, chunk: nat, i: nat)
    requires chunk > 0 && i < ChunkCount(len, chunk)
    ensures chunk * i < len
    decreases i
  {
    if i > 0 {
      ChunkStartsInside(len - chunk, chunk, i - 1);
      assert chunk * i == chunk + chunk * (i - 1);
    }
  }

  /** Chunk `i` of `s`. */
  function Chunk(s: bytes, chunk: nat, i: nat): bytes
    requires chunk > 0 && chunk * i <= |s|
  {
    s[chunk * i..][..Min(chunk, |s| - chunk * i)]
  }

  lemma {:induction false} ChunkChecksumsLength(s: bytes, chunk: nat)
    requires chunk > 0
    ensures |ChunkChecksums(s, chunk)| == ChunkCount(|s|, chunk)
    decreases |s|
  {
    if |s| > chunk {
      ChunkChecksumsLength(s[chunk..], chunk);
    }
  }

  lemma ChunkOfTail(s: bytes, chunk: nat, i: nat)
    requires chunk > 0 && i > 0 && chunk * i < |s|
    ensures chunk * (i - 1) < |s[chunk..]| && Chunk(s[chunk..], chunk, i - 1) == Chunk(s, chunk, i)
  {
    assert chunk * i == chunk + chunk * (i - 1);
    assert s[chunk * i..] == s[chunk..][chunk * (i - 1)..];
  }

  /** Entry `i` of the table is the checksum of chunk `i`. */
  lemma {:induction false} ChunkChecksumAt(s: bytes, chunk: nat, i: nat)
    requires chunk > 0 && i < ChunkCount(|s|, chunk)
    ensures chunk * i < |s| && |ChunkChecksums(s, chunk)| == ChunkCount(|s|, chunk)
    ensures ChunkChecksums(s, chunk)[i] == Checksum(Chunk(s, chunk, i))
    decreases i
  {
    ChunkChecksumsLength(s, chunk);
    ChunkStartsInside(|s|, chunk, i);
    if i == 0 {
      FirstChunk(s, chunk);
    } else {
      ChunkOfTail(s, chunk, i);
      ChunkChecksumAt(s[chunk..], chunk, i - 1);
      assert ChunkChecksums(s, chunk) == [Checksum(s[..chunk])] + ChunkChecksums(s[chunk..], chunk);
    }
  }

  lemma FirstChunk(s: bytes, chunk: nat)
    requires chunk > 0 && s != []
    ensures |ChunkChecksums(s, chunk)| > 0 && ChunkChecksums(s, chunk)[0] == Checksum(Chunk(s, chunk, 0))
  {
    assert chunk * 0 == 0 && s[0..] == s;
    if |s| <= chunk {
      assert s[..|s|] == s;
    }
  }

  /** Appending to a stream whose last chunk is full starts a fresh chunk. */
  lemma {:induction false} ChunkChecksumsAppend(full: bytes, chunk: nat, last: bytes, k: nat)
    requires chunk > 0 && |full| == chunk * k && 0 < |last| <= chunk
    ensures ChunkChecksums(full + last, chunk) == ChunkChecksums(full, chunk) + [Checksum(last)]
    decreases k
  {
    if k == 0 {
      assert full + last == last;
    } else {
      assert |full| == chunk + chunk * (k - 1);
      FullHead(full, chunk, last);
      ChunkChecksumsAppend(full[chunk..], chunk, last, k - 1);
      var head := [Checksum(full[..chunk])];
      assert ChunkChecksums(full + last, chunk) == head + ChunkChecksums(full[chunk..] + last, chunk);
    }
  }

  lemma FullHead(full: bytes, chunk: nat, last: bytes)
    requires 0 < chunk <= |full| && 0 < |last|
    ensures (full + last)[..chunk] == full[..chunk] && (full + last)[chunk..] == full[chunk..] + last
    ensures ChunkChecksums(full, chunk) == [Checksum(full[..chunk])] + ChunkChecksums(full[chunk..], chunk)
  {
    if |full| == chunk {
      assert full[..chunk] == full;
    }
  }
}
