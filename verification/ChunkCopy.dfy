/**
 * Assembling a stretch of a section from the chunks it touches (src/core/persistent/cache.rs,
 * `read_section_into_cached`): `chunkBytes` is the chunk length, `size` the section's.
 */
module ChunkCopy {
  import opened Arithmetic
  import opened Bytes
  import opened Sequences

  function ChunkFrom(chunkBytes: nat, chunk: nat): nat {
    chunkBytes * chunk
  }

  function ChunkTo(chunkBytes: nat, chunk: nat, size: nat): nat {
    Min(ChunkFrom(chunkBytes, chunk) + chunkBytes, size)
  }

  /** The positions chunk `chunk` contributes to the stretch `offset..end`. */
  function CopyStart(chunkBytes: nat, chunk: nat, offset: nat): nat {
    Max(offset, ChunkFrom(chunkBytes, chunk))
  }

  function CopyEnd(chunkBytes: nat, chunk: nat, size: nat, end: nat): nat {
    Min(end, ChunkTo(chunkBytes, chunk, size))
  }

  /** How much of the stretch lies in chunks below `chunk`. */
  function Covered(chunkBytes: nat, chunk: nat, offset: nat, end: nat): nat {
    Max(0, Min(end, ChunkFrom(chunkBytes, chunk)) - offset)
  }

  /** The stretch touches the chunk. */
  predicate Touches(chunkBytes: nat, chunk: nat, offset: nat, end: nat)
    requires chunkBytes > 0
  {
    offset < end && offset / chunkBytes <= chunk <= (end - 1) / chunkBytes
  }

  /** Every chunk in `first..upTo` is touched. */
  predicate AllTouched(chunkBytes: nat, first: nat, upTo: nat, offset: nat, end: nat)
    requires chunkBytes > 0
  {
    forall chunk | first <= chunk < upTo :: Touches(chunkBytes, chunk, offset, end)
  }

  /** Chunks the stretch touches contribute consecutive pieces of it. */
  lemma PiecesAreConsecutive(chunkBytes: nat, chunk: nat, size: nat, offset: nat, end: nat)
    requires chunkBytes > 0 && Touches(chunkBytes, chunk, offset, end) && end <= size
    ensures ChunkFrom(chunkBytes, chunk) <= CopyStart(chunkBytes, chunk, offset)
    ensures CopyStart(chunkBytes, chunk, offset) <= CopyEnd(chunkBytes, chunk, size, end)
    ensures CopyStart(chunkBytes, chunk, offset) == offset + Covered(chunkBytes, chunk, offset, end)
    ensures CopyEnd(chunkBytes, chunk, size, end) == offset + Covered(chunkBytes, chunk + 1, offset, end)
  {
    QuotientBounds(offset, chunkBytes);
    QuotientBounds(end - 1, chunkBytes);
    MulIsMonotone(chunk, (end - 1) / chunkBytes, chunkBytes);
    MulIsMonotone(offset / chunkBytes + 1, chunk + 1, chunkBytes);
    MulSucc(chunkBytes, chunk);
  }

  /** The first touched chunk starts the stretch and the last one ends it. */
  lemma StretchIsCovered(chunkBytes: nat, offset: nat, end: nat)
    requires chunkBytes > 0 && offset < end
    ensures Covered(chunkBytes, offset / chunkBytes, offset, end) == 0
    ensures Covered(chunkBytes, (end - 1) / chunkBytes + 1, offset, end) == end - offset
    ensures offset / chunkBytes <= (end - 1) / chunkBytes
  {
    QuotientBounds(offset, chunkBytes);
    QuotientBounds(end - 1, chunkBytes);
    QuotientIsMonotone(offset, end - 1, chunkBytes);
  }

  /** The first `done` bytes of `want` are in place. */
  ghost predicate InPlace(output: bytes, want: bytes, done: nat) {
    |output| == |want| && done <= |want| && output[..done] == want[..done]
  }

  /**
   * Whether the chunks below `chunk` have been copied to where `output`, a stretch from `offset` on, needs them. It is
   * a value and not a predicate so that a loop hands the whole condition on as one equation: the verifier would open a
   * predicate and prove its parts again at every step. `Trust`, `Soundness` and `Books` are values for the same reason.
   */
  datatype Filling = InStep | Astray

  ghost function FillingOf(output: bytes, section: bytes, chunkBytes: nat, offset: nat, chunk: nat): Filling {
    if offset + |output| <= |section| &&
       InPlace(output, section[offset..offset + |output|], Covered(chunkBytes, chunk, offset, offset + |output|))
    then InStep else Astray
  }

  lemma FillingStarts(output: bytes, section: bytes, chunkBytes: nat, offset: nat)
    requires chunkBytes > 0 && 0 < |output| && offset + |output| <= |section|
    ensures FillingOf(output, section, chunkBytes, offset, offset / chunkBytes) == InStep
    ensures offset / chunkBytes <= (offset + |output| - 1) / chunkBytes
  {
    StretchIsCovered(chunkBytes, offset, offset + |output|);
  }

  lemma FillingEnds(output: bytes, section: bytes, chunkBytes: nat, offset: nat, last: nat)
    requires chunkBytes > 0 && 0 < |output| && offset + |output| <= |section| && last == (offset + |output| - 1) / chunkBytes
    requires FillingOf(output, section, chunkBytes, offset, last + 1) == InStep
    ensures output == section[offset..offset + |output|]
  {
    StretchIsCovered(chunkBytes, offset, offset + |output|);
    Whole(output);
    Whole(section[offset..offset + |output|]);
  }

  /** A window inside two stretches of `s` is the same in both. */
  lemma SameWindow(s: bytes, a: nat, aEnd: nat, b: nat, bEnd: nat, from: nat, to: nat)
    requires a <= from <= to <= aEnd <= |s| && b <= from <= to <= bEnd <= |s|
    ensures s[a..aEnd][from - a..to - a] == s[b..bEnd][from - b..to - b]
  {
    SliceOfSlice(s, a, aEnd, from - a, to - a);
    SliceOfSlice(s, b, bEnd, from - b, to - b);
  }

  /** `piece` is what `want` holds from `at` to `next`. */
  ghost predicate IsPiece(want: bytes, at: nat, piece: bytes, next: nat) {
    at <= next <= |want| && piece == want[at..next]
  }

  /** What a chunk holds of the stretch, cut out of the chunk, is a piece of the stretch. */
  lemma WindowIsPiece(section: bytes, chunkStart: nat, chunkEnd: nat, offset: nat, end: nat, from: nat, to: nat, data: bytes)
    requires chunkStart <= from <= to <= chunkEnd <= |section| && offset <= from <= to <= end <= |section|
    requires data == section[chunkStart..chunkEnd]
    ensures IsPiece(section[offset..end], from - offset, data[from - chunkStart..to - chunkStart], to - offset)
  {
    SameWindow(section, chunkStart, chunkEnd, offset, end, from, to);
  }

  /** Copies what chunk `chunk` of `section` holds of the stretch into its place. */
  method CopyChunk(output: array<byte>, chunkBytes: nat, chunk: nat, offset: nat, data: bytes, ghost section: bytes)
    requires chunkBytes > 0 && offset + output.Length <= |section|
    requires Touches(chunkBytes, chunk, offset, offset + output.Length)
    requires ChunkFrom(chunkBytes, chunk) <= |section|
    requires data == section[ChunkFrom(chunkBytes, chunk)..ChunkTo(chunkBytes, chunk, |section|)]
    requires FillingOf(output[..], section, chunkBytes, offset, chunk) == InStep
    modifies output
    ensures FillingOf(output[..], section, chunkBytes, offset, chunk + 1) == InStep
  {
    PiecesAreConsecutive(chunkBytes, chunk, |section|, offset, offset + output.Length);
    var chunkStart := ChunkFrom(chunkBytes, chunk);
    var copyStart, copyEnd := Max(offset, chunkStart), Min(offset + output.Length, chunkStart + |data|);
    CopyWindow(output, chunkStart, offset, data, copyStart, copyEnd, section, ChunkTo(chunkBytes, chunk, |section|));
  }

  /** Copies the window `from..to` that a chunk and the stretch share. */
  method CopyWindow(output: array<byte>, chunkStart: nat, offset: nat, data: bytes, from: nat, to: nat,
                    ghost section: bytes, ghost chunkEnd: nat)
    requires chunkStart <= from <= to <= chunkEnd <= |section| && offset <= from <= to <= offset + output.Length <= |section|
    requires data == section[chunkStart..chunkEnd]
    requires InPlace(output[..], section[offset..offset + output.Length], from - offset)
    modifies output
    ensures InPlace(output[..], section[offset..offset + output.Length], to - offset)
  {
    ghost var want := section[offset..offset + output.Length];
    WindowIsPiece(section, chunkStart, chunkEnd, offset, offset + output.Length, from, to, data);
    CopyPiece(output, from - offset, data[from - chunkStart..to - chunkStart], want, to - offset);
  }

  /** Writes the next piece of `want` behind what is in place. */
  method CopyPiece(output: array<byte>, at: nat, piece: bytes, ghost want: bytes, ghost next: nat)
    requires InPlace(output[..], want, at) && IsPiece(want, at, piece, next)
    modifies output
    ensures InPlace(output[..], want, next)
  {
    ghost var was := output[..];
    CopyFromSlice(output, at, piece);
    Extended(want, was, output[..], at, next);
  }

  method CopyFromSlice(output: array<byte>, at: nat, piece: bytes)
    requires at + |piece| <= output.Length
    modifies output
    ensures Overwritten(old(output[..]), output[..], at, piece)
  {
    forall i | at <= i < at + |piece| {
      output[i] := piece[i - at];
    }
  }

  /** `now` is `was` with `piece` written at `at`. */
  ghost predicate Overwritten(was: bytes, now: bytes, at: nat, piece: bytes) {
    && |was| == |now|
    && at + |piece| <= |now|
    && now[..at] == was[..at]
    && now[at..at + |piece|] == piece
    && now[at + |piece|..] == was[at + |piece|..]
  }

  lemma Extended(want: bytes, was: bytes, now: bytes, from: nat, to: nat)
    requires |want| == |was| && from <= to <= |want|
    requires was[..from] == want[..from] && Overwritten(was, now, from, want[from..to])
    ensures now[..to] == want[..to]
  {
    SliceOfSlice(now, 0, to, 0, from);
    assert now[..to] == now[..from] + now[from..to];
    assert want[..to] == want[..from] + want[from..to];
  }
}
