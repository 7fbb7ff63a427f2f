/**
 * Scratch files and the writers that fill them (src/core/persistent/build.rs): a buffering writer and, on top
 * of it, the section writer that checksums every chunk as the bytes stream past.
 */
module Scratch {
  import opened Adler
  import opened Bytes
  import opened Sequences
  import opened Wrappers

  datatype ChecksumPolicy = Verify | Skip

  lemma TakeMore(s: bytes, done: nat, n: nat)
    requires done + n <= |s|
    ensures s[..done + n] == s[..done] + s[done..][..n]
  {
  }

  lemma ExtendedSlices(s: bytes, t: bytes, i: nat)
    requires i <= |s|
    ensures (s + t)[..i] == s[..i] && (s + t)[i..] == s[i..] + t
  {
  }

  /** `s` with `patch` written over it at `at`. */
  function Patched(s: bytes, at: nat, patch: bytes): bytes
    requires at <= |s|
  {
    s[..at] + patch + s[Min(at + |patch|, |s|)..]
  }

  lemma PatchNothing(s: bytes, at: nat)
    requires at <= |s|
    ensures Patched(s, at, []) == s
  {
  }

  lemma PatchMore(s: bytes, at: nat, a: bytes, b: bytes)
    requires at <= |s|
    ensures at + |a| <= |Patched(s, at, a)|
    ensures Patched(Patched(s, at, a), at + |a|, b) == Patched(s, at, a + b)
  {
    var first := Patched(s, at, a);
    assert first[..at + |a|] == s[..at] + a;
    assert first[Min(at + |a| + |b|, |first|)..] == s[Min(at + |a + b|, |s|)..];
    Associative(s[..at], a, b);
  }

  /** A temporary file: its bytes and the position of its one cursor. */
  class File {
    var contents: bytes
    var position: nat

    constructor ()
      ensures contents == [] && position == 0
    {
      contents, position := [], 0;
    }

    method Seek(offset: nat)
      modifies this`position
      ensures position == offset
    {
      position := offset;
    }

    /** Reads exactly `n` bytes, or fails at the end of the file. */
    method ReadExact(n: nat) returns (r: Result<bytes>)
      modifies this`position
      ensures r == if old(position) + n <= |contents| then Ok(contents[old(position)..old(position) + n]) else Err(Io)
      ensures r.Ok? ==> position == old(position) + n
    {
      if position + n <= |contents| {
        r := Ok(contents[position..position + n]);
        position := position + n;
      } else {
        r := Err(Io);
      }
    }

    /** Writes some non-empty prefix of `input`; the operating system decides how much. */
    method Write(input: bytes) returns (n: nat)
      requires position <= |contents| && input != []
      modifies this
      ensures 0 < n <= |input| && position == old(position) + n <= |contents|
      ensures contents == Patched(old(contents), old(position), input[..n])
      ensures old(position) == |old(contents)| ==> contents == old(contents) + input[..n] && position == |contents|
    {
      var accepted :| 0 < accepted <= |input|;
      n := accepted;
      contents := Patched(contents, position, input[..n]);
      position := position + n;
    }

    /** Retries `Write` until everything is written. */
    method WriteAll(input: bytes)
      requires position <= |contents|
      modifies this
      ensures contents == Patched(old(contents), old(position), input)
      ensures position == old(position) + |input| <= |contents|
      ensures old(position) == |old(contents)| ==> contents == old(contents) + input && position == |contents|
    {
      var done := 0;
      Whole(input);
      PatchNothing(contents, position);
      while done < |input|
        invariant 0 <= done <= |input|
        invariant position == old(position) + done <= |contents|
        invariant contents == Patched(old(contents), old(position), input[..done])
      {
        var n := Write(input[done..]);
        TakeMore(input, done, n);
        PatchMore(old(contents), old(position), input[..done], input[done..][..n]);
        done := done + n;
      }
    }
  }

  class BufferedScratchWriter {
    const file: File
    var buffer: bytes
    const capacity: nat

    ghost predicate Valid()
      reads this, file
    {
      0 < capacity && |buffer| <= capacity && file.position == |file.contents|
    }

    /** Everything written so far, flushed or not. */
    ghost function Written(): bytes
      reads this, file
    {
      file.contents + buffer
    }

    constructor (file: File, capacity: nat)
      requires 0 < capacity && file.contents == [] && file.position == 0
      ensures Valid() && Written() == []
      ensures this.file == file && this.capacity == capacity
    {
      this.file := file;
      this.capacity := capacity;
      buffer := [];
    }

    method FlushBuffer()
      requires Valid()
      modifies this, file
      ensures Valid() && buffer == [] && Written() == old(Written()) && file.contents == Written()
    {
      if buffer != [] {
        file.WriteAll(buffer);
        buffer := [];
      }
    }

    /** Accepts a non-empty prefix of a non-empty `input`; large inputs bypass an empty buffer. */
    method Write(input: bytes) returns (written: nat)
      requires Valid()
      modifies this, file
      ensures Valid() && written <= |input| && (input != [] ==> written > 0)
      ensures Written() == old(Written()) + input[..written]
    {
      if input == [] {
        return 0;
      }
      if buffer == [] && |input| >= capacity {
        written := file.Write(input);
        return written;
      }
      if |buffer| == capacity {
        FlushBuffer();
      }
      var available := SaturatingSub(capacity, |buffer|);
      written := Min(available, |input|);
      buffer := buffer + input[..written];
    }

    method WriteAll(input: bytes)
      requires Valid()
      modifies this, file
      ensures Valid() && Written() == old(Written()) + input
    {
      var done := 0;
      while done < |input|
        invariant 0 <= done <= |input|
        invariant Valid() && Written() == old(Written()) + input[..done]
      {
        var n := Write(input[done..]);
        TakeMore(input, done, n);
        Associative(old(Written()), input[..done], input[done..][..n]);
        done := done + n;
      }
      Whole(input);
    }

    /** Flushes and hands the file over. */
    method IntoFile() returns (r: File)
      requires Valid()
      modifies this, file
      ensures r == file && r.contents == old(Written())
    {
      FlushBuffer();
      return file;
    }
  }

  /** A finished section: its scratch file, rewound, and one checksum slot per chunk. */
  datatype SectionFile = SectionFile(file: File, len: nat, checksums: seq<nat>)

  /** The checksum table a section of these bytes must carry: zero markers when checksums are skipped. */
  function ChecksumTable(s: bytes, chunk: nat, policy: ChecksumPolicy): (table: seq<nat>)
    requires chunk > 0
  {
    if policy == Verify then ChunkChecksums(s, chunk) else seq(ChunkCount(|s|, chunk), i => 0)
  }

  lemma ChecksumTableGrows(full: bytes, chunk: nat, fullChunks: nat, last: bytes, policy: ChecksumPolicy)
    requires chunk > 0 && |full| == chunk * fullChunks && 0 < |last| <= chunk
    ensures ChecksumTable(full + last, chunk, policy) ==
            ChecksumTable(full, chunk, policy) + [if policy == Verify then Checksum(last) else 0]
  {
    ChunkChecksumsAppend(full, chunk, last, fullChunks);
    ChunkChecksumsLength(full, chunk);
    ChunkChecksumsLength(full + last, chunk);
  }

  ghost predicate HoldsSection(section: SectionFile, s: bytes, chunk: nat, policy: ChecksumPolicy)
    requires chunk > 0
    reads section.file
  {
    && section.file.contents == s
    && section.file.position == 0
    && section.len == |s|
    && section.checksums == ChecksumTable(s, chunk, policy)
  }

  class SectionScratchWriter {
    const inner: BufferedScratchWriter
    const chunkBytes: nat
    var chunkLen: nat
    var checksum: Option<Sums>
    var checksums: seq<nat>
    var len: nat
    const policy: ChecksumPolicy
    /** The bytes already cut into full chunks, and how many chunks they fill. */
    ghost var full: bytes
    ghost var fullChunks: nat

    ghost predicate Valid()
      reads this, inner, inner.file
    {
      && inner.Valid()
      && 0 < chunkBytes
      && chunkLen < chunkBytes
      && Consistent()
    }

    ghost predicate Consistent()
      requires 0 < chunkBytes
      reads this, inner, inner.file
    {
      var written := inner.Written();
      && len == |written| == |full| + chunkLen
      && full == written[..|full|]
      && |full| == chunkBytes * fullChunks
      && checksums == ChecksumTable(full, chunkBytes, policy)
      && checksum == (if policy == Verify then Some(RunningSums(Sums(1, 0), written[|full|..])) else None)
    }

    ghost function Written(): bytes
      reads this, inner, inner.file
    {
      inner.Written()
    }

    constructor (file: File, bufferBytes: nat, chunkBytes: nat, policy: ChecksumPolicy)
      requires 0 < bufferBytes && 0 < chunkBytes && file.contents == [] && file.position == 0
      ensures Valid() && Written() == [] && fresh(inner)
      ensures inner.file == file && this.chunkBytes == chunkBytes && this.policy == policy
    {
      inner := new BufferedScratchWriter(file, bufferBytes);
      this.chunkBytes := chunkBytes;
      this.policy := policy;
      chunkLen, checksums, len := 0, [], 0;
      checksum := if policy == Verify then Some(Sums(1, 0)) else None;
      full, fullChunks := [], 0;
    }

    /** Closes the current chunk; `last` is what it holds. */
    method FinishChunk()
      requires inner.Valid() && 0 < chunkBytes && Consistent() && 0 < chunkLen <= chunkBytes
      modifies this
      ensures Written() == old(Written()) && len == old(len)
      ensures chunkLen == 0
      ensures checksums == ChecksumTable(Written(), chunkBytes, policy)
      ensures old(chunkLen) == chunkBytes ==> Valid()
    {
      ghost var written := Written();
      ghost var last := written[|full|..];
      assert written == full + last;
      ChecksumTableGrows(full, chunkBytes, fullChunks, last, policy);
      checksums := checksums + [match checksum case Some(sums) => Pack(sums) case None => 0];
      if |last| == chunkBytes {
        full, fullChunks := written, fullChunks + 1;
        assert chunkBytes * fullChunks == chunkBytes * (fullChunks - 1) + chunkBytes;
      }
      chunkLen := 0;
      if checksum.Some? {
        checksum := Some(Sums(1, 0));
      }
    }

    /** Adds bytes that fit the current chunk. */
    method Extend(piece: bytes)
      requires Valid() && chunkLen + |piece| <= chunkBytes
      modifies this, inner, inner.file
      ensures inner.Valid() && Consistent() && chunkLen == old(chunkLen) + |piece|
      ensures Written() == old(Written()) + piece
    {
      ghost var before := Written();
      inner.WriteAll(piece);
      ExtendedSlices(before, piece, |full|);
      if checksum.Some? {
        RunningSumsAreReduced(Sums(1, 0), before[|full|..]);
        RunningSumsCompose(Sums(1, 0), before[|full|..], piece);
        var sums := Update(checksum.value, piece);
        checksum := Some(sums);
      }
      chunkLen := chunkLen + |piece|;
      len := len + |piece|;
    }

    /** Takes the whole input, cutting it at chunk boundaries. */
    method Write(input: bytes)
      requires Valid()
      modifies this, inner, inner.file
      ensures Valid() && Written() == old(Written()) + input
    {
      var done := 0;
      Whole(input);
      NilConcat(Written());
      while done < |input|
        invariant 0 <= done <= |input|
        invariant Valid() && Written() == old(Written()) + input[..done]
      {
        var remaining := chunkBytes - chunkLen;
        var count := Min(remaining, |input| - done);
        TakeMore(input, done, count);
        Associative(old(Written()), input[..done], input[done..][..count]);
        Extend(input[done..][..count]);
        done := done + count;
        if chunkLen == chunkBytes {
          FinishChunk();
        }
      }
    }

    /** Closes the last chunk and hands the section over. */
    method IntoSection() returns (section: SectionFile)
      requires Valid()
      modifies this, inner, inner.file
      ensures section.file == inner.file
      ensures HoldsSection(section, old(Written()), chunkBytes, policy)
    {
      ghost var written := Written();
      if chunkLen != 0 {
        FinishChunk();
      } else {
        assert full == written;
      }
      var file := inner.IntoFile();
      file.Seek(0);
      return SectionFile(file, len, checksums);
    }
  }
}
