/** Options and size constants of the persistent key index (src/index.rs, src/core/persistent/mod.rs). */
module IndexOptions {
  import opened Bytes
  import opened Scratch
  import opened Wrappers

  const MAX_MERGE_FAN_IN: nat := 32
  const MIN_BUILD_MEMORY_BYTES: nat := 256
  const MIN_CHUNK_BYTES: nat := 64
  const RUN_READ_BUFFER_BYTES: nat := 0x1_0000
  const HEADER_BYTES: nat := 224

  // Sizes of the Rust structures the memory arithmetic refers to, on a 64-bit target.
  const ARENA_RECORD_SIZE: nat := 24
  const RUN_RECORD_SIZE: nat := 32
  const RUN_CURSOR_SIZE: nat := 72
  const HEAP_RECORD_SIZE: nat := 40

  datatype KeyIndexOptions = KeyIndexOptions(
    maxIndexBytes: nat,
    maxMetadataBytes: nat,
    buildMemoryBytes: nat,
    chunkBytes: nat,
    checksumPolicy: ChecksumPolicy)

  predicate IsPowerOfTwo(n: nat) {
    n == 1 || (n > 1 && n % 2 == 0 && IsPowerOfTwo(n / 2))
  }

  predicate ValidOptions(options: KeyIndexOptions) {
    && MIN_BUILD_MEMORY_BYTES <= options.buildMemoryBytes <= USIZE_MAX
    && MIN_CHUNK_BYTES <= options.chunkBytes <= Min(options.buildMemoryBytes, U32_MAX)
    && IsPowerOfTwo(options.chunkBytes)
    && HEADER_BYTES <= options.maxMetadataBytes <= USIZE_MAX
    && options.maxIndexBytes <= U64_MAX
  }

  /** What the types of the fields guarantee. */
  predicate FitsTypes(options: KeyIndexOptions) {
    options.buildMemoryBytes <= USIZE_MAX && options.maxMetadataBytes <= USIZE_MAX && options.maxIndexBytes <= U64_MAX
  }

  method ValidateOptions(options: KeyIndexOptions) returns (r: Result<()>)
    ensures r.Ok? <==> ValidOptions(options)
  {
    if !FitsTypes(options) {
      return Err(InvalidFormat);
    }
    if options.buildMemoryBytes < MIN_BUILD_MEMORY_BYTES {
      return Err(InvalidData);
    }
    var maximumChunkBytes := Min(options.buildMemoryBytes, U32_MAX);
    if options.chunkBytes < MIN_CHUNK_BYTES || options.chunkBytes > maximumChunkBytes || !IsPowerOfTwo(options.chunkBytes) {
      return Err(InvalidData);
    }
    if options.maxMetadataBytes < HEADER_BYTES {
      return Err(InvalidData);
    }
    return Ok(());
  }

  function ScratchWriteBufferBytes(options: KeyIndexOptions): (n: nat)
    ensures n >= 1
  {
    Max(Min(options.chunkBytes, options.buildMemoryBytes / 16), 1)
  }
}
