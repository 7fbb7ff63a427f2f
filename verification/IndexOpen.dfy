/** Opening a persistent key index (src/core/persistent/cache.rs, `open_file`). */
module IndexOpen {
  import opened Bytes
  import opened Dictionary
  import opened IndexCache
  import opened IndexFormat
  import opened IndexLayout
  import opened IndexOptions
  import opened IndexQuery
  import opened IndexView
  import opened Scratch
  import opened Wrappers

  /** `source` is an index file of this dictionary snapshot with header `h`. */
  ghost predicate Opens(dict: Dictionary, source: bytes, h: IndexHeader, expected: SourceIdentity, options: KeyIndexOptions) {
    && ValidOptions(options) && |source| <= options.maxIndexBytes
    && HEADER_BYTES <= |source| && HeaderChecksumOk(source[..HEADER_BYTES], options.checksumPolicy)
    && Encodes(source[..HEADER_BYTES], h) && h.headerLen == HEADER_BYTES && Admissible(h, |source|, options)
    && LaidOut(h)
    && h.identity == expected == dict.identity
  }

  /** Checks everything about an index file except the contents of its sections; accepts exactly what `Opens`. */
  method OpenIndex(dict: Dictionary, source: bytes, expected: SourceIdentity, options: KeyIndexOptions) returns (r: Result<View>)
    requires |source| <= U64_MAX
    ensures r.Ok? ==> Opens(dict, source, r.value.header, expected, options) && r.value.Valid()
    ensures r.Ok? ==> r.value == View(source, r.value.header, options.checksumPolicy, dict.decompressedBlockBytes)
    ensures forall h | Opens(dict, source, h, expected, options) ::
              r == Ok(View(source, h, options.checksumPolicy, dict.decompressedBlockBytes))
  {
    var validated :- ValidateOptions(options);
    if |source| > options.maxIndexBytes {
      return Err(LimitExceeded(IndexBytes));
    }
    var header :- ReadIndexHeader(source, options);
    if header.identity != expected {
      return Err(Reject(SourceIdentityMismatch));
    }
    var valid :- ValidateDictionaryIdentity(dict, expected);
    var laidOut :- ValidateSectionLayout(|source|, header);
    return Ok(View(source, header, options.checksumPolicy, dict.decompressedBlockBytes));
  }

  /** Opens an index with empty caches. */
  method Open(dict: Dictionary, source: bytes, expected: SourceIdentity, options: KeyIndexOptions)
    returns (r: Result<PersistentKeyIndex>)
    requires |source| <= U64_MAX
    ensures r.Ok? ==> fresh(r.value) && r.value.Valid() && Opens(dict, source, r.value.view.header, expected, options)
    ensures forall h | Opens(dict, source, h, expected, options) ::
              r.Ok? && r.value.view == View(source, h, options.checksumPolicy, dict.decompressedBlockBytes)
  {
    var view :- OpenIndex(dict, source, expected, options);
    var index := new PersistentKeyIndex(view);
    return Ok(index);
  }
}
