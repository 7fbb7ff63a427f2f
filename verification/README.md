# Verified model of an MDict reader and its persistent key index

The repository reads MDict dictionaries (MDX text and MDD resources): compressed key blocks and record blocks, looked up
by key. Keys are found through an in-memory locator built on first use, or through a persistent index file that is built
in bounded memory and read in checksummed chunks. This project models those parts in Dafny and proves what they promise:

- **From dictionary to answers.** The index is built, written, reopened and queried (`EndToEnd`). Whatever the memory
  ceiling, the file is the one index of the dictionary; every query through it, and through the in-memory locator built
  from the same file, gives what a linear scan of the source keys gives.
- **External sort** (`Merge`, `Runs`, `SortBuffers`, `MergePlan`, `MergeMemory`, `RecordOrder`, `IndexBuild`,
  `IndexBuilder`, `IndexFinish`, `MetadataPlan`, `BuildMemory`).
- **File format** (`IndexLayout`, `IndexWriter`, `IndexFormat`, `IndexArtifact`, `Scratch`, `Adler`).
- **Cached verified reads** (`IndexView` is the specification, straight from the bytes; `IndexCache` and `ChunkCopy` the
  stateful reader).
- **Meanings of the small definitions** everything else is stated with: text order (`TextOrder`), the characters of
  normalized keys (`KeyForms`), the checksum in closed form (`ChecksumForm`), the weights of the bytes of a number
  (`Positional`).
- **Queries** (`LookupSpec` is the linear-scan specification; `Locator`, `LocatorLookup`, `IndexQuery`, `IndexPages`,
  `IndexPrefix`, `CaseVariantPages`, `CaseVariantLookup`, `Normalize`).
- **Key blocks, records and iteration** (`Dictionary`, `KeyBlocks`, `RecordStream`, `RecordSpans`, `Iterators`,
  `Entries`).
- **Grammars** of key rows and the keyword index in both wire versions (`KeyRows`, `KeywordIndex`, `Opening`).
- **Concurrency**: the memory budget and the single-flight locator as state machines over all interleavings
  (`MemoryBudget`, `SingleFlight`, `SingleFlightTraces`, `Progress`).

A persistent index is trusted only as far as it has been checked. Query methods therefore promise two things: over *any*
index file that opens, every row returned fits the query in the current source; over an index that is known to agree with
the dictionary (a ghost argument `known`), the answer is exactly the scan's.

Files are byte sequences with a position. Lowercasing one character, digesting a key and decoding a block are parameters.
Integers are unbounded and the source's 64-bit checks are written out where they can fail; structure sizes that enter the
memory arithmetic are those of a 64-bit target. Text is UTF-8 as in sections 3 and 4 of RFC 3629. The only assumption about
lowercasing (`LowerRespectsAscii`) is that it maps ASCII characters as ASCII lowercasing does and that any ASCII character
in the lowercase of another one is a letter or digit; it is needed only where case variants are compared.

A few invariants are values of a two-valued type (`Filling`, `Trust`, `Soundness`, `Books`) instead of predicates, so that
every step hands the whole condition on as one equation; `ChunkCopy.Filling` explains it.

`dafny verify dfyconfig.toml` checks the whole project.

## Findings

- **A built index can be unreadable.** `src/core/persistent/cache.rs:591` refuses a row longer than the dictionary's limit
  on decompressed blocks, but `src/core/persistent/build.rs:257-525` bounds rows by build memory and metadata only, and
  lowercasing or re-encoding can lengthen a key. `EndToEnd.OpenedAgrees` proves that an opened index agrees with its
  dictionary if and only if no normalized row exceeds the limit; `RowLimits.BuiltButUnreadable` gives, for every limit
  from 91 bytes on, a dictionary whose index is built and opened without an error and refuses one of its rows. The
  dictionary is one the parsers accept: its block keeps the same limit (`RowLimits.LongKeyBlock`), and so do its index
  entry and summaries (`RowLimits.LongKeyIsIndexed`).
- **The smallest legal build memory is too small to merge.** Options admit 256 bytes of build memory
  (`src/core/persistent/mod.rs:25`), and the builder admits records of a quarter of it. Such
  records can always be merged if and only if the build memory is at least 706 bytes (`MergePlan.BuilderRecordsAlwaysMerge`),
  and for every legal size below, `BuildMemory.MergeIsRefused` gives a dictionary of three rows, each within the builder's
  limit, that is refused. `IndexBuilder.BuildIndex` states exactly when the memory suffices.
- **Cached failures depend on history.** Decoding a key block may replay a failure its predecessor *inherited* from an
  earlier block, so whether a good block can be read depends on what was read before (`KeyBlocks.FailuresDependOnHistory`);
  `KeyBlocks.MdictFile.DecodeKeyBlock` states exactly when that happens.

## Model

| member | source | states |
|---|---|---|
| EndToEnd.BuildBoth | src/core/locator.rs:452-565 | Both indexes of one file: the in-memory one, if its limits allow it, is the index of the file's keys; the persistent one, built, written and reopened, agrees with the same keys if and only if no normalized row is longer than the reader's row limit |
| EndToEnd.SamePagesOfFile | src/mdx.rs:479-499 | For every file and query, the page asked of the in-memory index and of the persistent index built from that file are the same page: the one a linear scan of the keys gives, in either match mode; both answer exactly when the normalized query keeps the byte limit |
| EndToEnd.SameMatchesOfFile | src/mdx.rs:406-413 | The same for lookups of all matches: one answer, the scan's, given by both backends or by neither |
| EndToEnd.SamePrefixesOfFile | src/mdx.rs:510-517 | The same for prefix queries |
| EndToEnd.SameScansOfFile | src/mdx.rs:525-530 | The same for scans with an early stop |
| EndToEnd.LocatorLeavesRoom | src/core/locator.rs:462-481 | A dictionary whose in-memory index can be built never meets the match-list and page limits of either backend: only the length of the normalized query can refuse it |
| EndToEnd.BuildAndOpen | src/mdx.rs:334-391 | Build, write, reopen: of rows that fit it succeeds exactly when the memory suffices, and otherwise reports the build memory; what is opened is the dictionary's own index file, and agrees with it exactly when its rows keep the row limit |
| EndToEnd.BuildToFile | src/core/persistent/build.rs:21-39 | Whatever the memory ceiling and however many runs were spilled, the bytes written are the one index file of the dictionary; into an empty destination it succeeds exactly when the memory suffices |
| EndToEnd.OpenedAgrees | src/core/persistent/cache.rs:574-606 | Every row of the opened index can be read, and it agrees with its dictionary, if and only if no normalized row exceeds the row limit: the builder does not enforce what the reader does |
| EndToEnd.OpenedRow | src/core/persistent/cache.rs:574-606 | Row by row: the text the builder stored comes back, or, above the limit, the row-limit error |
| EndToEnd.SameMatches | src/core/persistent/query.rs:50-117 | Over any index that agrees and any in-memory index of the same keys: both give the matches of a linear scan with global raw-exact precedence, each with its exact condition for success, and where the in-memory index is one that can be built the conditions are the same |
| EndToEnd.SamePages | src/core/persistent/query.rs:119-207 | Both backends give the scan's page, in either match mode, and fail on the same inputs |
| EndToEnd.SamePrefixes | src/core/persistent/query.rs:209-243 | Both backends give the first matches of a prefix in sorted order, and fail on the same inputs |
| EndToEnd.SameScans | src/core/persistent/query.rs:245-267 | Both backends visit all normalized rows in physical order until the visitor stops |
| RowLimits.LongKeyOutgrowsLimit | src/types.rs:557-559 | For every row limit from 91 bytes on there is a good dictionary whose normalized key exceeds it |
| RowLimits.LongKeyBlock | src/format/v2/keyword.rs:467-513 | Its rows are a well-formed version 2 block within the same limit, and decode from it |
| RowLimits.LongKeyIsIndexed | src/core/keys.rs:224-291 | The version 2 keyword index accepts the block's entry, whatever its compressed size, and the block's boundary keys are the ones the entry summarizes: the long key stands between short ones |
| RowLimits.BuiltButUnreadable | src/core/persistent/cache.rs:574-606 | The index of that dictionary is built and opened without an error, and its long row is refused |
| Merge.MergeRuns | src/core/persistent/sort.rs:343-530 | For any number of sorted runs and any build memory: succeeds exactly when the row count is right and two runs can be planned for, and the order section then holds the ordinals of the one sorted permutation of all records, with its chunk checksums |
| Merge.PassKeepsRunsFile | src/core/persistent/sort.rs:343-530 | An intermediate pass turns a file of sorted runs into a file of fewer sorted runs with the same records, and never into a single one |
| Merge.MergePass | src/core/persistent/sort.rs:390-485 | One pass writes, group by group, exactly the runs (or the final order) that merging consecutive groups gives |
| Merge.MergeGroup | src/core/persistent/sort.rs:411-478 | One group: its header and every record of its runs once, in order; the input is left at the next group |
| Merge.PopStep | src/core/persistent/sort.rs:450-473 | Popping the heap and refilling from the same run keeps: everything emitted is sorted and below everything left, and nothing is lost |
| Merge.SortOfPermutation | src/core/persistent/sort.rs:286-293 | Permutations of the same records have the same sorted sequence, so spilling cannot be observed |
| Merge.RunReadsBack | src/core/persistent/sort.rs:194-219 | The header of a written run reads back as its body length and record count, and the body follows it |
| MergePlan.PlanFitsBuildMemory | src/core/persistent/sort.rs:367-388 | What the plan charges for all open runs together never exceeds the build memory |
| MergeMemory.MergeKeepsBuildMemory | src/core/persistent/sort.rs:411-478 | Whatever pass and group of the builder's runs is being merged, and however far: the keys in the heap, the cursors and the read buffers together keep the build memory |
| MergeMemory.HeldFitsBuildMemory | src/core/persistent/sort.rs:437-473 | The same for any group whose records keep the size the plan was made for |
| MergePlan.PlanSucceedsWhenTwoRunsFit | src/core/persistent/sort.rs:367-381 | Merging several runs is refused exactly when two of them do not fit the build memory |
| MergePlan.BuilderRecordsAlwaysMerge | src/core/persistent/sort.rs:367-381 | Every record size the builder admits can be merged if and only if the build memory is at least 706 bytes |
| BuildMemory.MergeIsRefused | src/core/persistent/mod.rs:25 | For every legal build memory below 706 bytes there is a dictionary of three rows, each within the builder's own limit, that building refuses for lack of it |
| BuildMemory.QuarterRowsCannotMerge | src/core/persistent/sort.rs:367-381 | That dictionary fits every other limit: only the memory does not suffice |
| Runs.ReadSortRecord | src/core/persistent/sort.rs:221-269 | On any file, well-formed or not: the record the bytes at the cursor spell, or the error they call for; the cursor moves exactly past it |
| Runs.RunCursor.ReadExact | src/core/persistent/sort.rs:158-191 | Reading through the bounded buffer gives the bytes of the file, for any buffer size, and never reads past the run's end |
| Runs.NextOf | src/core/persistent/sort.rs:221-269 | A written run is read back record by record, then ends |
| Runs.RecordReadsBack | src/core/persistent/sort.rs:127-138 | A written record reads back as itself and leaves the rest |
| RecordOrder.SortedIsUnique | src/core/persistent/sort.rs:286-293 | There is one sorted arrangement of any records |
| RecordOrder.OrderIsUnique | src/core/persistent/sort.rs:80-89 | There is one order of the rows by text and then ordinal |
| TextOrder.OrderSectionAscends | src/core/persistent/sort.rs:71-78 | An arrangement of all rows is the order section's if and only if each row's text is the beginning of the next one's or has the smaller byte where they first differ, and equal texts stand in physical order |
| TextOrder.OrderStepsUp | src/core/locator.rs:549-557 | In the order of either index every row stands before all later ones in that sense |
| TextOrder.OrderIsFirstDifference | src/core/persistent/sort.rs:286-293 | The comparison all sorting and searching rests on is that of the first difference |
| TextOrder.BytesOrderIsTextOrder | src/core/persistent/sort.rs:286-293 | Comparing rows as bytes is comparing their texts by character value, as section 1 of RFC 3629 promises |
| TextOrder.EncodingExamples | src/core/normalize.rs:74-102 | Two of the examples in section 7 of RFC 3629, with all four encoding widths |
| RecordOrder.TurnSplits | src/core/persistent/cache.rs:608-627 | Where a binary search over a sorted order changes direction, the whole order is split |
| SortBuffers.ArenaSortSorts | src/core/persistent/sort.rs:71-78 | Sorting arena slices sorts the records they stand for |
| SortBuffers.WriteSortedRun | src/core/persistent/sort.rs:91-119 | Appends the sorted buffer as one run, and fails only if its length exceeds 64 bits |
| SortBuffers.WriteSortedOrder | src/core/persistent/sort.rs:80-89 | Appends the ordinals of the sorted buffer |
| IndexBuilder.BuildIndex | src/core/persistent/build.rs:257-525 | Any result is the index of the dictionary's rows: four sections, their checksums and the header over them. Of rows that fit, it succeeds exactly when all of them, as they are charged, fit half the memory, or two runs of the largest record fit all of it; otherwise it reports the build memory |
| IndexBuilder.MemorySufficesFrom706 | src/core/persistent/sort.rs:367-381 | From 706 bytes on the memory always suffices |
| IndexBuilder.AddAllRows | src/core/persistent/build.rs:310-460 | Streaming succeeds exactly when every block decodes and every row fits, and has then taken every row once, in order |
| IndexBuild.AddRow | src/core/persistent/build.rs:329-456 | A row is taken exactly when its scratch record fits a quarter of the build memory and its text the metadata plan; the sections grow by exactly it, and the sort keeps one record per row |
| IndexBuild.PlanRow | src/core/persistent/build.rs:345-367 | The plan covers the normalized length, also on the path that never normalizes an ASCII key to measure it, and refuses only rows above a quarter of the build memory |
| IndexBuild.AsciiKeysDoNotGrow | src/core/persistent/build.rs:348-353 | Normalizing an ASCII key never makes it longer, so its own length is a sound reservation |
| IndexBuild.MakeRoom | src/core/persistent/build.rs:368-378 | After a possible spill the next record keeps the buffer within half the build memory, no record is lost, and nothing is spilled unless the rows so far do not fit together |
| IndexBuild.SpillKeeps | src/core/persistent/sort.rs:91-119 | Spilling moves the buffered records into a new sorted, non-empty run |
| IndexFinish.FinishOrder | src/core/persistent/build.rs:482-509 | With or without runs, the order section is the sorted permutation of the rows, or the memory does not suffice |
| IndexFinish.FinishHeader | src/core/persistent/build.rs:511-524 | The header describes the four sections, or is refused by the finished index's ceilings |
| MetadataPlan.PlanIsExact | src/core/persistent/build.rs:534-581 | The early plan refuses a row exactly when the finished header and checksum table would break the metadata ceiling |
| Scratch.BufferedScratchWriter.Write | src/core/persistent/build.rs:111-125 | Buffered or directly written, what has been accepted is appended to the file in order |
| Scratch.SectionScratchWriter.IntoSection | src/core/persistent/build.rs:201-218 | However the writes were cut, the file holds the section and its table the Adler-32 of every chunk |
| Scratch.SectionScratchWriter.Write | src/core/persistent/build.rs:222-243 | A write takes some prefix of its input, and the section grows by exactly it |
| Adler.Adler32 | src/format/common/checksum.rs:6-20 | The block-wise reduction in 32-bit arithmetic gives the checksum that section 2.2 of RFC 1950 defines byte by byte |
| ChecksumForm.Adler32Is | src/format/common/checksum.rs:6-20 | Its low half is one plus the sum of the bytes, its high half the length plus the sum of the bytes weighted by how many there are from each on, both modulo 65521 |
| Adler.Update | src/core/persistent/build.rs:146-155 | So does the incremental one, continued from any reduced state |
| Adler.BoundsFitU32 | src/format/common/checksum.rs:3-20 | 5552 unreduced bytes never overflow 32 bits |
| Adler.ChunkChecksumAt | src/core/persistent/format.rs:557-569 | A section has one checksum per chunk, each that of its chunk, the last one short |
| ChecksumForm.TableEntryIs | src/core/persistent/build.rs:188-199 | Every entry of a checksum table is that closed form of its stretch of the section |
| IndexWriter.BuildHeader | src/core/persistent/format.rs:24-133 | Encodes the laid-out header, checksum included, exactly when the section lengths keep the ceilings |
| IndexWriter.HeaderIsEncoded | src/core/persistent/format.rs:24-133 | Every header whose fields fit is encoded by the 224 bytes built from it |
| IndexWriter.WriteBuiltIndex | src/core/persistent/format.rs:415-457 | The destination becomes header, checksum table and padded sections, byte for byte, unless it was longer before |
| IndexWriter.CopyExact | src/core/persistent/format.rs:459-490 | Copies exactly the declared bytes of the scratch file behind what is there, for any buffer size; fails exactly when it is shorter |
| IndexFormat.ParseHeader | src/core/persistent/format.rs:196-372 | Accepts exactly the encodings of admissible headers and returns the header encoded |
| IndexFormat.ReadIndexHeader | src/core/persistent/format.rs:135-194 | The same with the file around it: prefix, length and header checksum |
| IndexFormat.ValidateSectionLayout | src/core/persistent/format.rs:374-413 | Accepts exactly the layouts the writer makes: aligned, back to back, ending at the total length |
| IndexLayout.EncodingIsUnambiguous | src/core/persistent/format.rs:196-372 | A byte string encodes one header at most, once the checksum count is fixed, which the sections determine |
| Positional.HeaderStartsWith | src/core/persistent/format.rs:91-106 | The fixed fields of every header, byte for byte: the name of the format, its revisions and the byte-order mark |
| Positional.TableEntriesWeigh | src/core/persistent/format.rs:583-609 | Bounds, digests, ordinals and checksums are written least significant byte first: byte i weighs 256 to the i |
| Positional.SignedMeans | src/core/persistent/format.rs:591-593 | The signed time is two's complement |
| Positional.PowersOfTwo | src/core/persistent/format.rs:520-544 | The chunk lengths that are admitted are the powers of two |
| IndexOptions.ValidateOptions | src/core/persistent/format.rs:520-544 | Accepts exactly the valid options |
| IndexLayout.LayAt | src/core/persistent/format.rs:66-95 | Every section of the layout is aligned, behind its predecessor and inside the file, and its checksum slots inside the table |
| IndexArtifact.WrittenIsIndexFile | src/core/persistent/format.rs:415-457 | What is written has every part where its header says it is |
| IndexArtifact.IndexFileRepresents | src/core/persistent/cache.rs:177-647 | Opening that file, all reads of rows, digests and order return what was indexed |
| IndexArtifact.RowReadsBack | src/core/persistent/cache.rs:574-606 | A stored row reads back if and only if it keeps the row limit |
| IndexOpen.OpenIndex | src/core/persistent/cache.rs:196-273 | Opens exactly the files whose header is admissible, identifies the source, matches the dictionary and is laid out as written |
| IndexCache.PersistentKeyIndex.ReadSectionInto | src/core/persistent/cache.rs:439-482 | From any reachable cache state, a read delivers the section's bytes, or the first failure among the chunks it touches: the caches cannot be observed |
| IndexCache.PersistentKeyIndex.LoadVerifiedChunk | src/core/persistent/cache.rs:279-338 | The chunk as a fresh verified read gives it; a failed read leaves nothing trusted behind |
| IndexCache.PersistentKeyIndex.ExpectedChecksum | src/core/persistent/cache.rs:340-400 | The checksum slot of the file, through the page cache |
| IndexCache.PersistentKeyIndex.RowText | src/core/persistent/cache.rs:574-606 | The row the bounds in the file call for, and the error for inverted, outlying, overlong or non-UTF-8 ones |
| IndexCache.PersistentKeyIndex.LowerBound | src/core/persistent/cache.rs:608-627 | Ends in range and where the search changes direction, even in an index that is not sorted |
| IndexCache.PersistentKeyIndex.EqualRange | src/core/persistent/cache.rs:629-633 | The bracket of two such searches, or nothing if it is empty |
| IndexCache.PersistentKeyIndex.OrdinalsIn | src/core/persistent/cache.rs:635-646 | The order's entries of the range |
| IndexView.View.ReadsAreVerified | src/core/persistent/cache.rs:439-482 | Every byte a read returns lies in a chunk that verified |
| IndexView.View.VerifiedMatches | src/core/persistent/cache.rs:279-338 | With checksums on, a chunk verifies exactly when its Adler-32 is its slot in the table |
| ChunkCopy.PiecesAreConsecutive | src/core/persistent/cache.rs:439-482 | The copied pieces of consecutive chunks join without gap or overlap |
| ChunkCopy.CopyChunk | src/core/persistent/cache.rs:461-480 | Copies exactly what the chunk holds of the requested stretch to its place |
| LookupSpec.VariantsAmongAlike | src/lookup.rs:9-21 | With case-insensitive matching, the case variants of a query are all among its normalized matches, also under StripKey, so selecting inside the equal range loses none |
| KeyForms.VariantsAre | src/core/case_variants.rs:30-96 | Case variants are the other keys with the same lowercase; none of them is an exact match |
| LookupSpec.RangeIsScan | src/core/locator.rs:590-594 | The equal range of the sorted order is the ascending list of the rows a linear scan finds |
| LookupSpec.PrefixRunEnds | src/core/locator.rs:375-407 | The first row behind the bound without the prefix ends all rows that have it |
| LookupSpec.PrefixRunStarts | src/core/locator.rs:375-407 | No row before the bound has the prefix |
| TextOrder.PrefixAnswerAscends | src/core/persistent/query.rs:209-243 | A prefix answer is in text order and holds only rows with the prefix; any other row with it comes after all of them, and only if the limit was reached |
| Utf8.PrefixOfEncoded | src/core/persistent/query.rs:231-237 | One text starts with another exactly when its bytes start with the other's, so prefixes can be compared as bytes |
| Utf8.EncodeOfDecode | src/core/persistent/cache.rs:596-600 | A row accepted as text is the encoding of that text and of no other |
| LookupSpec.ExactAmongAlike | src/core/locator.rs:330-371 | Every raw-exact match is a normalized match, so precedence can be decided inside the range |
| LookupSpec.ScanIs | src/lookup.rs:26-34 | The reference scan is exactly the passing rows in ascending order |
| Normalize.CaseVariantsNormalizeAlike | src/core/case_variants.rs:88-96 | Keys that are equal ignoring case normalize to the same bytes |
| Normalize.NormalizingIsStrippingTheLowercase | src/core/normalize.rs:45-71 | Case-insensitive normalization is the retained characters of the lowercase |
| Normalize.NormalizeInto | src/core/normalize.rs:45-71 | The appended text is the character-wise definition: leading separators trimmed, dropped characters skipped, the rest folded |
| KeyForms.LeadingSlashesAreIgnored | src/core/normalize.rs:45-71 | A resource path normalizes the same with a slash or a backslash in front |
| KeyForms.SlashesNormalizeAlike | src/core/normalize.rs:45-71 | Resource paths that differ only in the direction of their slashes normalize alike |
| KeyForms.PathsAreTrimmed | src/core/normalize.rs:45-71 | Without stripping, a normalized path starts with no separator, holds no forward slash, and is empty only for separators |
| KeyForms.StrippedAsciiText | src/core/normalize.rs:104-108 | With stripping, an ASCII key is reduced to its letters and digits, in lower case unless case counts |
| KeyForms.PlainAsciiText | src/core/normalize.rs:45-71 | Without stripping, an ASCII word key changes only its capitals, and only if case does not count |
| KeyForms.OneCharacter | src/core/normalize.rs:45-71 | What each character contributes, by its code |
| KeyForms.PathsAreFound | src/mdd.rs:288-292 | A resource is found under either kind of slash, with or without slashes in front |
| Normalize.NormalizeBytesInto | src/core/normalize.rs:74-102 | The byte form appends the UTF-8 encoding of the same text |
| Normalize.NormalizedLen | src/core/normalize.rs:110-137 | The length of the same bytes, without building them |
| IndexQuery.Locate | src/core/persistent/query.rs:50-117 | Over any index file: every returned ordinal fits the query in the current source. Over an index known to agree: exactly the scan's answer, with the exact condition for success |
| IndexQuery.VerifiedSourceKey | src/core/persistent/query.rs:295-314 | A key is returned only if it is the source's and its normalized text and digest are what the index stores; an agreeing index never fails |
| IndexQuery.KeepExact | src/core/persistent/query.rs:86-98 | The in-place compaction keeps exactly the raw-exact candidates, in order |
| IndexQuery.RangeOfAgreeing | src/core/persistent/cache.rs:629-633 | In an agreeing index the bracketed range is the list the scan finds |
| IndexPages.LocatePage | src/core/persistent/query.rs:119-207 | Over any index file: every row of the page fits. Over an agreeing one: total, basis and window of the scan, and the exact condition for success |
| IndexPrefix.Prefix | src/core/persistent/query.rs:209-243 | Over any index file: at most `limit` entries, each with the prefix in the current source. Over an agreeing one: the first of the sorted matches |
| IndexPrefix.Scan | src/core/persistent/query.rs:245-267 | Over any index file: every visited text is that row's current normalized key. Over an agreeing one: all rows, or up to where the visitor stops |
| Locator.BuildKeyLocator | src/core/locator.rs:452-565 | Succeeds exactly when all blocks are good and entry and byte limits allow it, and is then texts, bounds, digests and order of the file's keys |
| LocatorLookup.BuiltIsIndexed | src/core/locator.rs:581-583 | The locator that was built reads every row back and its order is sorted |
| LocatorLookup.LocateKeys | src/core/locator.rs:194-227 | The scan's answer with global raw-exact precedence; fails exactly for a query above the byte limit |
| LocatorLookup.LocateKeyPage | src/core/locator.rs:230-326 | The scan's page, and the exact condition for success |
| LocatorLookup.LocatePrefix | src/core/locator.rs:375-407 | The first of the sorted prefix matches |
| LocatorLookup.ScanNormalizedKeys | src/core/locator.rs:410-422 | All rows in physical order until the visitor stops |
| LocatorLookup.EqualRange | src/core/locator.rs:590-594 | The two partition points are the bounds of the rows equal to the query |
| LocatorLookup.RawExactWithin | src/core/locator.rs:330-371 | Digest filter and key comparison keep exactly the raw-exact rows, whatever the digest function |
| CaseVariantPages.SelectPage | src/core/case_variants.rs:11-86 | Two bounded passes give the window of all exact rows followed by all variants, the right total and mode |
| CaseVariantLookup.LocatorCaseVariants | src/core/locator.rs:164-192 | The case-variant page over the in-memory index, and the exact condition for success |
| CaseVariantLookup.IndexCaseVariants | src/core/persistent/query.rs:15-48 | Over any index file: every row is exact or a variant in the current source, and all are exact if the page says so. Over an agreeing one: the same page as in memory |
| CaseVariantLookup.IndexPageWithMode | src/mdx.rs:479-499 | Over any index file: every row of the page fits the query as its basis says. Over an agreeing one: case variants are tried first where matching ignores case; where there are none the ordinary page answers |
| CaseVariantLookup.LocatorPageWithMode | src/mdx.rs:250-263 | The same over the in-memory index |
| CaseVariantLookup.CaseSelectionIsComplete | src/lookup.rs:9-21 | Selecting inside the equal range gives what a scan of the whole dictionary would |
| KeyBlocks.MdictFile.DecodeKeyBlock | src/core/keys.rs:152-222 | From any cache state, the answer is that of a fresh decode with the predecessor check, except for a replayed failure of this block or its predecessor |
| KeyBlocks.FailuresDependOnHistory | src/core/keys.rs:224-279 | That exception is real: the same block decodes when asked for first, and fails after its predecessor inherited a failure |
| KeyBlocks.MdictFile.KeysAtOrdinals | src/core/keys.rs:52-115 | Every answer is that ordinal's key, in request order with duplicates; each needed block is visited once, in ascending order |
| KeyBlocks.MdictFile.KeyAtOrdinal | src/core/keys.rs:42-50 | The key of the ordinal, `None` exactly past the end |
| KeyBlocks.MdictFile.FindKeyBlockByOrdinal | src/core/keys.rs:293-313 | The block that holds the ordinal |
| KeyBlocks.Capture | src/core/mod.rs:67-129 | Only deterministic failures may be kept, and all of them are, except those whose message must be copied, which may find no memory |
| RecordStream.RecordReader.VisitRecordSpan | src/core/records.rs:123-170 | The visited chunks are non-empty and join to exactly the span; a failure is that of a block the span touches |
| RecordStream.RecordReader.ReadRecordSpan | src/core/records.rs:111-121 | The slice of the decoded record stream between the two offsets, within the materialization limit |
| RecordStream.RecordReader.DecodeRecordBlock | src/core/records.rs:172-199 | From any cache state, the block a fresh decode gives |
| RecordStream.Records.PartIsSlice | src/core/records.rs:123-170 | Joined parts of consecutive blocks are a slice of the concatenation of all blocks |
| RecordStream.FindRecordBlock | src/format/common/descriptors.rs:124-143 | The block that holds the position, and one exactly inside the stream |
| RecordStream.VerifyRecordBlocks | src/format/common/descriptors.rs:278-296 | Accepts exactly the record blocks that tile the stream |
| RecordSpans.SpansTile | src/core/records.rs:65-109 | In a good file record spans follow each other without gap or overlap up to the end of the stream, across blocks |
| Entries.ReadAllResources | src/mdd.rs:340-385 | Iterating to the end, whatever the caches held: every record once and in order; in a good file they are, one behind the other, the decoded stream from the first start on, and nothing fails within the materialization limit |
| Entries.ResourcesAreStream | src/mdd.rs:340-385 | The same for the resources however they were read |
| Entries.ResourceIter.Next | src/mdd.rs:361-383 | Each resource is what its descriptor and the record blocks say; an error or the end is final, and a readable file never fails |
| Entries.ResourceAt | src/mdd.rs:261-278 | The resource of the ordinal, `None` exactly past the end |
| Entries.ResourceIsUnique | src/mdd.rs:353-358 | An ordinal has one resource, whether it was iterated to or asked for |
| RecordSpans.RecordDescriptorFromHit | src/core/records.rs:65-109 | The span of the entry; fails only if its successor's block is bad |
| RecordSpans.RecordAtOrdinal | src/core/records.rs:42-50 | The record of the ordinal, `None` exactly past the end |
| Iterators.KeyIter.Next | src/core/iter.rs:33-83 | Keys in ordinal order, each the file's; an error or the end is final, and the end comes only after the last ordinal |
| Iterators.RecordIter.Next | src/core/iter.rs:111-168 | Records in ordinal order, each what per-ordinal access gives; an error or the end is final |
| KeyRows.DecodeKeyRows | src/format/v2/keyword.rs:467-513 | Accepts exactly the blocks that are some rows written out, as many as declared, ascending and inside the stream, and returns them |
| Positional.RowsSayTheirStarts | src/format/common/cursor.rs:27-56 | In an accepted block every row begins with the number where its record starts, most significant byte first, and its key follows |
| Positional.OrdinaryBlock | src/format/v1/keyword.rs:362-408 | The version 1 block 00 00 00 05 61 00 is the row of key "a" that starts at 5 |
| KeyRows.SameRows | src/format/v1/keyword.rs:362-408 | Version 1 and version 2 give the same rows for the same contents |
| KeyRows.SplitTerminated | src/format/common/encoding.rs:141-186 | Splits at the first zero unit; fails exactly when there is none |
| KeyRows.KeyIsDetermined | src/format/common/encoding.rs:141-186 | A byte string starts with one terminated key at most |
| KeywordIndex.ParseKeywordIndexEntries | src/format/v2/keyword.rs:303-404 | In all three layouts: accepts exactly the indexes that are entries written out, nothing left over, and returns their descriptors with running starts and offsets |
| Positional.EntriesSayTheirSizes | src/format/common/cursor.rs:27-56 | An entry begins with its entry count and ends with its two sizes, most significant byte first |
| KeywordIndex.ValidateKeyBlockSizes | src/format/v2/keyword.rs:406-454 | Accepts exactly the sizes within the limits that can hold the declared entries |
| KeywordIndex.SameDescriptors | src/format/v1/keyword.rs:218-283 | The same entries written in any two layouts parse to the same descriptors |
| KeywordIndex.DescriptorsAreContiguous | src/format/v1/keyword.rs:218-283 | Ordinals and compressed bytes of consecutive blocks have no gaps |
| Opening.ParseKeyBlocks | src/format/v2/keyword.rs:171-208 | With the totals checks: accepts exactly the indexes whose entry and byte totals are the declared ones and whose blocks lie in the file |
| Opening.VerifyKeyBlocks | src/format/common/descriptors.rs:258-276 | The backstop accepts exactly the chained blocks |
| Opening.ChainedCovers | src/format/common/descriptors.rs:258-276 | For blocks the keyword index lets through, the backstop is exactly that they cover all ordinals |
| Opening.AcceptedIsWellFormed | src/format/common/descriptors.rs:255-299 | Accepted metadata and accepted rows establish what the lookup layer assumes of a dictionary: full cover of the ordinals, counted, ascending and bounded rows |
| MemoryBudget.RunKeepsInv | src/limits.rs:39-67 | In every interleaving of any number of threads the counter is the bytes of live reservations plus claims under way, and never exceeds the budget |
| MemoryBudget.PeakIsExact | src/limits.rs:59-63 | With no claim between its exchange and its peak update, the peak is the highest use of the whole run |
| MemoryBudget.NothingLeft | src/limits.rs:102-105 | Once everything is dropped, nothing is used |
| MemoryBudget.RefusalsAreJustified | src/limits.rs:39-67 | A claim is refused only if at some moment of the run it would really have exceeded the budget |
| MemoryBudget.StepKeepsAccounts | src/limits.rs:27-67 | Every atomic step keeps the books, and a drop never takes the counter below zero |
| Progress.ReservationThatFits | src/limits.rs:27-67 | Undisturbed, a reservation that fits is made, and nothing else changes |
| Progress.RetriedClaimThatFits | src/limits.rs:47-66 | A claim that lost a race succeeds at the next attempt if it fits what the counter is now |
| Progress.GrowthThatFits | src/limits.rs:90-98 | Growing a reservation adds to it and to nothing else |
| Progress.ReservationThatDoesNotFit | src/limits.rs:39-67 | A reservation that does not fit is refused and leaves everything as it was |
| Progress.DropGivesBack | src/limits.rs:102-105 | A drop gives exactly the reservation's bytes back |
| SingleFlight.SameLocator | src/core/locator.rs:424-450 | In every interleaving, all callers that get a locator get the same one |
| SingleFlight.PublishedIsReturned | src/core/locator.rs:424-450 | Once an outcome is published, every call that returns later returns it |
| SingleFlight.OneBuilder | src/core/locator.rs:424-450 | At most one thread builds at a time |
| SingleFlight.PermanentFailures | src/core/locator.rs:568-573 | A failure becomes permanent only if it is deterministic, and no caller ever gets a locator then |
| SingleFlightTraces.RunHasTrace | src/core/locator.rs:424-450 | Every interleaving of callers is one of these step-by-step runs |
| SingleFlightTraces.OutcomesHappened | src/core/locator.rs:424-450 | Every outcome that is published or returned is that of a build of the run: a locator that was built, or the very error a build ended with |
| SingleFlightTraces.ReturnedFailureIsOwn | src/core/locator.rs:443-448 | A caller that gets a failure other than the published one gets the error of its own build |
| SingleFlightTraces.TransientFailuresDoNotLast | src/core/mod.rs:67-129 | While builds fail for transient reasons only (I/O, memory, cancellation, a changed source, a rejected index), no failure is ever published |
| SingleFlightTraces.LastBuild | src/core/locator.rs:424-450 | A build that succeeds, or fails for a reason that is always kept, is the last one of the run |
| SingleFlightTraces.CallsReturnOnce | src/core/locator.rs:424-450 | Every call has returned exactly once or is still under way |
| SingleFlight.PublishedForever | src/core/locator.rs:424-450 | What is published never changes |
| Progress.FirstCallBuilds | src/core/locator.rs:424-450 | Undisturbed, a first call builds, publishes and returns the locator |
| Progress.FailedCallReports | src/core/locator.rs:424-450 | A build that fails is reported to its caller; if the failure is not kept the cell stays empty and the mutex free |
| Progress.LaterCallReturns | src/core/locator.rs:425-427 | Once something is published a call returns it without the mutex |
| Progress.WaitingCallReturns | src/core/locator.rs:429-435 | A call that waited for the one that published returns what was published |

## Left out

- Working-memory reservations inside the single-threaded operations: the budget is modelled on its own, as a state machine.
- Allocator failures, buffer capacities and reservation growth (`try_reserve_*`, `reserve_record`).
- Cancellation callbacks, operating-system I/O errors, and the checks that the source file did not change meanwhile.
- Mutex poisoning; inside one index or dictionary the caches are used by one caller at a time.
- `BinaryHeap` is a sequence from which a least element is taken; `sort_unstable` is the function it computes, since the
  compared records are distinct or equal in every field.
- Integer width is fixed at 64 bits; conversions between `usize` and `u64` cannot fail.
- Values carried by errors, their messages, and, where a contract states only whether an operation succeeds, which error it
  reports when it does not.
- Compression, encryption, text decoding and the header XML: a block's decoding is a deterministic function.
- Detection of the version 2 keyword layout and of wire versions; the parser is proved for each layout.
- Contiguity of the file's top-level sections, the record index parsers, and the record header checks.
- Encodings with code units other than one or two bytes; a text's bytes are kept and its validity is a predicate.
- The index file's name and scratch directories: files are created empty.
- Borrowed results (`KeyMatches`, `KeyMatchPage`): pages and matches are sequences of ordinals.
- `lookup` and the text decoding of MDX records, which pair the operations above with a decoder.
- IndexBuilder.BuildIndex: the exact condition for success is stated for dictionaries whose scratch records together stay
  below 2^64 bytes; beyond that the scratch file itself cannot be addressed.
- KeyBlocks.Capture: failures that copy a message may or may not be kept, because that depends on an allocation.
- CaseVariantLookup.CaseSelectionIsComplete: stated for dictionaries without resource paths, the only ones for which case
  variants can be asked for (`src/mdx.rs:265-267`).
