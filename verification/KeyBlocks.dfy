/**
 * Lazy key blocks: a one-block cache that also remembers failures, lookups by ordinal, and batched lookups
 * (src/core/keys.rs, src/core/mod.rs).
 */
module KeyBlocks {
  import opened Bytes
  import opened Dictionary
  import opened Sequences
  import opened Wrappers

  /** Whether a failure is deterministic and may be replayed. */
  predicate Capturable(error: Error) {
    match error
    case Io | AllocationFailed | KeyIndexRejected(_) | Cancelled | SourceChanged => false
    case LimitExceeded(limit) => limit != WorkingMemoryBytes
    case _ => true
  }

  /** Keeping an `InvalidData` message takes memory, which may not be there. */
  predicate AlwaysCaptured(error: Error) {
    Capturable(error) && error != InvalidData
  }

  datatype CachedValue<T> = Ready(value: T) | Failed(error: Error)

  datatype CachedBlock<T> = CachedBlock(index: nat, value: CachedValue<T>)

  /** The error to remember, if it can be. */
  method Capture(error: Error) returns (r: Option<Error>)
    ensures r.Some? ==> r.value == error && Capturable(error)
    ensures AlwaysCaptured(error) ==> r == Some(error)
  {
    match error {
      case Io | AllocationFailed | KeyIndexRejected(_) | Cancelled | SourceChanged =>
        return None;
      case LimitExceeded(WorkingMemoryBytes) =>
        return None;
      case InvalidData =>
        var roomForMessage: bool := *;
        return if roomForMessage then Some(error) else None;
      case _ =>
        return Some(error);
    }
  }

  /** A key block that holds an ordinal, and where. */
  datatype KeyBlockHit = KeyBlockHit(blockIndex: nat, entryIndex: nat, entries: seq<Row>)

  class MdictFile {
    const dict: Dictionary
    var keyBlockCache: Option<CachedBlock<seq<Row>>>

    /** What every reachable cache state satisfies. */
    ghost predicate Valid()
      reads this
    {
      dict.Valid() && CacheTrusted(keyBlockCache)
    }

    /** Rows are what a fresh decode gives; a failure means that some block up to there is bad. */
    ghost predicate CacheTrusted(cache: Option<CachedBlock<seq<Row>>>)
      requires dict.Valid()
    {
      cache.Some? ==>
        match cache.value.value
        case Ready(rows) => dict.CheckedBlock(cache.value.index) == Ok(rows)
        case Failed(error) => !dict.GoodUpTo(cache.value.index)
    }

    constructor (dict: Dictionary)
      requires dict.Valid()
      ensures this.dict == dict && Valid() && keyBlockCache == None
    {
      this.dict := dict;
      keyBlockCache := None;
    }

    /** The failure that a decode of block `index` replays from the cache, if any. */
    function Replayed(cache: Option<CachedBlock<seq<Row>>>, index: nat): Option<Error> {
      match cache
      case Some(CachedBlock(i, Failed(error))) =>
        if i == index || (i + 1 == index && index < |dict.keyBlocks|) then Some(error) else None
      case _ => None
    }

    /** Where the records of block `index - 1` end, from the cache if it holds that block. */
    method PreviousLast(index: nat) returns (r: Result<nat>)
      requires Valid() && 0 < index < |dict.keyBlocks|
      requires keyBlockCache.Some? ==> keyBlockCache.value.index != index
      ensures Replayed(keyBlockCache, index).Some? ==> r == Err(Replayed(keyBlockCache, index).value)
      ensures Replayed(keyBlockCache, index) == None ==>
                match dict.decode(index - 1)
                case Err(e) => r == Err(e)
                case Ok(rows) => rows != [] && r == Ok(rows[|rows| - 1].recordStart)
    {
      if dict.decode(index - 1).Ok? {
        dict.RowsAreThere(index - 1);
      }
      if keyBlockCache.Some? && keyBlockCache.value.index + 1 == index {
        match keyBlockCache.value.value
        case Failed(error) => return Err(error);
        case Ready(previous) =>
          dict.BlockLength(index - 1);
          return Ok(previous[|previous| - 1].recordStart);
      }
      var previous :- dict.decode(index - 1);
      return Ok(previous[|previous| - 1].recordStart);
    }

    /** Decodes block `index` against its predecessor; the cache may have been dropped on the way. */
    method DecodeAfterPrevious(index: nat) returns (r: Result<seq<Row>>)
      requires Valid() && (keyBlockCache.Some? ==> keyBlockCache.value.index != index)
      modifies this
      ensures Valid() && (keyBlockCache == old(keyBlockCache) || keyBlockCache == None)
      ensures r == match Replayed(old(keyBlockCache), index) case Some(e) => Err(e) case None => dict.CheckedBlock(index)
    {
      if index >= |dict.keyBlocks| {
        return Err(InvalidFormat);
      }
      var previousLast: Option<nat> := None;
      if index > 0 {
        var last :- PreviousLast(index);
        previousLast := Some(last);
      }
      keyBlockCache := None;
      var entries :- dict.decode(index);
      dict.RowsAreThere(index);
      if previousLast.Some? && previousLast.value > entries[0].recordStart {
        return Err(InvalidData);
      }
      return Ok(entries);
    }

    /**
     * Block `index` through the cache. Unless a failure of this block or of its predecessor is replayed, the
     * answer is exactly that of a fresh decode; an `Ok` answer always is.
     */
    method DecodeKeyBlock(index: nat) returns (r: Result<seq<Row>>)
      requires Valid()
      modifies this
      ensures Valid()
      ensures r == match Replayed(old(keyBlockCache), index) case Some(e) => Err(e) case None => dict.CheckedBlock(index)
      ensures r.Ok? ==> keyBlockCache == Some(CachedBlock(index, Ready(r.value)))
      ensures r.Err? && AlwaysCaptured(r.error) ==> keyBlockCache == Some(CachedBlock(index, Failed(r.error)))
      ensures dict.GoodUpTo(index) ==> r.Ok?
    {
      if keyBlockCache.Some? && keyBlockCache.value.index == index {
        match keyBlockCache.value.value
        case Ready(entries) => return Ok(entries);
        case Failed(error) => return Err(error);
      }
      r := DecodeAfterPrevious(index);
      match r {
        case Ok(entries) =>
          keyBlockCache := Some(CachedBlock(index, Ready(entries)));
        case Err(error) =>
          var captured := Capture(error);
          if captured.Some? {
            keyBlockCache := Some(CachedBlock(index, Failed(captured.value)));
          }
      }
    }

    /** The block that holds `ordinal`, by binary search over the block descriptors. */
    method FindKeyBlockByOrdinal(ordinal: nat) returns (r: Result<Option<nat>>)
      requires dict.Valid()
      ensures r.Ok? && (r.value.Some? <==> ordinal < dict.totalEntries)
      ensures r.value.Some? ==> dict.Holds(r.value.value, ordinal)
    {
      var blocks, total := dict.keyBlocks, dict.totalEntries;
      var left, right := 0, |blocks|;
      FirstStart(blocks, total);
      while left < right
        invariant 0 <= left <= right <= |blocks|
        invariant StartOf(blocks, left, total) <= ordinal || left == 0
        invariant ordinal < StartOf(blocks, right, total) || right == |blocks|
      {
        var mid := (left + right) / 2;
        var block := blocks[mid];
        CoversStep(blocks, 0, total, mid);
        if block.entryStartIndex + block.entryCount > U64_MAX {
          return Err(InvalidFormat);
        }
        if ordinal < block.entryStartIndex {
          right := mid;
        } else if ordinal >= block.entryStartIndex + block.entryCount {
          left := mid + 1;
        } else {
          return Ok(Some(mid));
        }
      }
      return Ok(None);
    }

    /** The decoded block and position of an ordinal. */
    method KeyEntryAtOrdinal(ordinal: nat) returns (r: Result<Option<KeyBlockHit>>)
      requires Valid()
      modifies this
      ensures Valid()
      ensures r.Ok? ==> (r.value.Some? <==> ordinal < dict.totalEntries)
      ensures r.Ok? && r.value.Some? ==> IsHit(dict, ordinal, r.value.value)
      ensures dict.AllGood() ==> r.Ok?
      ensures ordinal >= dict.totalEntries ==> r.Ok?
    {
      if ordinal >= dict.totalEntries {
        return Ok(None);
      }
      var found := FindKeyBlockByOrdinal(ordinal);
      var blockIndex := found.value.value;
      var entryIndex := ordinal - dict.keyBlocks[blockIndex].entryStartIndex;
      var entries :- DecodeKeyBlock(blockIndex);
      dict.BlockLength(blockIndex);
      if entryIndex >= |entries| {
        return Err(InvalidData);
      }
      return Ok(Some(KeyBlockHit(blockIndex, entryIndex, entries)));
    }

    /** The raw key at an ordinal. */
    method KeyAtOrdinal(ordinal: nat) returns (r: Result<Option<string>>)
      requires Valid()
      modifies this
      ensures Valid()
      ensures r.Ok? ==> IsKeyAnswer(dict, ordinal, r.value)
      ensures dict.AllGood() ==> r.Ok?
    {
      var hit :- KeyEntryAtOrdinal(ordinal);
      if hit == None {
        return Ok(None);
      }
      var row := hit.value.entries[hit.value.entryIndex];
      assert dict.RowIsIn(hit.value.blockIndex, ordinal, row);
      return Ok(Some(row.key));
    }

    /** One request per ordinal of the file, in input order. */
    method MakeRequests(ordinals: seq<nat>) returns (r: Result<seq<Request>>)
      requires dict.Valid()
      ensures r.Ok? && AreRequests(dict, ordinals, r.value) && AllRequested(dict, ordinals, r.value, |ordinals|)
    {
      var requests: seq<Request> := [];
      for i := 0 to |ordinals|
        invariant AreRequests(dict, ordinals, requests) && AllRequested(dict, ordinals, requests, i)
      {
        var ordinal := ordinals[i];
        if ordinal >= dict.totalEntries {
          continue;
        }
        var found := FindKeyBlockByOrdinal(ordinal);
        var blockIndex := found.value.value;
        var entryIndex := ordinal - dict.keyBlocks[blockIndex].entryStartIndex;
        var request := Request(blockIndex, entryIndex, i, ordinal);
        RequestAppended(dict, ordinals, requests, request, i);
        requests := requests + [request];
      }
      return Ok(requests);
    }

    /** Answers the requests of one block. */
    method AnswerGroup(group: seq<Request>, blockIndex: nat, entries: seq<Row>, ordinals: seq<nat>,
                       results: seq<Option<string>>)
      returns (r: Result<seq<Option<string>>>)
      requires dict.Valid() && AreRequests(dict, ordinals, group) && InBlock(group, blockIndex)
      requires dict.CheckedBlock(blockIndex) == Ok(entries)
      requires AnswersSound(dict, ordinals, results)
      ensures r.Ok? && |r.value| == |results| && AnswersSound(dict, ordinals, r.value)
      ensures forall i | 0 <= i < |results| && results[i].Some? :: r.value[i].Some?
      ensures Answered(group, r.value)
    {
      var filled := results;
      for j := 0 to |group|
        invariant |filled| == |results| && AnswersSound(dict, ordinals, filled)
        invariant forall i | 0 <= i < |results| && results[i].Some? :: filled[i].Some?
        invariant forall i | 0 <= i < j :: group[i].inputIndex < |filled| && filled[group[i].inputIndex].Some?
      {
        var request := group[j];
        RequestIsAnswerable(dict, ordinals, request);
        if request.entryIndex >= |entries| {
          return Err(InvalidData);
        }
        filled := filled[request.inputIndex := Some(entries[request.entryIndex].key)];
      }
      return Ok(filled);
    }

    /**
     * Many keys at once: the requests are sorted by block so that each block is decoded once, and the answers
     * come back in input order.
     */
    method KeysAtOrdinals(ordinals: seq<nat>) returns (r: Result<seq<Option<string>>>, ghost visited: seq<nat>)
      requires Valid()
      modifies this
      ensures Valid()
      ensures r.Ok? ==> |r.value| == |ordinals| && forall i | 0 <= i < |ordinals| :: IsKeyAnswer(dict, ordinals[i], r.value[i])
      ensures dict.AllGood() ==> r.Ok?
      ensures VisitedOnce(visited) && VisitsNeeded(dict, ordinals, visited)
    {
      visited := [];
      var results: seq<Option<string>> := seq(|ordinals|, i => None);
      var made := MakeRequests(ordinals);
      var requests := SortRequests(made.value);
      SortRequestsSorts(made.value);
      SortedAreRequests(dict, ordinals, made.value);
      var rangeStart := 0;
      while rangeStart < |requests|
        invariant Valid() && 0 <= rangeStart <= |requests|
        invariant BatchState(dict, ordinals, requests, rangeStart, results, visited)
      {
        var rangeEnd := GroupEnd(requests, rangeStart);
        VisitStep(dict, ordinals, requests, rangeStart, rangeEnd, visited);
        visited := visited + [requests[rangeStart].blockIndex];
        var answered := DecodeGroup(requests[rangeStart..rangeEnd], requests[rangeStart].blockIndex, ordinals, results);
        if answered.Err? {
          return Err(answered.error), visited;
        }
        GroupAnswered(requests, rangeStart, rangeEnd, results, answered.value);
        results := answered.value;
        rangeStart := rangeEnd;
      }
      Whole(requests);
      AllAnswered(dict, ordinals, requests, results);
      return Ok(results), visited;
    }

    /** Decodes one block and answers its requests. */
    method DecodeGroup(group: seq<Request>, blockIndex: nat, ordinals: seq<nat>, results: seq<Option<string>>)
      returns (r: Result<seq<Option<string>>>)
      requires Valid() && blockIndex < |dict.keyBlocks|
      requires AreRequests(dict, ordinals, group) && InBlock(group, blockIndex) && AnswersSound(dict, ordinals, results)
      modifies this
      ensures Valid()
      ensures r.Ok? ==> |r.value| == |results| && AnswersSound(dict, ordinals, r.value) && Answered(group, r.value)
      ensures r.Ok? ==> forall i | 0 <= i < |results| && results[i].Some? :: r.value[i].Some?
      ensures dict.AllGood() ==> r.Ok?
    {
      var entries :- DecodeKeyBlock(blockIndex);
      r := AnswerGroup(group, blockIndex, entries, ordinals, results);
    }
  }

  /** Where the run of requests for one block ends. */
  method GroupEnd(requests: seq<Request>, start: nat) returns (end: nat)
    requires start < |requests|
    ensures start < end <= |requests| && InBlock(requests[start..end], requests[start].blockIndex)
    ensures end < |requests| ==> requests[end].blockIndex != requests[start].blockIndex
  {
    end := start + 1;
    while end < |requests| && requests[end].blockIndex == requests[start].blockIndex
      invariant start < end <= |requests|
      invariant forall j | start <= j < end :: requests[j].blockIndex == requests[start].blockIndex
    {
      end := end + 1;
    }
  }

  ghost predicate InBlock(group: seq<Request>, blockIndex: nat) {
    forall j | 0 <= j < |group| :: group[j].blockIndex == blockIndex
  }

  lemma FirstStart(blocks: seq<KeyBlock>, total: nat)
    requires Covers(blocks, 0, total)
    ensures StartOf(blocks, 0, total) == 0
  {
  }

  ghost predicate IsHit(dict: Dictionary, ordinal: nat, hit: KeyBlockHit)
    requires dict.Valid()
  {
    && dict.Holds(hit.blockIndex, ordinal)
    && dict.CheckedBlock(hit.blockIndex) == Ok(hit.entries)
    && hit.entryIndex == ordinal - dict.keyBlocks[hit.blockIndex].entryStartIndex < |hit.entries|
  }

  /** The file's key at an ordinal, or nothing behind its last key. */
  ghost predicate IsKeyAnswer(dict: Dictionary, ordinal: nat, answer: Option<string>)
    requires dict.Valid()
  {
    match answer
    case None => ordinal >= dict.totalEntries
    case Some(key) => ordinal < dict.totalEntries && dict.KeyIs(ordinal, key)
  }

  // ----- batched requests -----

  datatype Request = Request(blockIndex: nat, entryIndex: nat, inputIndex: nat, ordinal: nat)

  ghost predicate IsRequest(dict: Dictionary, ordinals: seq<nat>, request: Request) {
    && request.inputIndex < |ordinals|
    && request.ordinal == ordinals[request.inputIndex] < dict.totalEntries
    && dict.Holds(request.blockIndex, request.ordinal)
    && request.entryIndex == request.ordinal - dict.keyBlocks[request.blockIndex].entryStartIndex
  }

  ghost predicate AreRequests(dict: Dictionary, ordinals: seq<nat>, requests: seq<Request>) {
    forall j | 0 <= j < |requests| :: IsRequest(dict, ordinals, requests[j])
  }

  /** Every ordinal of the file among the first `n` has a request. */
  ghost predicate AllRequested(dict: Dictionary, ordinals: seq<nat>, requests: seq<Request>, n: nat)
    requires n <= |ordinals|
  {
    forall i | 0 <= i < n && ordinals[i] < dict.totalEntries :: Requested(requests, i)
  }

  ghost predicate Requested(requests: seq<Request>, i: nat) {
    exists request :: request in requests && request.inputIndex == i
  }

  lemma RequestAppended(dict: Dictionary, ordinals: seq<nat>, requests: seq<Request>, request: Request, n: nat)
    requires n < |ordinals| && AllRequested(dict, ordinals, requests, n) && AreRequests(dict, ordinals, requests)
    requires IsRequest(dict, ordinals, request) && request.inputIndex == n
    ensures AllRequested(dict, ordinals, requests + [request], n + 1)
    ensures AreRequests(dict, ordinals, requests + [request])
  {
    forall i | 0 <= i < n + 1 && ordinals[i] < dict.totalEntries
      ensures Requested(requests + [request], i)
    {
      if i < n {
        var earlier :| earlier in requests && earlier.inputIndex == i;
        assert earlier in requests + [request];
      } else {
        assert request in requests + [request];
      }
    }
  }

  /** What is filled in is right. */
  ghost predicate AnswersSound(dict: Dictionary, ordinals: seq<nat>, results: seq<Option<string>>)
    requires dict.Valid()
  {
    |results| == |ordinals| &&
    forall i | 0 <= i < |results| && results[i].Some? ::
      ordinals[i] < dict.totalEntries && dict.KeyIs(ordinals[i], results[i].value)
  }

  ghost predicate Answered(requests: seq<Request>, results: seq<Option<string>>) {
    forall j | 0 <= j < |requests| :: requests[j].inputIndex < |results| && results[requests[j].inputIndex].Some?
  }

  lemma GroupAnswered(requests: seq<Request>, start: nat, end: nat, before: seq<Option<string>>, after: seq<Option<string>>)
    requires start <= end <= |requests| && |before| == |after|
    requires Answered(requests[..start], before) && Answered(requests[start..end], after)
    requires forall i | 0 <= i < |before| && before[i].Some? :: after[i].Some?
    ensures Answered(requests[..end], after)
  {
    forall j | 0 <= j < end
      ensures requests[j].inputIndex < |after| && after[requests[j].inputIndex].Some?
    {
      if j < start {
        assert requests[..start][j] == requests[j];
      } else {
        assert requests[start..end][j - start] == requests[j];
      }
    }
  }

  lemma RequestIsAnswerable(dict: Dictionary, ordinals: seq<nat>, request: Request)
    requires dict.Valid() && IsRequest(dict, ordinals, request) && dict.CheckedBlock(request.blockIndex).Ok?
    ensures request.entryIndex < |dict.CheckedBlock(request.blockIndex).value|
    ensures dict.KeyIs(request.ordinal, dict.CheckedBlock(request.blockIndex).value[request.entryIndex].key)
  {
    dict.BlockLength(request.blockIndex);
    var row := dict.CheckedBlock(request.blockIndex).value[request.entryIndex];
    assert dict.RowIsIn(request.blockIndex, request.ordinal, row);
    assert dict.RowIs(request.ordinal, row);
  }

  // ----- visiting each block once -----

  ghost predicate VisitedOnce(visited: seq<nat>) {
    forall i, j | 0 <= i < j < |visited| :: visited[i] < visited[j]
  }

  ghost predicate VisitsNeeded(dict: Dictionary, ordinals: seq<nat>, visited: seq<nat>) {
    forall i | 0 <= i < |visited| :: IsNeeded(dict, ordinals, visited[i])
  }

  ghost predicate IsNeeded(dict: Dictionary, ordinals: seq<nat>, block: nat) {
    exists i :: 0 <= i < |ordinals| && dict.Holds(block, ordinals[i])
  }

  /** Blocks are visited in ascending order, each before the first of its requests is left behind. */
  ghost predicate VisitsFit(requests: seq<Request>, rangeStart: nat, visited: seq<nat>)
    requires rangeStart <= |requests|
  {
    && VisitedOnce(visited)
    && (rangeStart < |requests| ==> forall i | 0 <= i < |visited| :: visited[i] < requests[rangeStart].blockIndex)
  }

  /** The state of a batch that has answered the first `rangeStart` requests. */
  ghost predicate BatchState(dict: Dictionary, ordinals: seq<nat>, requests: seq<Request>, rangeStart: nat,
                             results: seq<Option<string>>, visited: seq<nat>)
    requires dict.Valid() && rangeStart <= |requests|
  {
    && AnswersSound(dict, ordinals, results)
    && Answered(requests[..rangeStart], results)
    && VisitsFit(requests, rangeStart, visited)
    && VisitsNeeded(dict, ordinals, visited)
  }

  lemma VisitStep(dict: Dictionary, ordinals: seq<nat>, requests: seq<Request>, start: nat, end: nat, visited: seq<nat>)
    requires start < end <= |requests| && SortedByBlock(requests) && AreRequests(dict, ordinals, requests)
    requires VisitsFit(requests, start, visited) && VisitsNeeded(dict, ordinals, visited)
    requires end < |requests| ==> requests[end].blockIndex != requests[start].blockIndex
    ensures requests[start].blockIndex < |dict.keyBlocks| && AreRequests(dict, ordinals, requests[start..end])
    ensures VisitsFit(requests, end, visited + [requests[start].blockIndex])
    ensures VisitsNeeded(dict, ordinals, visited + [requests[start].blockIndex])
  {
    var request := requests[start];
    assert IsRequest(dict, ordinals, request);
    assert IsNeeded(dict, ordinals, request.blockIndex) by {
      assert dict.Holds(request.blockIndex, ordinals[request.inputIndex]);
    }
    forall j | 0 <= j < end - start
      ensures IsRequest(dict, ordinals, requests[start..end][j])
    {
      assert requests[start..end][j] == requests[start + j];
    }
  }

  lemma AllAnswered(dict: Dictionary, ordinals: seq<nat>, requests: seq<Request>, results: seq<Option<string>>)
    requires dict.Valid() && AnswersSound(dict, ordinals, results)
    requires AllRequested(dict, ordinals, requests, |ordinals|) && Answered(requests, results)
    ensures forall i | 0 <= i < |ordinals| :: IsKeyAnswer(dict, ordinals[i], results[i])
  {
    forall i | 0 <= i < |ordinals|
      ensures IsKeyAnswer(dict, ordinals[i], results[i])
    {
      if ordinals[i] < dict.totalEntries {
        assert Requested(requests, i);
        var request :| request in requests && request.inputIndex == i;
        var j :| 0 <= j < |requests| && requests[j] == request;
      }
    }
  }

  /** Sorting by block; the source leaves the order inside a block open. */
  function SortRequests(requests: seq<Request>): seq<Request> {
    if requests == [] then [] else InsertRequest(requests[0], SortRequests(requests[1..]))
  }

  function InsertRequest(request: Request, sorted: seq<Request>): seq<Request> {
    if sorted == [] || request.blockIndex <= sorted[0].blockIndex then [request] + sorted
    else [sorted[0]] + InsertRequest(request, sorted[1..])
  }

  ghost predicate SortedByBlock(requests: seq<Request>) {
    forall i, j | 0 <= i < j < |requests| :: requests[i].blockIndex <= requests[j].blockIndex
  }

  lemma {:induction false} InsertKeepsContents(request: Request, sorted: seq<Request>)
    ensures multiset(InsertRequest(request, sorted)) == multiset(sorted) + multiset{request}
  {
    if sorted != [] && request.blockIndex > sorted[0].blockIndex {
      InsertKeepsContents(request, sorted[1..]);
      HeadTail(sorted);
    }
  }

  lemma {:induction false} InsertKeepsSorted(request: Request, sorted: seq<Request>)
    requires SortedByBlock(sorted)
    ensures SortedByBlock(InsertRequest(request, sorted))
  {
    if sorted != [] && request.blockIndex > sorted[0].blockIndex {
      InsertKeepsSorted(request, sorted[1..]);
      HeadIsLowest(request, sorted);
    }
  }

  lemma HeadIsLowest(request: Request, sorted: seq<Request>)
    requires sorted != [] && SortedByBlock(sorted) && request.blockIndex > sorted[0].blockIndex
    ensures forall other | other in InsertRequest(request, sorted[1..]) :: sorted[0].blockIndex <= other.blockIndex
  {
    InsertKeepsContents(request, sorted[1..]);
    forall other | other in InsertRequest(request, sorted[1..])
      ensures sorted[0].blockIndex <= other.blockIndex
    {
      assert other in multiset(InsertRequest(request, sorted[1..]));
    }
  }

  lemma {:induction false} SortRequestsSorts(requests: seq<Request>)
    ensures SortedByBlock(SortRequests(requests))
    ensures multiset(SortRequests(requests)) == multiset(requests)
  {
    if requests != [] {
      SortRequestsSorts(requests[1..]);
      InsertKeepsSorted(requests[0], SortRequests(requests[1..]));
      InsertKeepsContents(requests[0], SortRequests(requests[1..]));
      HeadTail(requests);
    }
  }

  lemma SortedAreRequests(dict: Dictionary, ordinals: seq<nat>, requests: seq<Request>)
    requires AreRequests(dict, ordinals, requests) && AllRequested(dict, ordinals, requests, |ordinals|)
    ensures AreRequests(dict, ordinals, SortRequests(requests))
    ensures AllRequested(dict, ordinals, SortRequests(requests), |ordinals|)
  {
    SortRequestsSorts(requests);
    var sorted := SortRequests(requests);
    forall j | 0 <= j < |sorted|
      ensures IsRequest(dict, ordinals, sorted[j])
    {
      assert sorted[j] in multiset(sorted);
      assert sorted[j] in requests;
    }
    forall i | 0 <= i < |ordinals| && ordinals[i] < dict.totalEntries
      ensures Requested(sorted, i)
    {
      assert Requested(requests, i);
      var request :| request in requests && request.inputIndex == i;
      assert request in multiset(requests);
      assert request in sorted;
    }
  }

  /**
   * Why failures are not promised: block 2 of this file is good, and a fresh file says so, but after block 1 was
   * asked for and failed, the remembered failure answers for block 2 as well.
   */
  method FailuresDependOnHistory(dict: Dictionary) returns (direct: Result<seq<Row>>, afterFailure: Result<seq<Row>>)
    requires dict.Valid() && |dict.keyBlocks| == 3
    requires dict.decode(0) == Err(ChecksumMismatch) && dict.CheckedBlock(2).Ok?
    ensures direct == dict.CheckedBlock(2) && direct.Ok?
    ensures afterFailure == Err(ChecksumMismatch)
  {
    var file := new MdictFile(dict);
    direct := file.DecodeKeyBlock(2);
    file := new MdictFile(dict);
    var failed := file.DecodeKeyBlock(1);
    afterFailure := file.DecodeKeyBlock(2);
  }
}
