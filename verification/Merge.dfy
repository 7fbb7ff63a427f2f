/**
 * The bounded-memory k-way merge (src/core/persistent/sort.rs): one group of runs, one pass over all groups,
 * and passes until a single sorted stream is left.
 */
module Merge {
  import opened Bytes
  import opened IndexOptions
  import opened MergePlan
  import opened RecordOrder
  import opened Runs
  import opened Scratch
  import opened Sequences
  import opened Wrappers

  // ----- the records of several runs -----

  function Flat(runs: seq<seq<Rec>>): seq<Rec> {
    if runs == [] then [] else runs[0] + Flat(runs[1..])
  }

  ghost predicate AllSorted(runs: seq<seq<Rec>>) {
    forall i | 0 <= i < |runs| :: Sorted(runs[i])
  }

  ghost predicate RunsWellFormed(runs: seq<seq<Rec>>, maximum: nat) {
    forall i | 0 <= i < |runs| :: AllWellFormed(runs[i], maximum)
  }

  lemma {:induction false} FlatConcat(a: seq<seq<Rec>>, b: seq<seq<Rec>>)
    ensures Flat(a + b) == Flat(a) + Flat(b)
  {
    if a == [] {
      NilConcat(b);
    } else {
      FlatConcat(a[1..], b);
      TailOfConcat(a, b);
      Associative(a[0], Flat(a[1..]), Flat(b));
    }
  }

  /** Taking the head of one run takes exactly that record out of the whole. */
  lemma FlatWithoutHead(runs: seq<seq<Rec>>, i: nat)
    requires i < |runs| && runs[i] != []
    ensures multiset(Flat(runs)) == multiset{runs[i][0]} + multiset(Flat(runs[i := runs[i][1..]]))
    ensures |Flat(runs)| == 1 + |Flat(runs[i := runs[i][1..]])|
  {
    var left, right := runs[..i], runs[i + 1..];
    assert runs == left + [runs[i]] + right;
    assert runs[i := runs[i][1..]] == left + [runs[i][1..]] + right;
    FlatOfThree(left, runs[i], right);
    FlatOfThree(left, runs[i][1..], right);
    assert runs[i] == [runs[i][0]] + runs[i][1..];
  }

  lemma FlatOfThree(left: seq<seq<Rec>>, middle: seq<Rec>, right: seq<seq<Rec>>)
    ensures Flat(left + [middle] + right) == Flat(left) + middle + Flat(right)
  {
    FlatConcat(left + [middle], right);
    FlatConcat(left, [middle]);
    assert [middle][1..] == [];
    assert Flat([middle]) == middle + Flat([]);
  }

  lemma {:induction false} FlatMember(runs: seq<seq<Rec>>, x: Rec) returns (i: nat, j: nat)
    requires x in Flat(runs)
    ensures i < |runs| && j < |runs[i]| && runs[i][j] == x
  {
    if x in runs[0] {
      i := 0;
      j :| 0 <= j < |runs[0]| && runs[0][j] == x;
    } else {
      i, j := FlatMember(runs[1..], x);
      i := i + 1;
    }
  }

  lemma FlatIsWellFormed(runs: seq<seq<Rec>>, maximum: nat, s: seq<Rec>)
    requires RunsWellFormed(runs, maximum) && multiset(s) == multiset(Flat(runs))
    ensures AllWellFormed(s, maximum)
  {
    forall k | 0 <= k < |s|
      ensures WellFormed(s[k], maximum)
    {
      assert s[k] in multiset(Flat(runs));
      var i, j := FlatMember(runs, s[k]);
      assert WellFormed(runs[i][j], maximum);
    }
  }

  // ----- the heap -----

  /** A run's current record and the run it came from. */
  datatype HeapRecord = HeapRecord(record: Rec, run: nat)

  /** `a` leaves the heap no later than `b`: smaller record first, then smaller run. */
  predicate PopsBefore(a: HeapRecord, b: HeapRecord) {
    if a.record == b.record then a.run <= b.run else RecLe(a.record, b.record)
  }

  /** The position of the record a pop removes. */
  function Top(heap: seq<HeapRecord>): (i: nat)
    requires heap != []
    ensures i < |heap|
  {
    if |heap| == 1 then 0
    else
      var i := 1 + Top(heap[1..]);
      if PopsBefore(heap[0], heap[i]) then 0 else i
  }

  lemma {:induction false} TopIsLeast(heap: seq<HeapRecord>, k: nat)
    requires k < |heap|
    ensures RecLe(heap[Top(heap)].record, heap[k].record)
  {
    if |heap| == 1 {
      RecLeTotal(heap[0].record, heap[0].record);
    } else {
      var i := 1 + Top(heap[1..]);
      RecLeTotal(heap[0].record, heap[i].record);
      RecLeTotal(heap[0].record, heap[0].record);
      if k > 0 {
        TopIsLeast(heap[1..], k - 1);
        if Top(heap) == 0 {
          RecLeTransitive(heap[0].record, heap[i].record, heap[k].record);
        }
      }
    }
  }

  /**
   * The heap holds the head of every unfinished run. `tails[i]` is what run `i` still has to give, its head
   * being in the heap.
   */
  ghost predicate HeapHoldsHeads(heap: seq<HeapRecord>, tails: seq<seq<Rec>>) {
    && (forall k | 0 <= k < |heap| ::
          heap[k].run < |tails| && tails[heap[k].run] != [] && heap[k].record == tails[heap[k].run][0])
    && (forall i | 0 <= i < |tails| && tails[i] != [] :: HeapRecord(tails[i][0], i) in heap)
    && (forall k, l | 0 <= k < l < |heap| :: heap[k].run != heap[l].run)
  }

  /** The popped record is no greater than anything the runs still have to give. */
  lemma TopIsLeastOfAll(heap: seq<HeapRecord>, tails: seq<seq<Rec>>, x: Rec)
    requires HeapHoldsHeads(heap, tails) && AllSorted(tails) && heap != [] && x in Flat(tails)
    ensures RecLe(heap[Top(heap)].record, x)
  {
    var i, j := FlatMember(tails, x);
    var head := HeapRecord(tails[i][0], i);
    assert head in heap;
    var k :| 0 <= k < |heap| && heap[k] == head;
    TopIsLeast(heap, k);
    RecLeTotal(x, x);
    assert Sorted(tails[i]);
    assert RecLe(tails[i][0], x);
    RecLeTransitive(heap[Top(heap)].record, tails[i][0], x);
  }

  /** A heap without its entry `k`. */
  function Without(heap: seq<HeapRecord>, k: nat): (kept: seq<HeapRecord>)
    requires k < |heap|
    ensures |kept| == |heap| - 1
    ensures forall l | 0 <= l < |kept| :: kept[l] == heap[if l < k then l else l + 1]
  {
    heap[..k] + heap[k + 1..]
  }

  /** The other runs keep their heads in the heap, and the popped run has none there. */
  lemma OthersStay(heap: seq<HeapRecord>, tails: seq<seq<Rec>>, k: nat)
    requires HeapHoldsHeads(heap, tails) && k < |heap|
    ensures forall i | 0 <= i < |tails| && tails[i] != [] && i != heap[k].run :: HeapRecord(tails[i][0], i) in Without(heap, k)
    ensures forall l | 0 <= l < |Without(heap, k)| :: Without(heap, k)[l].run != heap[k].run && Without(heap, k)[l] in heap
  {
    var kept := Without(heap, k);
    forall i | 0 <= i < |tails| && tails[i] != [] && i != heap[k].run
      ensures HeapRecord(tails[i][0], i) in kept
    {
      assert HeapRecord(tails[i][0], i) in heap;
      var l :| 0 <= l < |heap| && heap[l] == HeapRecord(tails[i][0], i);
      assert kept[if l < k then l else l - 1] == heap[l];
    }
  }

  lemma HeapAfterPop(heap: seq<HeapRecord>, tails: seq<seq<Rec>>, k: nat, next: Option<Rec>, heap': seq<HeapRecord>)
    requires HeapHoldsHeads(heap, tails) && k < |heap|
    requires var tail := tails[heap[k].run]; next == if |tail| == 1 then None else Some(tail[1])
    requires heap' == heap[..k] + heap[k + 1..] +
                      (match next case Some(r) => [HeapRecord(r, heap[k].run)] case None => [])
    ensures HeapHoldsHeads(heap', tails[heap[k].run := tails[heap[k].run][1..]])
  {
    var run, kept := heap[k].run, Without(heap, k);
    var tails' := tails[run := tails[run][1..]];
    OthersStay(heap, tails, k);
    assert heap' == if next.Some? then kept + [HeapRecord(next.value, run)] else kept;
    forall i | 0 <= i < |tails'| && tails'[i] != []
      ensures HeapRecord(tails'[i][0], i) in heap'
    {
      if i != run {
        assert HeapRecord(tails[i][0], i) in kept;
      } else {
        assert heap'[|kept|] == HeapRecord(tails'[i][0], i);
      }
    }
  }

  // ----- output -----

  /** Intermediate passes write runs; the last one writes the order section. */
  datatype MergeOutput = ToRuns(runs: BufferedScratchWriter) | ToOrder(order: SectionScratchWriter) {
    ghost predicate Valid()
      reads Footprint()
    {
      match this
      case ToRuns(w) => w.Valid()
      case ToOrder(w) => w.Valid()
    }

    ghost function Footprint(): set<object> {
      match this
      case ToRuns(w) => {w, w.file}
      case ToOrder(w) => {w, w.inner, w.inner.file}
    }

    ghost function Written(): bytes
      reads Footprint()
    {
      match this
      case ToRuns(w) => w.Written()
      case ToOrder(w) => w.Written()
    }

    method Write(input: bytes)
      requires Valid()
      modifies Footprint()
      ensures Valid() && Written() == old(Written()) + input
    {
      match this
      case ToRuns(w) => w.WriteAll(input);
      case ToOrder(w) => w.Write(input);
    }
  }

  /** What a merged record sequence looks like in the output, without a run header. */
  function Emitted(output: MergeOutput, recs: seq<Rec>): bytes {
    if output.ToOrder? then LeTable(4, Ordinals(recs)) else Body(recs)
  }

  lemma EmittedAppend(output: MergeOutput, recs: seq<Rec>, r: Rec)
    ensures Emitted(output, recs + [r]) ==
            Emitted(output, recs) + (if output.ToOrder? then Le(4, r.ordinal) else RecordBytes(r))
  {
    BodyAppend(recs, r);
    LeTableAppend(4, Ordinals(recs), r.ordinal);
    assert Ordinals(recs + [r]) == Ordinals(recs) + [r.ordinal];
  }

  /** Only runs are preceded by a header. */
  function HeaderBytes(output: MergeOutput, bodyLen: nat, rowCount: nat): bytes {
    if output.ToOrder? then [] else Le(8, bodyLen) + Le(8, rowCount)
  }

  /** The bytes one merged group contributes. */
  function GroupBytes(output: MergeOutput, group: seq<seq<Rec>>): bytes {
    var merged := SortRecs(Flat(group));
    if output.ToOrder? then LeTable(4, Ordinals(merged)) else RunBytes(merged)
  }

  lemma GroupBytesAreHeaderAndRecords(output: MergeOutput, group: seq<seq<Rec>>)
    ensures GroupBytes(output, group) ==
            HeaderBytes(output, |Body(Flat(group))|, |Flat(group)|) + Emitted(output, SortRecs(Flat(group)))
  {
    var merged := SortRecs(Flat(group));
    SortRecsSorts(Flat(group));
    BodyLengthIsConserved(merged, Flat(group));
    NilConcat(Emitted(output, merged));
  }

  // ----- one group -----

  ghost predicate Distinct(cursors: seq<RunCursor>) {
    forall i, j | 0 <= i < j < |cursors| :: cursors[i] != cursors[j]
  }

  /** Every cursor stands before exactly the records `rests` has for its run. */
  ghost predicate CursorsHold(data: bytes, cursors: seq<RunCursor>, rests: seq<seq<Rec>>)
    reads cursors
  {
    && |cursors| == |rests|
    && Distinct(cursors)
    && forall i | 0 <= i < |cursors| :: cursors[i].Holds(data, rests[i])
  }

  function Behind(tail: seq<Rec>): seq<Rec> {
    if tail == [] then [] else tail[1..]
  }

  /** What the cursors hold once every run's head is in the heap. */
  function AllBehind(tails: seq<seq<Rec>>): (r: seq<seq<Rec>>)
    ensures |r| == |tails|
    ensures forall i | 0 <= i < |tails| :: r[i] == Behind(tails[i])
  {
    seq(|tails|, i requires 0 <= i < |tails| => Behind(tails[i]))
  }

  /** Reads one record from cursor `i`; no other cursor moves. */
  method StepCursor(input: File, cursors: seq<RunCursor>, i: nat, maximum: nat, ghost rests: seq<seq<Rec>>)
    returns (next: Option<Rec>)
    requires CursorsHold(input.contents, cursors, rests) && i < |cursors|
    requires |input.contents| <= U64_MAX && AllWellFormed(rests[i], maximum)
    modifies cursors, input`position
    ensures next == if rests[i] == [] then None else Some(rests[i][0])
    ensures CursorsHold(input.contents, cursors, rests[i := Behind(rests[i])])
  {
    next := NextOf(input, cursors[i], maximum, rests[i]);
  }

  function GroupBodyLength(group: seq<seq<Rec>>): nat {
    if group == [] then 0 else |Body(group[0])| + GroupBodyLength(group[1..])
  }

  lemma {:induction false} GroupBodyLengthIsBodyOfFlat(group: seq<seq<Rec>>)
    ensures GroupBodyLength(group) == |Body(Flat(group))|
  {
    if group != [] {
      GroupBodyLengthIsBodyOfFlat(group[1..]);
      BodyConcat(group[0], Flat(group[1..]));
    }
  }

  /** A run's header reads back its body length and row count. */
  lemma RunReadsBack(data: bytes, offset: nat, run: seq<Rec>, rest: bytes)
    requires offset <= |data| <= U64_MAX && data[offset..] == RunBytes(run) + rest
    ensures var end := offset + 16 + |Body(run)|;
            && end <= |data|
            && FromLe(data[offset..offset + 8]) == |Body(run)|
            && FromLe(data[offset + 8..offset + 16]) == |run|
            && data[offset + 16..end] == Body(run)
            && data[end..] == rest
  {
    assert data[offset..|data|] == data[offset..];
    assert |data[offset..]| == 16 + |Body(run)| + |rest|;
    RowsFitBody(run);
    Ranges();
    LeRoundTrip(8, |Body(run)|);
    LeRoundTrip(8, |run|);
    Pieces(Le(8, |Body(run)|), Le(8, |run|), Body(run), rest);
    SliceOfSlice(data, offset, |data|, 0, 8);
    SliceOfSlice(data, offset, |data|, 8, 16);
    SliceOfSlice(data, offset, |data|, 16, 16 + |Body(run)|);
    SliceOfSlice(data, offset, |data|, 16 + |Body(run)|, |data| - offset);
  }

  /** The run `i` of the group starts at `offset`. */
  ghost predicate RunsFrom(data: bytes, offset: nat, group: seq<seq<Rec>>, i: nat, rest: bytes) {
    i <= |group| && offset <= |data| && data[offset..] == RunsBytes(group[i..]) + rest
  }

  /** Opens the run at `offset`. */
  method OpenCursor(input: File, offset: nat, readBuffer: nat, ghost group: seq<seq<Rec>>, ghost i: nat, ghost rest: bytes)
    returns (r: Result<(RunCursor, nat)>)
    requires i < |group| && 0 < readBuffer && |input.contents| <= U64_MAX
    requires RunsFrom(input.contents, offset, group, i, rest)
    modifies input`position
    ensures r.Ok? && fresh(r.value.0) && r.value.0.Holds(input.contents, group[i])
    ensures r.value.0.bodyLen == |Body(group[i])| && r.value.1 == offset + |RunBytes(group[i])|
    ensures RunsFrom(input.contents, r.value.1, group, i + 1, rest)
  {
    assert group[i..][1..] == group[i + 1..];
    assert RunsBytes(group[i..]) + rest == RunBytes(group[i]) + (RunsBytes(group[i + 1..]) + rest);
    RunReadsBack(input.contents, offset, group[i], RunsBytes(group[i + 1..]) + rest);
    r := ReadRunHeader(input, offset, readBuffer);
  }

  lemma TotalsStep(group: seq<seq<Rec>>, i: nat)
    requires i < |group|
    ensures group[..i + 1] == group[..i] + [group[i]]
    ensures GroupBodyLength(group[..i + 1]) == GroupBodyLength(group[..i]) + |Body(group[i])|
    ensures |Flat(group[..i + 1])| == |Flat(group[..i])| + |group[i]|
  {
    assert group[..i + 1] == group[..i] + [group[i]];
    LengthsOfAppended(group[..i], group[i]);
  }

  lemma {:induction false} LengthsOfAppended(group: seq<seq<Rec>>, run: seq<Rec>)
    ensures GroupBodyLength(group + [run]) == GroupBodyLength(group) + |Body(run)|
    ensures |Flat(group + [run])| == |Flat(group)| + |run|
  {
    if group == [] {
      assert group + [run] == [run] && [run][1..] == [];
    } else {
      LengthsOfAppended(group[1..], run);
      assert (group + [run])[0] == group[0] && (group + [run])[1..] == group[1..] + [run];
    }
  }

  /** The prefixes of a group that fits the file fit it too. */
  lemma PrefixFitsFile(group: seq<seq<Rec>>, i: nat, data: bytes, offset: nat, rest: bytes)
    requires i <= |group| && RunsFrom(data, offset, group, 0, rest)
    ensures GroupBodyLength(group[..i]) <= |data| && |Flat(group[..i])| <= |data|
  {
    assert group[0..] == group;
    GroupFitsRuns(group[..i]);
    GroupFitsRuns(group);
    assert group == group[..i] + group[i..];
    RunsBytesConcat(group[..i], group[i..]);
  }

  lemma {:induction false} RunsBytesConcat(a: seq<seq<Rec>>, b: seq<seq<Rec>>)
    ensures RunsBytes(a + b) == RunsBytes(a) + RunsBytes(b)
  {
    if a == [] {
      NilConcat(b);
    } else {
      RunsBytesConcat(a[1..], b);
      TailOfConcat(a, b);
      Associative(RunBytes(a[0]), RunsBytes(a[1..]), RunsBytes(b));
    }
  }

  lemma CursorsExtended(data: bytes, cursors: seq<RunCursor>, rests: seq<seq<Rec>>, c: RunCursor, rest: seq<Rec>)
    requires CursorsHold(data, cursors, rests) && c.Holds(data, rest) && c !in cursors
    ensures CursorsHold(data, cursors + [c], rests + [rest])
  {
  }

  /** Opens the runs of a group and totals their headers. */
  method OpenCursors(input: File, offset: nat, groupLen: nat, readBuffer: nat,
                     ghost group: seq<seq<Rec>>, ghost rest: bytes)
    returns (r: Result<(seq<RunCursor>, nat, nat, nat)>)
    requires |group| == groupLen && 0 < readBuffer && |input.contents| <= U64_MAX
    requires RunsFrom(input.contents, offset, group, 0, rest)
    modifies input`position
    ensures r.Ok?
    ensures var (cursors, bodyLen, rowCount, next) := r.value;
            && CursorsHold(input.contents, cursors, group) && fresh(cursors)
            && bodyLen == |Body(Flat(group))| && rowCount == |Flat(group)|
            && RunsFrom(input.contents, next, group, groupLen, rest)
  {
    var cursors: seq<RunCursor> := [];
    var bodyLen: nat, rowCount: nat, next: nat := 0, 0, offset;
    for i := 0 to groupLen
      invariant CursorsHold(input.contents, cursors, group[..i]) && fresh(cursors)
      invariant RunsFrom(input.contents, next, group, i, rest)
      invariant bodyLen == GroupBodyLength(group[..i]) && rowCount == |Flat(group[..i])|
    {
      TotalsStep(group, i);
      PrefixFitsFile(group, i + 1, input.contents, offset, rest);
      var header := OpenCursor(input, next, readBuffer, group, i, rest);
      var (cursor, after) := header.value;
      next := after;
      bodyLen := bodyLen + cursor.bodyLen;
      rowCount := rowCount + cursor.remaining;
      if bodyLen > U64_MAX || rowCount > U64_MAX {
        return Err(InvalidFormat);
      }
      CursorsExtended(input.contents, cursors, group[..i], cursor, group[i]);
      cursors := cursors + [cursor];
    }
    assert group[..groupLen] == group;
    GroupBodyLengthIsBodyOfFlat(group);
    return Ok((cursors, bodyLen, rowCount, next));
  }

  lemma {:induction false} GroupFitsRuns(group: seq<seq<Rec>>)
    ensures GroupBodyLength(group) + 16 * |group| == |RunsBytes(group)|
    ensures 12 * |Flat(group)| <= GroupBodyLength(group)
  {
    if group != [] {
      GroupFitsRuns(group[1..]);
      RowsFitBody(group[0]);
    }
  }

  lemma HeapAfterPush(heap: seq<HeapRecord>, tails: seq<seq<Rec>>, tail: seq<Rec>)
    requires HeapHoldsHeads(heap, tails)
    ensures HeapHoldsHeads(if tail == [] then heap else heap + [HeapRecord(tail[0], |tails|)], tails + [tail])
  {
    var heap' := if tail == [] then heap else heap + [HeapRecord(tail[0], |tails|)];
    var tails' := tails + [tail];
    forall i | 0 <= i < |tails'| && tails'[i] != []
      ensures HeapRecord(tails'[i][0], i) in heap'
    {
      if i < |tails| {
        assert HeapRecord(tails[i][0], i) in heap;
      } else {
        assert heap'[|heap|] == HeapRecord(tail[0], i);
      }
    }
  }

  /** What the cursors hold once the heads of the first `i` runs are in the heap. */
  function Halfway(group: seq<seq<Rec>>, i: nat): (r: seq<seq<Rec>>)
    requires i <= |group|
    ensures |r| == |group|
    ensures forall k | 0 <= k < |group| :: r[k] == if k < i then Behind(group[k]) else group[k]
  {
    AllBehind(group[..i]) + group[i..]
  }

  lemma HalfwayStep(group: seq<seq<Rec>>, i: nat)
    requires i < |group|
    ensures Halfway(group, i)[i] == group[i]
    ensures Halfway(group, i + 1) == Halfway(group, i)[i := Behind(group[i])]
    ensures group[..i + 1] == group[..i] + [group[i]]
  {
  }

  lemma HalfwayEnds(group: seq<seq<Rec>>)
    ensures Halfway(group, 0) == group && Halfway(group, |group|) == AllBehind(group) && group[..|group|] == group
  {
  }

  /** Puts the head of every non-empty run into the heap. */
  method FillHeap(input: File, cursors: seq<RunCursor>, maximum: nat, ghost group: seq<seq<Rec>>)
    returns (heap: seq<HeapRecord>)
    requires CursorsHold(input.contents, cursors, group) && RunsWellFormed(group, maximum)
    requires |input.contents| <= U64_MAX
    modifies cursors, input`position
    ensures HeapHoldsHeads(heap, group) && CursorsHold(input.contents, cursors, AllBehind(group))
  {
    heap := [];
    HalfwayEnds(group);
    for i := 0 to |cursors|
      invariant CursorsHold(input.contents, cursors, Halfway(group, i))
      invariant HeapHoldsHeads(heap, group[..i])
    {
      heap := PushHead(input, cursors, i, maximum, heap, group);
    }
  }

  /** Puts the head of run `i` into the heap, if it has one. */
  method PushHead(input: File, cursors: seq<RunCursor>, i: nat, maximum: nat, heap: seq<HeapRecord>, ghost group: seq<seq<Rec>>)
    returns (pushed: seq<HeapRecord>)
    requires i < |cursors| == |group| && CursorsHold(input.contents, cursors, Halfway(group, i))
    requires RunsWellFormed(group, maximum) && |input.contents| <= U64_MAX && HeapHoldsHeads(heap, group[..i])
    modifies cursors, input`position
    ensures HeapHoldsHeads(pushed, group[..i + 1]) && CursorsHold(input.contents, cursors, Halfway(group, i + 1))
  {
    HalfwayStep(group, i);
    HeapAfterPush(heap, group[..i], group[i]);
    assert AllWellFormed(group[i], maximum);
    var record := StepCursor(input, cursors, i, maximum, Halfway(group, i));
    pushed := if record.Some? then heap + [HeapRecord(record.value, i)] else heap;
  }

  /** What is known between two pops. */
  ghost predicate Merging(group: seq<seq<Rec>>, tails: seq<seq<Rec>>, out: seq<Rec>) {
    && |tails| == |group|
    && AllSorted(tails)
    && Sorted(out)
    && multiset(out) + multiset(Flat(tails)) == multiset(Flat(group))
    && (forall k, x | 0 <= k < |out| && x in Flat(tails) :: RecLe(out[k], x))
  }

  /** Nothing the runs still have to give is below the popped record. */
  lemma NothingBelowTop(heap: seq<HeapRecord>, tails: seq<seq<Rec>>, tails': seq<seq<Rec>>)
    requires HeapHoldsHeads(heap, tails) && AllSorted(tails) && heap != []
    requires multiset(Flat(tails)) == multiset{heap[Top(heap)].record} + multiset(Flat(tails'))
    ensures heap[Top(heap)].record in Flat(tails)
    ensures forall x | x in Flat(tails') :: x in Flat(tails) && RecLe(heap[Top(heap)].record, x)
  {
    assert heap[Top(heap)].record in multiset(Flat(tails));
    forall x | x in Flat(tails')
      ensures x in Flat(tails) && RecLe(heap[Top(heap)].record, x)
    {
      assert x in multiset(Flat(tails'));
      assert x in multiset(Flat(tails));
      TopIsLeastOfAll(heap, tails, x);
    }
  }

  lemma SortedAppend(s: seq<Rec>, x: Rec)
    requires Sorted(s) && forall k | 0 <= k < |s| :: RecLe(s[k], x)
    ensures Sorted(s + [x])
  {
  }

  lemma SortedTails(tails: seq<seq<Rec>>, i: nat)
    requires AllSorted(tails) && i < |tails| && tails[i] != []
    ensures AllSorted(tails[i := tails[i][1..]])
  {
    assert Sorted(tails[i]);
    assert Sorted(tails[i][1..]);
  }

  /** Popping moves the least remaining record to the end of the output. */
  lemma MergingStep(group: seq<seq<Rec>>, tails: seq<seq<Rec>>, out: seq<Rec>, heap: seq<HeapRecord>)
    requires Merging(group, tails, out) && HeapHoldsHeads(heap, tails) && heap != []
    ensures var top := heap[Top(heap)];
            Merging(group, tails[top.run := tails[top.run][1..]], out + [top.record])
  {
    var top := heap[Top(heap)];
    var tails' := tails[top.run := tails[top.run][1..]];
    FlatWithoutHead(tails, top.run);
    NothingBelowTop(heap, tails, tails');
    SortedAppend(out, top.record);
    SortedTails(tails, top.run);
    MultisetOfConcat(out, [top.record]);
  }

  lemma MergingDone(group: seq<seq<Rec>>, tails: seq<seq<Rec>>, out: seq<Rec>)
    requires Merging(group, tails, out) && HeapHoldsHeads([], tails)
    ensures out == SortRecs(Flat(group))
  {
    if Flat(tails) != [] {
      var i, j := FlatMember(tails, Flat(tails)[0]);
      assert false;
    }
    assert multiset(Flat(tails)) == multiset{};
    SortOfIsSortRecs(out, Flat(group));
  }

  /** The state of a merge between two pops, apart from the cursors. */
  ghost predicate MergeState(heap: seq<HeapRecord>, group: seq<seq<Rec>>, tails: seq<seq<Rec>>, out: seq<Rec>,
                             maximum: nat)
  {
    Merging(group, tails, out) && RunsWellFormed(tails, maximum) && HeapHoldsHeads(heap, tails)
  }

  /** Pops one record and refills the heap from the run it came from. */
  method PopStep(input: File, cursors: seq<RunCursor>, heap: seq<HeapRecord>, maximum: nat,
                 ghost group: seq<seq<Rec>>, ghost tails: seq<seq<Rec>>, ghost out: seq<Rec>)
    returns (record: Rec, heap': seq<HeapRecord>, ghost tails': seq<seq<Rec>>)
    requires heap != [] && MergeState(heap, group, tails, out, maximum)
    requires CursorsHold(input.contents, cursors, AllBehind(tails))
    requires |input.contents| <= U64_MAX
    modifies cursors, input`position
    ensures MergeState(heap', group, tails', out + [record], maximum)
    ensures CursorsHold(input.contents, cursors, AllBehind(tails'))
    ensures |Flat(tails)| == 1 + |Flat(tails')|
  {
    var top := Top(heap);
    var item := heap[top];
    record := item.record;
    MergingStep(group, tails, out, heap);
    FlatWithoutHead(tails, item.run);
    tails' := tails[item.run := tails[item.run][1..]];
    assert AllWellFormed(tails[item.run], maximum);
    var next := StepCursor(input, cursors, item.run, maximum, AllBehind(tails));
    assert AllBehind(tails') == AllBehind(tails)[item.run := Behind(AllBehind(tails)[item.run])];
    heap' := heap[..top] + heap[top + 1..] +
             (match next case Some(record) => [HeapRecord(record, item.run)] case None => []);
    HeapAfterPop(heap, tails, top, next, heap');
  }

  /** Writes one merged record. */
  method WriteMerged(output: MergeOutput, record: Rec, ghost start: bytes, ghost out: seq<Rec>)
    requires output.Valid() && output.Written() == start + Emitted(output, out)
    modifies output.Footprint()
    ensures output.Valid() && output.Written() == start + Emitted(output, out + [record])
  {
    EmittedAppend(output, out, record);
    var piece := if output.ToOrder? then Le(4, record.ordinal) else RecordBytes(record);
    Associative(start, Emitted(output, out), piece);
    output.Write(piece);
  }

  /** The objects of the input side and of the output side are different. */
  ghost predicate Apart(input: File, cursors: seq<RunCursor>, output: MergeOutput) {
    input !in output.Footprint() && forall c | c in cursors :: c !in output.Footprint()
  }

  /** Pops one record and writes it. */
  method MergeOne(input: File, cursors: seq<RunCursor>, heap: seq<HeapRecord>, maximum: nat, output: MergeOutput,
                  ghost group: seq<seq<Rec>>, ghost tails: seq<seq<Rec>>, ghost out: seq<Rec>, ghost start: bytes)
    returns (heap': seq<HeapRecord>, ghost tails': seq<seq<Rec>>, ghost out': seq<Rec>)
    requires heap != [] && MergeState(heap, group, tails, out, maximum)
    requires CursorsHold(input.contents, cursors, AllBehind(tails))
    requires |input.contents| <= U64_MAX && Apart(input, cursors, output)
    requires output.Valid() && output.Written() == start + Emitted(output, out)
    modifies cursors, input`position, output.Footprint()
    ensures input.contents == old(input.contents)
    ensures MergeState(heap', group, tails', out', maximum)
    ensures CursorsHold(input.contents, cursors, AllBehind(tails'))
    ensures output.Valid() && output.Written() == start + Emitted(output, out')
    ensures |Flat(tails)| == 1 + |Flat(tails')| && |out'| == |out| + 1
  {
    var record;
    record, heap', tails' := PopStep(input, cursors, heap, maximum, group, tails, out);
    out' := out + [record];
    WriteApart(input, cursors, output, record, start, out, AllBehind(tails'));
  }

  /** Writes one merged record; the cursors stay where they are. */
  method WriteApart(input: File, cursors: seq<RunCursor>, output: MergeOutput, record: Rec,
                    ghost start: bytes, ghost out: seq<Rec>, ghost rests: seq<seq<Rec>>)
    requires Apart(input, cursors, output) && CursorsHold(input.contents, cursors, rests)
    requires output.Valid() && output.Written() == start + Emitted(output, out)
    modifies output.Footprint()
    ensures input.contents == old(input.contents) && CursorsHold(input.contents, cursors, rests)
    ensures output.Valid() && output.Written() == start + Emitted(output, out + [record])
  {
    WriteMerged(output, record, start, out);
    forall i | 0 <= i < |cursors|
      ensures cursors[i].Holds(input.contents, rests[i])
    {
      assert cursors[i] in cursors;
    }
  }

  /** Pops until the heap is empty. */
  method DrainHeap(input: File, cursors: seq<RunCursor>, initial: seq<HeapRecord>, maximum: nat, output: MergeOutput,
                   ghost group: seq<seq<Rec>>)
    returns (written: nat)
    requires MergeState(initial, group, group, [], maximum)
    requires CursorsHold(input.contents, cursors, AllBehind(group))
    requires |input.contents| <= U64_MAX && Apart(input, cursors, output) && output.Valid()
    modifies cursors, input`position, output.Footprint()
    ensures input.contents == old(input.contents)
    ensures output.Valid() && written == |Flat(group)|
    ensures output.Written() == old(output.Written()) + Emitted(output, SortRecs(Flat(group)))
  {
    ghost var start := output.Written();
    ghost var tails, out: seq<Rec> := group, [];
    var heap := initial;
    written := 0;
    assert start + Emitted(output, out) == start;
    while heap != []
      invariant input.contents == old(input.contents) && written == |out|
      invariant MergeState(heap, group, tails, out, maximum)
      invariant CursorsHold(input.contents, cursors, AllBehind(tails))
      invariant output.Valid() && output.Written() == start + Emitted(output, out)
      decreases |Flat(tails)|
    {
      heap, tails, out := MergeOne(input, cursors, heap, maximum, output, group, tails, out, start);
      written := written + 1;
    }
    MergingDone(group, tails, out);
    SortRecsSorts(Flat(group));
    assert |multiset(Flat(group))| == |multiset(out)|;
  }

  /** Merges the group of runs that starts at `offset`; returns where the next group starts. */
  method MergeGroup(input: File, offset: nat, groupLen: nat, plan: Plan, maximum: nat, output: MergeOutput,
                    ghost group: seq<seq<Rec>>, ghost rest: bytes)
    returns (r: Result<nat>)
    requires |group| == groupLen <= plan.activeBuffers && 0 < plan.readBuffer && |input.contents| <= U64_MAX
    requires RunsFrom(input.contents, offset, group, 0, rest) && AllSorted(group) && RunsWellFormed(group, maximum)
    requires output.Valid() && input !in output.Footprint()
    modifies input`position, output.Footprint()
    ensures input.contents == old(input.contents) && output.Valid()
    ensures output.Written() == old(output.Written()) + GroupBytes(output, group)
    ensures r.Ok? && RunsFrom(input.contents, r.value, group, groupLen, rest)
  {
    var group' := OpenGroup(input, offset, groupLen, plan, output, group, rest);
    var (cursors, rowCount, next) := group'.value;
    var written := MergeOpened(input, cursors, maximum, output, group);
    GroupBytesAreHeaderAndRecords(output, group);
    Associative(old(output.Written()), HeaderBytes(output, |Body(Flat(group))|, |Flat(group)|),
                Emitted(output, SortRecs(Flat(group))));
    if written != rowCount {
      return Err(InvalidFormat);
    }
    return Ok(next);
  }

  /** Opens the group's runs and writes the merged run's header. */
  method OpenGroup(input: File, offset: nat, groupLen: nat, plan: Plan, output: MergeOutput,
                   ghost group: seq<seq<Rec>>, ghost rest: bytes)
    returns (r: Result<(seq<RunCursor>, nat, nat)>)
    requires |group| == groupLen && 0 < plan.readBuffer && |input.contents| <= U64_MAX
    requires RunsFrom(input.contents, offset, group, 0, rest)
    requires output.Valid() && input !in output.Footprint()
    modifies input`position, output.Footprint()
    ensures input.contents == old(input.contents) && output.Valid() && r.Ok?
    ensures var (cursors, rowCount, next) := r.value;
            && CursorsHold(input.contents, cursors, group) && fresh(cursors) && Apart(input, cursors, output)
            && rowCount == |Flat(group)| && RunsFrom(input.contents, next, group, groupLen, rest)
    ensures output.Written() == old(output.Written()) + HeaderBytes(output, |Body(Flat(group))|, |Flat(group)|)
  {
    var cursorsAndTotals := OpenCursors(input, offset, groupLen, plan.readBuffer, group, rest);
    var (cursors, bodyLen, rowCount, next) := cursorsAndTotals.value;
    assert Apart(input, cursors, output);
    WriteHeaderApart(input, cursors, output, bodyLen, rowCount, group);
    return Ok((cursors, rowCount, next));
  }

  /** Writes a run header; the cursors stay where they are. */
  method WriteHeaderApart(input: File, cursors: seq<RunCursor>, output: MergeOutput, bodyLen: nat, rowCount: nat,
                          ghost rests: seq<seq<Rec>>)
    requires Apart(input, cursors, output) && CursorsHold(input.contents, cursors, rests) && output.Valid()
    modifies output.Footprint()
    ensures input.contents == old(input.contents) && CursorsHold(input.contents, cursors, rests)
    ensures output.Valid() && output.Written() == old(output.Written()) + HeaderBytes(output, bodyLen, rowCount)
  {
    WriteHeader(output, bodyLen, rowCount);
    forall i | 0 <= i < |cursors|
      ensures cursors[i].Holds(input.contents, rests[i])
    {
      assert cursors[i] in cursors;
    }
  }

  method WriteHeader(output: MergeOutput, bodyLen: nat, rowCount: nat)
    requires output.Valid()
    modifies output.Footprint()
    ensures output.Valid() && output.Written() == old(output.Written()) + HeaderBytes(output, bodyLen, rowCount)
  {
    NilConcat(output.Written());
    if output.ToRuns? {
      Associative(output.Written(), Le(8, bodyLen), Le(8, rowCount));
      output.Write(Le(8, bodyLen));
      output.Write(Le(8, rowCount));
    }
  }

  /** Merges runs whose cursors are open. */
  method MergeOpened(input: File, cursors: seq<RunCursor>, maximum: nat, output: MergeOutput, ghost group: seq<seq<Rec>>)
    returns (written: nat)
    requires CursorsHold(input.contents, cursors, group) && AllSorted(group) && RunsWellFormed(group, maximum)
    requires |input.contents| <= U64_MAX && output.Valid() && Apart(input, cursors, output)
    modifies cursors, input`position, output.Footprint()
    ensures input.contents == old(input.contents) && output.Valid() && written == |Flat(group)|
    ensures output.Written() == old(output.Written()) + Emitted(output, SortRecs(Flat(group)))
  {
    var heap := FillHeap(input, cursors, maximum, group);
    MergeStarts(heap, group, maximum);
    written := DrainHeap(input, cursors, heap, maximum, output, group);
  }

  lemma MergeStarts(heap: seq<HeapRecord>, group: seq<seq<Rec>>, maximum: nat)
    requires HeapHoldsHeads(heap, group) && AllSorted(group) && RunsWellFormed(group, maximum)
    ensures MergeState(heap, group, group, [], maximum)
  {
  }

  // ----- one pass -----

  function Take<T>(s: seq<T>, n: nat): seq<T> {
    s[..Min(n, |s|)]
  }

  function Drop<T>(s: seq<T>, n: nat): seq<T> {
    s[Min(n, |s|)..]
  }

  /** The runs left by a pass that merges `fanIn` neighbours at a time. */
  function PassOf(runs: seq<seq<Rec>>, fanIn: nat): seq<seq<Rec>>
    requires fanIn > 0
    decreases |runs|
  {
    if runs == [] then [] else [SortRecs(Flat(Take(runs, fanIn)))] + PassOf(Drop(runs, fanIn), fanIn)
  }

  /** What a pass writes. */
  function PassBytes(output: MergeOutput, runs: seq<seq<Rec>>, fanIn: nat): bytes
    requires fanIn > 0
    decreases |runs|
  {
    if runs == [] then [] else GroupBytes(output, Take(runs, fanIn)) + PassBytes(output, Drop(runs, fanIn), fanIn)
  }

  lemma {:induction false} PassWritesRuns(output: MergeOutput, runs: seq<seq<Rec>>, fanIn: nat)
    requires fanIn > 0 && output.ToRuns?
    ensures PassBytes(output, runs, fanIn) == RunsBytes(PassOf(runs, fanIn))
    decreases |runs|
  {
    if runs != [] {
      PassWritesRuns(output, Drop(runs, fanIn), fanIn);
      var first := SortRecs(Flat(Take(runs, fanIn)));
      TailOfConcat([first], PassOf(Drop(runs, fanIn), fanIn));
    }
  }

  lemma LastPassWritesOrder(output: MergeOutput, runs: seq<seq<Rec>>, fanIn: nat)
    requires 0 < |runs| <= fanIn && output.ToOrder?
    ensures PassBytes(output, runs, fanIn) == LeTable(4, Ordinals(SortRecs(Flat(runs))))
    ensures |PassOf(runs, fanIn)| == 1
  {
    Whole(runs);
    assert PassBytes(output, [], fanIn) == [];
    NilConcat(GroupBytes(output, runs));
  }

  /**
   * A pass keeps sorted, well-formed runs, conserves the records, never lengthens the file, and leaves one run
   * for every `fanIn` it found.
   */
  lemma {:induction false} PassPreserves(runs: seq<seq<Rec>>, fanIn: nat, maximum: nat)
    requires fanIn > 0 && RunsWellFormed(runs, maximum)
    ensures AllSorted(PassOf(runs, fanIn)) && RunsWellFormed(PassOf(runs, fanIn), maximum)
    ensures multiset(Flat(PassOf(runs, fanIn))) == multiset(Flat(runs))
    ensures |RunsBytes(PassOf(runs, fanIn))| <= |RunsBytes(runs)|
    ensures |PassOf(runs, fanIn)| == Adler.ChunkCount(|runs|, fanIn)
    decreases |runs|
  {
    if runs != [] {
      var group, others := Take(runs, fanIn), Drop(runs, fanIn);
      var merged := SortRecs(Flat(group));
      var rest := PassOf(others, fanIn);
      PassPreserves(others, fanIn, maximum);
      SortRecsSorts(Flat(group));
      FlatIsWellFormed(group, maximum, merged);
      BodyLengthIsConserved(merged, Flat(group));
      GroupBodyLengthIsBodyOfFlat(group);
      SplitAt(runs, Min(fanIn, |runs|));
      RunsBytesConcat(group, others);
      GroupFitsRuns(group);
      FlatConcat(group, others);
      MultisetOfConcat(Flat(group), Flat(others));
      TailOfConcat([merged], rest);
      MultisetOfConcat(merged, Flat(rest));
    }
  }

  /** Between two groups of a pass: `left` are the runs not merged yet, `written` what the others gave. */
  ghost predicate PassState(data: bytes, offset: nat, left: seq<seq<Rec>>, fanIn: nat, maximum: nat,
                            output: MergeOutput, written: bytes, runs: seq<seq<Rec>>)
  {
    && fanIn > 0
    && RunsFrom(data, offset, left, 0, [])
    && AllSorted(left) && RunsWellFormed(left, maximum)
    && written + PassBytes(output, left, fanIn) == PassBytes(output, runs, fanIn)
  }

  lemma PassStarts(data: bytes, runs: seq<seq<Rec>>, fanIn: nat, maximum: nat, output: MergeOutput)
    requires data == RunsBytes(runs) && fanIn > 0 && AllSorted(runs) && RunsWellFormed(runs, maximum)
    ensures PassState(data, 0, runs, fanIn, maximum, output, [], runs)
  {
    Whole(data);
    Whole(runs);
    NilConcat(RunsBytes(runs));
    NilConcat(PassBytes(output, runs, fanIn));
  }

  lemma PassStep(data: bytes, offset: nat, left: seq<seq<Rec>>, fanIn: nat, maximum: nat,
                 output: MergeOutput, written: bytes, runs: seq<seq<Rec>>, next: nat)
    requires PassState(data, offset, left, fanIn, maximum, output, written, runs) && left != []
    ensures var group, others := Take(left, fanIn), Drop(left, fanIn);
            && RunsFrom(data, offset, group, 0, RunsBytes(others)) && AllSorted(group) && RunsWellFormed(group, maximum)
            && (RunsFrom(data, next, group, |group|, RunsBytes(others)) ==>
                  PassState(data, next, others, fanIn, maximum, output, written + GroupBytes(output, group), runs))
  {
    var group, others := Take(left, fanIn), Drop(left, fanIn);
    SplitRunsFrom(data, offset, left, Min(fanIn, |left|));
    Associative(written, GroupBytes(output, group), PassBytes(output, others, fanIn));
    NilConcat(RunsBytes(others));
    Whole(group);
    Whole(others);
  }

  /** Merges every group of the pass in turn; returns how many runs it leaves. */
  method MergePass(input: File, runCount: nat, plan: Plan, maximum: nat, output: MergeOutput,
                   ghost runs: seq<seq<Rec>>)
    returns (r: Result<nat>)
    requires |runs| == runCount && 0 < plan.fanIn && 0 < plan.readBuffer && Min(runCount, plan.fanIn) <= plan.activeBuffers
    requires input.contents == RunsBytes(runs) && |input.contents| <= U64_MAX
    requires AllSorted(runs) && RunsWellFormed(runs, maximum)
    requires output.Valid() && output.Written() == [] && input !in output.Footprint()
    modifies input`position, output.Footprint()
    ensures input.contents == old(input.contents) && output.Valid()
    ensures output.Written() == PassBytes(output, runs, plan.fanIn)
    ensures r == Ok(|PassOf(runs, plan.fanIn)|)
  {
    var inputOffset: nat, remainingRuns: nat, nextRunCount: nat := 0, runCount, 0;
    ghost var left := runs;
    PassStarts(input.contents, runs, plan.fanIn, maximum, output);
    while remainingRuns > 0
      invariant |left| == remainingRuns <= runCount
      invariant input.contents == old(input.contents) && output.Valid()
      invariant PassState(input.contents, inputOffset, left, plan.fanIn, maximum, output, output.Written(), runs)
      invariant nextRunCount + |PassOf(left, plan.fanIn)| == |PassOf(runs, plan.fanIn)|
    {
      var groupLen := Min(remainingRuns, plan.fanIn);
      ghost var group, others, written := Take(left, plan.fanIn), Drop(left, plan.fanIn), output.Written();
      PassStep(input.contents, inputOffset, left, plan.fanIn, maximum, output, written, runs, 0);
      var next := MergeGroup(input, inputOffset, groupLen, plan, maximum, output, group, RunsBytes(others));
      PassStep(input.contents, inputOffset, left, plan.fanIn, maximum, output, written, runs, next.value);
      inputOffset := next.value;
      remainingRuns := remainingRuns - groupLen;
      nextRunCount := nextRunCount + 1;
      left := others;
    }
    NilConcat(output.Written());
    return Ok(nextRunCount);
  }

  lemma SplitRunsFrom(data: bytes, offset: nat, runs: seq<seq<Rec>>, n: nat)
    requires n <= |runs| && RunsFrom(data, offset, runs, 0, [])
    ensures RunsFrom(data, offset, runs[..n], 0, RunsBytes(runs[n..]))
  {
    Whole(runs);
    Whole(runs[..n]);
    SplitAt(runs, n);
    RunsBytesConcat(runs[..n], runs[n..]);
    NilConcat(RunsBytes(runs));
  }

  // ----- all passes -----

  function OrderBytes(recs: seq<Rec>): bytes {
    LeTable(4, Ordinals(SortRecs(recs)))
  }

  lemma {:induction false} SortOfPermutation(a: seq<Rec>, b: seq<Rec>)
    requires multiset(a) == multiset(b)
    ensures SortRecs(a) == SortRecs(b) && |a| == |b|
  {
    SortRecsSorts(a);
    SortRecsSorts(b);
    SortedIsUnique(SortRecs(a), SortRecs(b));
    assert |multiset(a)| == |a| && |multiset(b)| == |b|;
  }

  lemma ManyRunsLeaveMany(n: nat, fanIn: nat)
    requires 2 <= fanIn < n
    ensures 1 < Adler.ChunkCount(n, fanIn) < n
  {
    FewerChunks(n - fanIn, fanIn);
  }

  lemma {:induction false} FewerChunks(n: nat, chunk: nat)
    requires chunk > 0
    ensures Adler.ChunkCount(n, chunk) <= n
    ensures n > 0 ==> Adler.ChunkCount(n, chunk) > 0
    decreases n
  {
    if n > chunk {
      FewerChunks(n - chunk, chunk);
    }
  }

  method NewOrderWriter(options: KeyIndexOptions) returns (order: SectionScratchWriter)
    requires ValidOptions(options)
    ensures order.Valid() && order.Written() == []
    ensures fresh(order) && fresh(order.inner) && fresh(order.inner.file)
    ensures order.chunkBytes == options.chunkBytes && order.policy == options.checksumPolicy
  {
    var scratch := new File();
    order := new SectionScratchWriter(scratch, ScratchWriteBufferBytes(options), options.chunkBytes,
                                      options.checksumPolicy);
  }

  /** Writes the ordinals of one run, record by record. */
  method CopyOrdinals(input: File, cursor: RunCursor, maximum: nat, order: SectionScratchWriter, ghost run: seq<Rec>)
    requires cursor.Holds(input.contents, run) && |input.contents| <= U64_MAX && AllWellFormed(run, maximum)
    requires order.Valid() && order.Written() == []
    requires {input as object, cursor} !! {order, order.inner, order.inner.file}
    modifies cursor, input`position, order, order.inner, order.inner.file
    ensures order.Valid() && order.Written() == LeTable(4, Ordinals(run))
  {
    ghost var copied := 0;
    FromStep(run, 0);
    var record := NextOf(input, cursor, maximum, run);
    while record.Some?
      invariant order.Valid() && input.contents == old(input.contents)
      invariant copied <= |run| && record == NthOf(run, copied) && cursor.Holds(input.contents, From(run, copied + 1))
      invariant order.Written() == LeTable(4, Ordinals(run[..copied]))
      decreases |run| - copied
    {
      record := CopyOne(input, cursor, maximum, order, record.value, run, copied);
      copied := copied + 1;
    }
    Whole(run);
  }

  function NthOf(run: seq<Rec>, i: nat): Option<Rec> {
    if i < |run| then Some(run[i]) else None
  }

  function From(run: seq<Rec>, i: nat): seq<Rec> {
    if i < |run| then run[i..] else []
  }

  lemma FromStep(run: seq<Rec>, i: nat)
    ensures From(run, 0) == run
    ensures i < |run| ==> From(run, i) != [] && From(run, i)[0] == run[i] && From(run, i)[1..] == From(run, i + 1)
    ensures i >= |run| ==> From(run, i) == [] && From(run, i + 1) == []
  {
    if i < |run| {
      SuffixShrinks(run, i);
    }
  }

  /** Writes one ordinal and reads the next record. */
  method CopyOne(input: File, cursor: RunCursor, maximum: nat, order: SectionScratchWriter, record: Rec,
                 ghost run: seq<Rec>, ghost copied: nat)
    returns (next: Option<Rec>)
    requires copied < |run| && record == run[copied] && AllWellFormed(run, maximum)
    requires cursor.Holds(input.contents, From(run, copied + 1)) && |input.contents| <= U64_MAX
    requires order.Valid() && order.Written() == LeTable(4, Ordinals(run[..copied]))
    requires {input as object, cursor} !! {order, order.inner, order.inner.file}
    modifies cursor, input`position, order, order.inner, order.inner.file
    ensures order.Valid() && order.Written() == LeTable(4, Ordinals(run[..copied + 1]))
    ensures next == NthOf(run, copied + 1) && cursor.Holds(input.contents, From(run, copied + 2))
  {
    OrdinalsGrow(run, copied);
    order.Write(Le(4, record.ordinal));
    FromStep(run, copied + 1);
    next := NextOf(input, cursor, maximum, From(run, copied + 1));
  }

  lemma OrdinalsGrow(run: seq<Rec>, i: nat)
    requires i < |run|
    ensures LeTable(4, Ordinals(run[..i + 1])) == LeTable(4, Ordinals(run[..i])) + Le(4, run[i].ordinal)
  {
    LeTableAppend(4, Ordinals(run[..i]), run[i].ordinal);
    assert Ordinals(run[..i + 1]) == Ordinals(run[..i]) + [run[i].ordinal];
  }

  lemma SingleRun(run: seq<Rec>)
    requires Sorted(run)
    ensures OrderBytes(run) == LeTable(4, Ordinals(run)) && Flat([run]) == run && RunsBytes([run]) == RunBytes(run)
  {
    SortOfIsSortRecs(run, run);
    NilConcat(run);
    NilConcat(RunBytes(run));
    assert [run][1..] == [];
    assert Flat([run]) == run + Flat([]) && RunsBytes([run]) == RunBytes(run) + RunsBytes([]);
  }

  /** Writes the order of a single sorted run without merging anything. */
  method CopySingleRun(input: File, expectedRows: nat, readBuffer: nat, options: KeyIndexOptions, ghost run: seq<Rec>)
    returns (r: Result<SectionFile>)
    requires 0 < readBuffer && ValidOptions(options)
    requires input.contents == RunsBytes([run]) && |input.contents| <= U64_MAX
    requires Sorted(run) && AllWellFormed(run, options.buildMemoryBytes)
    modifies input`position
    ensures r.Ok? <==> expectedRows == |run|
    ensures r.Err? ==> r.error == InvalidFormat
    ensures r.Ok? ==> fresh(r.value.file) &&
                      HoldsSection(r.value, OrderBytes(run), options.chunkBytes, options.checksumPolicy)
  {
    SingleRun(run);
    Whole(input.contents);
    NilConcat(RunsBytes([run]));
    var header := OpenCursor(input, 0, readBuffer, [run], 0, []);
    var (cursor, next) := header.value;
    if next != |input.contents| || cursor.remaining != expectedRows {
      return Err(InvalidFormat);
    }
    r := CopyCursor(input, cursor, expectedRows, options, run);
  }

  /** Writes the order section from the cursor of a sorted run. */
  method CopyCursor(input: File, cursor: RunCursor, expectedRows: nat, options: KeyIndexOptions, ghost run: seq<Rec>)
    returns (r: Result<SectionFile>)
    requires ValidOptions(options) && cursor.Holds(input.contents, run) && |input.contents| <= U64_MAX
    requires Sorted(run) && AllWellFormed(run, options.buildMemoryBytes) && expectedRows == |run|
    modifies cursor, input`position
    ensures r.Ok? && fresh(r.value.file)
    ensures HoldsSection(r.value, OrderBytes(run), options.chunkBytes, options.checksumPolicy)
  {
    SingleRun(run);
    var order := NewOrderWriter(options);
    CopyOrdinals(input, cursor, options.buildMemoryBytes, order, run);
    var section := order.IntoSection();
    if section.len != expectedRows * 4 {
      return Err(InvalidFormat);
    }
    return Ok(section);
  }

  /** The last pass: at most `fanIn` runs, merged straight into the order section. */
  method FinalPass(input: File, runCount: nat, plan: Plan, expectedRows: nat, options: KeyIndexOptions,
                   ghost runs: seq<seq<Rec>>)
    returns (r: Result<SectionFile>)
    requires ValidOptions(options) && 0 < |runs| == runCount <= Min(plan.fanIn, plan.activeBuffers) && 0 < plan.readBuffer
    requires input.contents == RunsBytes(runs) && |input.contents| <= U64_MAX
    requires AllSorted(runs) && RunsWellFormed(runs, options.buildMemoryBytes)
    modifies input`position
    ensures r.Ok? <==> expectedRows == |Flat(runs)|
    ensures r.Ok? ==> fresh(r.value.file) &&
                      HoldsSection(r.value, OrderBytes(Flat(runs)), options.chunkBytes, options.checksumPolicy)
  {
    var order := NewOrderWriter(options);
    var output := ToOrder(order);
    var nextRunCount := MergePass(input, runCount, plan, options.buildMemoryBytes, output, runs);
    LastPassWritesOrder(output, runs, plan.fanIn);
    SortOfPermutation(Flat(runs), Flat(runs));
    SortedLength(Flat(runs));
    var section := order.IntoSection();
    if nextRunCount.value != 1 || section.len != expectedRows * 4 {
      return Err(InvalidFormat);
    }
    return Ok(section);
  }

  lemma SortedLength(s: seq<Rec>)
    ensures |SortRecs(s)| == |s| && |OrderBytes(s)| == 4 * |s|
  {
    SortRecsSorts(s);
    assert |multiset(SortRecs(s))| == |multiset(s)|;
  }

  /** An earlier pass: the runs become fewer, longer runs on a new scratch file. */
  method IntermediatePass(input: File, runCount: nat, plan: Plan, options: KeyIndexOptions, ghost runs: seq<seq<Rec>>)
    returns (next: File, nextRunCount: nat)
    requires ValidOptions(options) && |runs| == runCount && 0 < plan.fanIn <= plan.activeBuffers && 0 < plan.readBuffer
    requires input.contents == RunsBytes(runs) && |input.contents| <= U64_MAX
    requires AllSorted(runs) && RunsWellFormed(runs, options.buildMemoryBytes)
    modifies input`position
    ensures fresh(next) && next.contents == RunsBytes(PassOf(runs, plan.fanIn))
    ensures nextRunCount == |PassOf(runs, plan.fanIn)|
  {
    var scratch := new File();
    var writer := new BufferedScratchWriter(scratch, ScratchWriteBufferBytes(options));
    var output := ToRuns(writer);
    var count := MergePass(input, runCount, plan, options.buildMemoryBytes, output, runs);
    PassWritesRuns(output, runs, plan.fanIn);
    next := writer.IntoFile();
    nextRunCount := count.value;
  }

  /** What every pass keeps: the file is exactly `runCount` sorted runs holding the records it started with. */
  ghost predicate RunsFile(data: bytes, runs: seq<seq<Rec>>, runCount: nat, initial: seq<seq<Rec>>, maximum: nat) {
    && |runs| == runCount
    && data == RunsBytes(runs) && |data| <= U64_MAX
    && AllSorted(runs) && RunsWellFormed(runs, maximum)
    && multiset(Flat(runs)) == multiset(Flat(initial))
  }

  lemma PassKeepsRunsFile(data: bytes, runs: seq<seq<Rec>>, runCount: nat, initial: seq<seq<Rec>>, maximum: nat, fanIn: nat)
    requires RunsFile(data, runs, runCount, initial, maximum) && 2 <= fanIn < runCount
    ensures var next := PassOf(runs, fanIn);
            && RunsFile(RunsBytes(next), next, |next|, initial, maximum)
            && 1 < |next| == Adler.ChunkCount(runCount, fanIn) < runCount
  {
    PassPreserves(runs, fanIn, maximum);
    ManyRunsLeaveMany(runCount, fanIn);
  }

  /**
   * Merges the sorted runs of a scratch file, pass by pass, into the order section. It succeeds exactly when the
   * rows are as many as announced and the memory plan admits the merge.
   */
  method MergeRuns(runsFile: File, initialRunCount: nat, expectedRows: nat, maximumRecordBytes: nat,
                   options: KeyIndexOptions, ghost initial: seq<seq<Rec>>)
    returns (r: Result<SectionFile>)
    requires ValidOptions(options)
    requires RunsFile(runsFile.contents, initial, initialRunCount, initial, options.buildMemoryBytes)
    modifies runsFile`position
    ensures r.Ok? <==>
              && expectedRows == |Flat(initial)|
              && (initialRunCount == 0 || MakePlan(initialRunCount, maximumRecordBytes, options).Ok?)
    ensures initialRunCount > 0 && MakePlan(initialRunCount, maximumRecordBytes, options).Err? ==>
              r == Err(MakePlan(initialRunCount, maximumRecordBytes, options).error)
    ensures r.Ok? ==> fresh(r.value.file) &&
                      HoldsSection(r.value, OrderBytes(Flat(initial)), options.chunkBytes, options.checksumPolicy)
  {
    if initialRunCount == 0 {
      if expectedRows != 0 {
        return Err(InvalidFormat);
      }
      var empty := NewOrderWriter(options);
      var section := empty.IntoSection();
      return Ok(section);
    }
    var plan :- MakePlan(initialRunCount, maximumRecordBytes, options);
    var input, runCount := runsFile, initialRunCount;
    ghost var runs := initial;
    while runCount > 1
      invariant 1 <= runCount <= initialRunCount
      invariant input == runsFile || fresh(input)
      invariant RunsFile(input.contents, runs, runCount, initial, options.buildMemoryBytes)
      decreases runCount
    {
      if runCount <= plan.fanIn {
        SortOfPermutation(Flat(runs), Flat(initial));
        r := FinalPass(input, runCount, plan, expectedRows, options, runs);
        return;
      }
      PassKeepsRunsFile(input.contents, runs, runCount, initial, options.buildMemoryBytes, plan.fanIn);
      input, runCount := IntermediatePass(input, runCount, plan, options, runs);
      runs := PassOf(runs, plan.fanIn);
    }
    assert runs == [runs[0]];
    SingleRun(runs[0]);
    SortOfPermutation(Flat(runs), Flat(initial));
    r := CopySingleRun(input, expectedRows, plan.readBuffer, options, runs[0]);
  }
}
