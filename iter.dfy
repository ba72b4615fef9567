/**
 * The merge iterator of the push engine (`SortedIterator` of src/iter.rs).
 *
 * It either drains an in-memory pass-through queue, or merges the segment
 * files by keeping one decoded head per segment and repeatedly yielding the
 * smallest head (the first one among equals). The pure functions below give
 * the meaning of construction and of one `next` call; the class and the
 * method `New` are the imperative code, proved to follow them.
 */
module Iter {
  import opened Compare
  import opened Io

  /** The state of a `SortedIterator` as a value. */
  datatype IterState<T> = IterState(
    tempdir: Option<TempDir>,
    passThrough: Option<seq<T>>,
    files: seq<SegmentFile<T>>,
    cursors: seq<nat>,
    heads: seq<Option<T>>,
    count: nat)

  /** One cursor and one cached head per segment file. */
  ghost predicate WellFormed<T>(st: IterState<T>) {
    |st.cursors| == |st.files| && |st.heads| == |st.files|
  }

  /** The result of one `next` call and the state it leaves. */
  datatype Step<T> = Step(out: Option<Result<T>>, next: IterState<T>)

  /**
   * The scan of `next`: from position `i` on, with `best` the index of the
   * smallest live head seen so far, a head replaces the best one only when it
   * compares strictly `Less`.
   */
  function ScanMin<T>(cmp: (T, T) -> Ordering, heads: seq<Option<T>>, i: nat, best: Option<nat>): (r: Option<nat>)
    requires i <= |heads|
    requires best.Some? ==> best.value < |heads| && heads[best.value].Some?
    ensures r.Some? ==> r.value < |heads| && heads[r.value].Some?
    ensures r.None? <==> best.None? && forall j :: i <= j < |heads| ==> heads[j].None?
    ensures best.Some? && r.Some? && r.value != best.value ==> i <= r.value
    decreases |heads| - i
  {
    if i == |heads| then best
    else if heads[i].None? then ScanMin(cmp, heads, i + 1, best)
    else if best.None? || cmp(heads[i].value, heads[best.value].value) == Less then ScanMin(cmp, heads, i + 1, Some(i))
    else ScanMin(cmp, heads, i + 1, best)
  }

  /** The index of the segment whose head `next` yields, if any head is live. */
  function SelectMin<T>(cmp: (T, T) -> Ordering, heads: seq<Option<T>>): (r: Option<nat>)
    ensures r.Some? ==> r.value < |heads| && heads[r.value].Some?
    ensures r.None? <==> forall j :: 0 <= j < |heads| ==> heads[j].None?
  {
    ScanMin(cmp, heads, 0, None)
  }

  /** One call of `next`. */
  function NextStep<T>(cmp: (T, T) -> Ordering, st: IterState<T>): (s: Step<T>)
    requires WellFormed(st)
    ensures WellFormed(s.next)
    ensures s.next.files == st.files && s.next.count == st.count && s.next.tempdir == st.tempdir
    ensures s.out.None? ==> s.next == st
  {
    if st.passThrough.Some? then
      var q := st.passThrough.value;
      if |q| == 0 then Step(None, st)
      else Step(Some(Ok(q[0])), st.(passThrough := Some(q[1..])))
    else
      match SelectMin(cmp, st.heads)
      case None => Step(None, st)
      case Some(k) =>
        var v := st.heads[k].value;
        match DecodeAt(st.files[k], st.cursors[k])
        case Item(w) =>
          Step(Some(Ok(v)), st.(heads := st.heads[k := Some(w)], cursors := st.cursors[k := st.cursors[k] + 1]))
        case DecodeError(e) =>
          if e == UnexpectedEof then Step(Some(Ok(v)), st.(heads := st.heads[k := None]))
          else Step(Some(Err(e)), st.(heads := st.heads[k := None]))
  }

  /** The state of the corrected iterator: the iterator's state, and a decode error still to be reported. */
  datatype FixedState<T> = FixedState(st: IterState<T>, pending: Option<IoError>)

  /** The result of one corrected `next` call and the state it leaves. */
  datatype FixedStep<T> = FixedStep(out: Option<Result<T>>, next: FixedState<T>)

  /**
   * `next` as evidently intended: when decoding the record after the
   * selected head fails with anything but a clean end of file, the head
   * already taken is yielded, and the error is reported by the following
   * call; everything else is as in `NextStep`.
   */
  function NextStepFixed<T>(cmp: (T, T) -> Ordering, fs: FixedState<T>): (s: FixedStep<T>)
    requires WellFormed(fs.st)
    ensures WellFormed(s.next.st)
    ensures s.next.st.files == fs.st.files && s.next.st.count == fs.st.count
  {
    if fs.pending.Some? then FixedStep(Some(Err(fs.pending.value)), FixedState(fs.st, None))
    else
      var s := NextStep(cmp, fs.st);
      var k := SelectMin(cmp, fs.st.heads);
      if s.out.Some? && s.out.value.Err? && fs.st.passThrough.None? && k.Some? then
        FixedStep(Some(Ok(fs.st.heads[k.value].value)), FixedState(s.next, Some(s.out.value.error)))
      else
        FixedStep(s.out, FixedState(s.next, None))
  }

  /**
   * Decodes the first record of every file, in order; the first failure
   * (clean end of file included) aborts.
   */
  function DecodeHeads<T>(files: seq<SegmentFile<T>>): (r: Result<seq<T>>)
    ensures r.Ok? <==> forall k :: 0 <= k < |files| ==> |files[k].items| > 0
    ensures r.Ok? ==> |r.value| == |files| && forall k :: 0 <= k < |files| ==> r.value[k] == files[k].items[0]
    ensures r.Err? ==> exists k :: 0 <= k < |files| && |files[k].items| == 0 && r.error == files[k].end
                                  && forall j :: 0 <= j < k ==> |files[j].items| > 0
  {
    if files == [] then Ok([])
    else match DecodeAt(files[0], 0)
      case DecodeError(e) => Err(e)
      case Item(v) =>
        match DecodeHeads(files[1..])
        case Err(e) =>
          assert forall j :: 1 <= j < |files| ==> files[1..][j - 1] == files[j];
          Err(e)
        case Ok(hs) => Ok([v] + hs)
  }

  /**
   * Construction: rewind every file, then decode one head per file. It
   * succeeds exactly when no rewind fails and every file has a first record;
   * it then keeps the directory, the queue, the files and the count (so
   * `sorted_count` and `disk_segment_count` report what it was given),
   * caches each file's first record and leaves every cursor after it. A
   * rewind failure is reported before any decode.
   */
  function NewState<T>(tempdir: Option<TempDir>, passThrough: Option<seq<T>>, files: seq<SegmentFile<T>>,
                       count: nat, fault: Fault): (r: Result<IterState<T>>)
    ensures r.Ok? <==> !(fault == SeekFault && |files| > 0) && forall k :: 0 <= k < |files| ==> |files[k].items| > 0
    ensures r.Ok? ==> && WellFormed(r.value)
                      && r.value.tempdir == tempdir && r.value.count == count
                      && r.value.files == files && r.value.passThrough == passThrough
                      && forall k :: 0 <= k < |files| ==> r.value.heads[k] == Some(files[k].items[0]) && r.value.cursors[k] == 1
    ensures fault == SeekFault && |files| > 0 ==> r == Err(SeekFailed)
    ensures r.Err? && fault != SeekFault ==> exists k :: 0 <= k < |files| && |files[k].items| == 0 && r.error == files[k].end
  {
    if fault == SeekFault && |files| > 0 then Err(SeekFailed)
    else match DecodeHeads(files)
      case Err(e) => Err(e)
      case Ok(hs) =>
        Ok(IterState(tempdir, passThrough, files, seq(|files|, _ => 1), seq(|files|, k requires 0 <= k < |files| => Some(hs[k])), count))
  }

  class SortedIterator<T> {
    const tempdir: Option<TempDir>
    var passThrough: Option<seq<T>>
    const files: seq<SegmentFile<T>>
    var cursors: seq<nat>
    var nextValues: seq<Option<T>>
    const count: nat
    const cmp: (T, T) -> Ordering

    ghost predicate Valid()
      reads this
    {
      |cursors| == |files| && |nextValues| == |files|
    }

    function State(): IterState<T>
      reads this
    {
      IterState(tempdir, passThrough, files, cursors, nextValues, count)
    }

    constructor Init(tempdir: Option<TempDir>, passThrough: Option<seq<T>>, files: seq<SegmentFile<T>>,
                     cursors: seq<nat>, nextValues: seq<Option<T>>, count: nat, cmp: (T, T) -> Ordering)
      requires |cursors| == |files| && |nextValues| == |files|
      ensures Valid() && this.cmp == cmp
      ensures State() == IterState(tempdir, passThrough, files, cursors, nextValues, count)
    {
      this.tempdir := tempdir;
      this.passThrough := passThrough;
      this.files := files;
      this.cursors := cursors;
      this.nextValues := nextValues;
      this.count := count;
      this.cmp := cmp;
    }

    /** The number of items the iterator was built for (`sorted_count`). */
    function SortedCount(): (n: nat)
      reads this
      ensures n == State().count
    {
      count
    }

    /** The number of segment files on disk (`disk_segment_count`). */
    function DiskSegmentCount(): (n: nat)
      reads this
      ensures n == |State().files|
    {
      |files|
    }

    /** `next`: pop the pass-through queue, or yield the smallest head and refill its segment. */
    method Next() returns (r: Option<Result<T>>)
      requires Valid()
      modifies this
      ensures Valid()
      ensures Step(r, State()) == NextStep(cmp, old(State()))
      ensures SortedCount() == old(SortedCount()) && DiskSegmentCount() == old(DiskSegmentCount())
    {
      if passThrough.Some? {
        var q := passThrough.value;
        if |q| == 0 {
          return None;
        }
        passThrough := Some(q[1..]);
        return Some(Ok(q[0]));
      }

      var smallestIdx: Option<nat> := None;
      var smallest: Option<T> := None;
      for idx := 0 to |files|
        invariant smallestIdx.Some? ==> smallestIdx.value < idx && nextValues[smallestIdx.value].Some?
        invariant smallest.Some? <==> smallestIdx.Some?
        invariant smallestIdx.Some? ==> smallest.value == nextValues[smallestIdx.value].value
        invariant ScanMin(cmp, nextValues, idx, smallestIdx) == SelectMin(cmp, nextValues)
      {
        var nextValue := nextValues[idx];
        if nextValue.None? {
          continue;
        }
        if smallest.None? || cmp(nextValue.value, smallest.value) == Less {
          smallest := nextValue;
          smallestIdx := Some(idx);
        }
      }

      if smallestIdx.None? {
        return None;
      }
      var idx := smallestIdx.value;
      var value := nextValues[idx].value;
      nextValues := nextValues[idx := None];
      match DecodeAt(files[idx], cursors[idx]) {
        case Item(w) =>
          nextValues := nextValues[idx := Some(w)];
          cursors := cursors[idx := cursors[idx] + 1];
        case DecodeError(e) =>
          if e != UnexpectedEof {
            return Some(Err(e));
          }
          nextValues := nextValues[idx := None];
      }
      r := Some(Ok(value));
    }
  }

  /**
   * `SortedIterator::new`: rewinds every segment file, then decodes one head
   * per file; any failure aborts construction.
   */
  method New<T>(tempdir: Option<TempDir>, passThrough: Option<seq<T>>, files: seq<SegmentFile<T>>,
                count: nat, cmp: (T, T) -> Ordering, fault: Fault) returns (r: Result<SortedIterator<T>>)
    ensures r.Ok? <==> NewState(tempdir, passThrough, files, count, fault).Ok?
    ensures r.Err? ==> r.error == NewState(tempdir, passThrough, files, count, fault).error
    ensures r.Ok? ==> && fresh(r.value) && r.value.Valid() && r.value.cmp == cmp
                      && r.value.State() == NewState(tempdir, passThrough, files, count, fault).value
  {
    if fault == SeekFault && |files| > 0 {
      return Err(SeekFailed);
    }
    var nextValues: seq<Option<T>> := [];
    for k := 0 to |files|
      invariant |nextValues| == k
      invariant forall j :: 0 <= j < k ==> |files[j].items| > 0 && nextValues[j] == Some(files[j].items[0])
    {
      match DecodeAt(files[k], 0) {
        case DecodeError(e) =>
          ghost var hs := DecodeHeads(files);
          assert hs.Err? by {
            assert |files[k].items| == 0;
          }
          ghost var kk :| 0 <= kk < |files| && |files[kk].items| == 0 && hs.error == files[kk].end
                    && forall j :: 0 <= j < kk ==> |files[j].items| > 0;
          assert kk == k;
          return Err(e);
        case Item(v) =>
          nextValues := nextValues + [Some(v)];
      }
    }
    var cursors := seq(|files|, _ => 1);
    var it := new SortedIterator.Init(tempdir, passThrough, files, cursors, nextValues, count, cmp);
    ghost var hs := DecodeHeads(files);
    assert hs.Ok?;
    assert nextValues == seq(|files|, k requires 0 <= k < |files| => Some(hs.value[k]));
    return Ok(it);
  }
}
