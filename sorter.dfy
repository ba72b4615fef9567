/**
 * The older engine (`ExternalSorter` and its `SortedIterator` of
 * src/sorter.rs).
 *
 * `sort` runs the buffer / spill / finalise loop inline over the input with
 * the natural order of the items, spilling with `par_sort_unstable`, and
 * merges the segment files with a k-way merge. The pure functions give the
 * meaning of each step on the loop's local variables; the methods are the
 * imperative code, proved to follow them.
 */
module Sorter {
  import opened Compare
  import opened Io
  import opened Seqs

  /** The configuration: the buffer bound and an optional directory for the segments. */
  datatype ExternalSorter = ExternalSorter(maxSize: nat, sortDir: Option<Path>)

  /** `new`: a buffer of 10000 items and no configured directory. */
  function New(): (s: ExternalSorter)
    ensures s.maxSize == 10000 && s.sortDir.None?
  {
    ExternalSorter(10000, None)
  }

  /** `set_max_size`: changes the buffer bound and nothing else. */
  function SetMaxSize(s: ExternalSorter, maxSize: nat): (r: ExternalSorter)
    ensures r.maxSize == maxSize && r.sortDir == s.sortDir
  {
    s.(maxSize := maxSize)
  }

  /** `set_sort_dir`: configures the directory and changes nothing else. */
  function SetSortDir(s: ExternalSorter, path: Path): (r: ExternalSorter)
    ensures r.sortDir == Some(path) && r.maxSize == s.maxSize
  {
    s.(sortDir := Some(path))
  }

  /** A segment file written by `sort`: its directory, its file name, and its items in file order. */
  datatype Segment<T> = Segment(dir: Path, name: nat, items: seq<T>)

  /** The local variables of `sort`: the temporary directory, the cached sort directory, the count, the segments, the buffer. */
  datatype Run<T> = Run(
    tempdir: Option<TempDir>,
    sortDir: Option<Path>,
    count: nat,
    segments: seq<Segment<T>>,
    buffer: seq<T>)

  /** The locals on entry to the loop: no directory yet, nothing counted, no segment, an empty buffer. */
  function Start<T>(): (r: Run<T>)
    ensures r.tempdir.None? && r.sortDir.None?
    ensures r.count == 0 && r.segments == [] && r.buffer == []
  {
    Run(None, None, 0, [], [])
  }

  /** The fault that strikes the spill writing segment `k`: the k-th of `faults`, none past the end. */
  function FaultAt(faults: seq<Fault>, k: nat): Fault {
    if k < |faults| then faults[k] else NoFault
  }

  /**
   * The items of each segment, segment by segment (the same projection as
   * `PushProofs.SegmentItems`, over this engine's segment type).
   */
  function SegmentItems<T>(segs: seq<Segment<T>>): (ss: seq<seq<T>>)
    ensures |ss| == |segs| && forall k :: 0 <= k < |segs| ==> ss[k] == segs[k].items
  {
    seq(|segs|, k requires 0 <= k < |segs| => segs[k].items)
  }

  /**
   * `lazy_create_dir` on the cached directory `cache` and the temporary
   * directory `tempdir`: a cached directory is returned as is; otherwise the
   * configured directory is cached, or, with none configured, a temporary
   * directory is created and its path cached.
   */
  function LazyDir(s: ExternalSorter, tempdir: Option<TempDir>, cache: Option<Path>, fault: Fault, freshDir: Path)
    : (r: (Result<Path>, Option<TempDir>, Option<Path>))
    ensures cache.Some? ==> r == (Ok(cache.value), tempdir, cache)
    ensures r.0.Ok? ==> r.2 == Some(r.0.value)
    ensures r.0.Err? ==> r.0.error == DirCreateFailed && r.1 == tempdir && r.2 == cache
    ensures r.1 != tempdir ==> cache.None? && s.sortDir.None? && r.1 == Some(TempDir(freshDir)) && r.0 == Ok(freshDir)
    ensures cache.None? && s.sortDir.Some? ==> r == (Ok(s.sortDir.value), tempdir, s.sortDir)
  {
    if cache.Some? then (Ok(cache.value), tempdir, cache)
    else if s.sortDir.Some? then (Ok(s.sortDir.value), tempdir, s.sortDir)
    else if fault == TempDirFault then (Err(DirCreateFailed), tempdir, cache)
    else (Ok(freshDir), Some(TempDir(freshDir)), Some(freshDir))
  }

  /**
   * `sort_and_write_segment`: sort the buffer, open segment file number
   * `|segments|` in `dir`, drain the buffer into it, flush, rewind and keep
   * the file. Encoding reports no error in this trait, so only opening,
   * flushing and rewinding can fail.
   */
  function WriteSegment<T>(cmp: (T, T) -> Ordering, dir: Path, segments: seq<Segment<T>>, buffer: seq<T>, fault: Fault)
    : (r: (Result<()>, seq<Segment<T>>, seq<T>))
    ensures r.0.Ok? ==> r.1 == segments + [Segment(dir, |segments|, SortBy(cmp, buffer))] && r.2 == []
    ensures r.0.Err? ==> r.1 == segments
  {
    var sorted := SortBy(cmp, buffer);
    if fault == OpenFault then (Err(OpenFailed), segments, sorted)
    else if fault == FlushFault then (Err(FlushFailed), segments, [])
    else if fault == SeekFault then (Err(SeekFailed), segments, [])
    else (Ok(()), segments + [Segment(dir, |segments|, sorted)], [])
  }

  /** A spill inside `sort`: resolve the directory, then write the buffer as the next segment. */
  function Spill<T>(cmp: (T, T) -> Ordering, s: ExternalSorter, run: Run<T>, faults: seq<Fault>, freshDir: Path): (r: Result<Run<T>>)
    ensures r.Ok? ==> r.value.count == run.count && r.value.buffer == [] && r.value.sortDir.Some?
                      && r.value.segments == run.segments + [Segment(r.value.sortDir.value, |run.segments|, SortBy(cmp, run.buffer))]
  {
    var fault := FaultAt(faults, |run.segments|);
    var d := LazyDir(s, run.tempdir, run.sortDir, fault, freshDir);
    if d.0.Err? then Err(d.0.error)
    else
      var w := WriteSegment(cmp, d.0.value, run.segments, run.buffer, fault);
      if w.0.Err? then Err(w.0.error)
      else Ok(run.(tempdir := d.1, sortDir := d.2, segments := w.1, buffer := w.2))
  }

  /** One iteration of the loop of `sort`: count the item, buffer it, spill once the buffer exceeds `maxSize`. */
  function Feed<T>(cmp: (T, T) -> Ordering, s: ExternalSorter, run: Run<T>, x: T, faults: seq<Fault>, freshDir: Path): (r: Result<Run<T>>)
    ensures r.Ok? ==> r.value.count == run.count + 1
  {
    var r1 := run.(count := run.count + 1, buffer := run.buffer + [x]);
    if |r1.buffer| > s.maxSize then Spill(cmp, s, r1, faults, freshDir) else Ok(r1)
  }

  /** The whole loop of `sort` over `xs`; the first failure ends the sort. */
  function Loop<T>(cmp: (T, T) -> Ordering, s: ExternalSorter, run: Run<T>, xs: seq<T>, faults: seq<Fault>, freshDir: Path)
    : (r: Result<Run<T>>)
    ensures r.Ok? ==> r.value.count == run.count + |xs|
    decreases |xs|
  {
    if xs == [] then Ok(run)
    else match Feed(cmp, s, run, xs[0], faults, freshDir)
      case Err(e) => Err(e)
      case Ok(r1) => Loop(cmp, s, r1, xs[1..], faults, freshDir)
  }

  /** The state of the old `SortedIterator` as a value; `merged` is what the k-way merge has still to yield. */
  datatype OldIterState<T> = OldIterState(
    tempdir: Option<TempDir>,
    passThrough: Option<seq<T>>,
    merged: seq<T>,
    segmentCount: nat,
    itemCount: nat)

  /**
   * The k-way merge of the segment readers. Each segment is sorted by the
   * natural order, a total order, so the merge is the one sorted
   * permutation of the concatenated segments.
   */
  function Merge<T>(cmp: (T, T) -> Ordering, segments: seq<Segment<T>>): (r: seq<T>)
    ensures multiset(r) == multiset(Flatten(SegmentItems(segments))) && |r| == |Flatten(SegmentItems(segments))|
  {
    SortByPermutation(cmp, Flatten(SegmentItems(segments)));
    SortBy(cmp, Flatten(SegmentItems(segments)))
  }

  /**
   * After the loop: with a non-empty buffer and at least one segment, spill
   * it and merge; otherwise sort the buffer and let it be the pass-through
   * queue. The merge is built over the segments written either way.
   */
  function Finalize<T>(cmp: (T, T) -> Ordering, s: ExternalSorter, run: Run<T>, faults: seq<Fault>, freshDir: Path)
    : (r: Result<OldIterState<T>>)
    ensures r.Ok? ==> r.value.itemCount == run.count
    ensures r.Ok? ==> (r.value.passThrough.None? <==> run.buffer != [] && run.segments != [])
    ensures r.Ok? && r.value.passThrough.Some? ==>
              r.value.passThrough.value == SortBy(cmp, run.buffer) && r.value.segmentCount == |run.segments|
    ensures r.Ok? && r.value.passThrough.None? ==> r.value.segmentCount == |run.segments| + 1
    ensures r.Err? ==> run.buffer != [] && run.segments != []
  {
    if run.buffer != [] && run.segments != [] then
      match Spill(cmp, s, run, faults, freshDir)
      case Err(e) => Err(e)
      case Ok(r2) => Ok(OldIterState(r2.tempdir, None, Merge(cmp, r2.segments), |r2.segments|, r2.count))
    else
      Ok(OldIterState(run.tempdir, Some(SortBy(cmp, run.buffer)), Merge(cmp, run.segments), |run.segments|, run.count))
  }

  /**
   * The finalisation as evidently intended: the buffer is a pass-through
   * queue only when no segment was written; with segments and an empty
   * buffer the segments are merged without another flush.
   */
  function FinalizeFixed<T>(cmp: (T, T) -> Ordering, s: ExternalSorter, run: Run<T>, faults: seq<Fault>, freshDir: Path)
    : Result<OldIterState<T>>
  {
    if run.segments == [] then
      Ok(OldIterState(run.tempdir, Some(SortBy(cmp, run.buffer)), [], 0, run.count))
    else if run.buffer == [] then
      Ok(OldIterState(run.tempdir, None, Merge(cmp, run.segments), |run.segments|, run.count))
    else
      Finalize(cmp, s, run, faults, freshDir)
  }

  /** `sort` with the intended finalisation. */
  function SortSpecFixed<T>(cmp: (T, T) -> Ordering, s: ExternalSorter, xs: seq<T>, faults: seq<Fault>, freshDir: Path)
    : Result<OldIterState<T>>
  {
    match Loop(cmp, s, Start(), xs, faults, freshDir)
    case Err(e) => Err(e)
    case Ok(run) => FinalizeFixed(cmp, s, run, faults, freshDir)
  }

  /** `sort`: the loop from an empty state, then the finalisation. */
  function SortSpec<T>(cmp: (T, T) -> Ordering, s: ExternalSorter, xs: seq<T>, faults: seq<Fault>, freshDir: Path)
    : (r: Result<OldIterState<T>>)
    ensures r.Ok? ==> r.value.itemCount == |xs|
  {
    match Loop(cmp, s, Start(), xs, faults, freshDir)
    case Err(e) => Err(e)
    case Ok(run) => Finalize(cmp, s, run, faults, freshDir)
  }

  /** One call of the old iterator's `next`: pop the queue if there is one, else the merge. */
  function NextOld<T>(st: OldIterState<T>): (r: (Option<T>, OldIterState<T>))
    ensures r.1.segmentCount == st.segmentCount && r.1.itemCount == st.itemCount
  {
    if st.passThrough.Some? then
      var q := st.passThrough.value;
      if q == [] then (None, st) else (Some(q[0]), st.(passThrough := Some(q[1..])))
    else if st.merged == [] then (None, st)
    else (Some(st.merged[0]), st.(merged := st.merged[1..]))
  }

  function Size<T>(st: OldIterState<T>): nat {
    (if st.passThrough.Some? then |st.passThrough.value| else 0) + |st.merged|
  }

  /** Everything the old iterator yields, `next` after `next`, until the first `None`. */
  function Drain<T>(st: OldIterState<T>): (r: seq<T>)
    ensures |r| == if st.passThrough.Some? then |st.passThrough.value| else |st.merged|
    decreases Size(st)
  {
    var r := NextOld(st);
    if r.0.None? then [] else [r.0.value] + Drain(r.1)
  }

  class SortedIterator<T> {
    const tempdir: Option<TempDir>
    var passThrough: Option<seq<T>>
    var merged: seq<T>
    const segmentCount: nat
    const itemCount: nat

    function State(): OldIterState<T>
      reads this
    {
      OldIterState(tempdir, passThrough, merged, segmentCount, itemCount)
    }

    /** `SortedIterator::new`: keeps the queue and builds the merge over the segment files. */
    constructor (st: OldIterState<T>)
      ensures State() == st
    {
      tempdir := st.tempdir;
      passThrough := st.passThrough;
      merged := st.merged;
      segmentCount := st.segmentCount;
      itemCount := st.itemCount;
    }

    /** `sorted_count`. */
    function SortedCount(): (n: nat)
      reads this
      ensures n == State().itemCount
    {
      itemCount
    }

    /** `segment_count`. */
    function SegmentCount(): (n: nat)
      reads this
      ensures n == State().segmentCount
    {
      segmentCount
    }

    method Next() returns (r: Option<T>)
      modifies this
      ensures (r, State()) == NextOld(old(State()))
    {
      if passThrough.Some? {
        var q := passThrough.value;
        if q == [] {
          return None;
        }
        passThrough := Some(q[1..]);
        return Some(q[0]);
      }
      if merged == [] {
        return None;
      }
      r := Some(merged[0]);
      merged := merged[1..];
    }
  }

  /** `lazy_create_dir`, writing through the two references it is given. */
  method LazyCreateDir(s: ExternalSorter, tempdir: Option<TempDir>, sortDir: Option<Path>, fault: Fault, freshDir: Path)
    returns (r: Result<Path>, tempdirOut: Option<TempDir>, sortDirOut: Option<Path>)
    ensures (r, tempdirOut, sortDirOut) == LazyDir(s, tempdir, sortDir, fault, freshDir)
  {
    tempdirOut, sortDirOut := tempdir, sortDir;
    if sortDir.Some? {
      return Ok(sortDir.value), tempdirOut, sortDirOut;
    }
    if s.sortDir.Some? {
      sortDirOut := s.sortDir;
    } else {
      if fault == TempDirFault {
        return Err(DirCreateFailed), tempdirOut, sortDirOut;
      }
      tempdirOut := Some(TempDir(freshDir));
      sortDirOut := Some(tempdirOut.value.path);
    }
    r := Ok(sortDirOut.value);
  }

  /** `sort_and_write_segment`, on the segment list and the buffer it is given. */
  method SortAndWriteSegment<T>(cmp: (T, T) -> Ordering, dir: Path, segments: seq<Segment<T>>, buffer: seq<T>, fault: Fault)
    returns (r: Result<()>, segmentsOut: seq<Segment<T>>, bufferOut: seq<T>)
    ensures (r, segmentsOut, bufferOut) == WriteSegment(cmp, dir, segments, buffer, fault)
  {
    segmentsOut := segments;
    bufferOut := SortBy(cmp, buffer);
    var name := |segments|;
    if fault == OpenFault {
      return Err(OpenFailed), segmentsOut, bufferOut;
    }
    ghost var sorted := bufferOut;
    // `drain(0..)` moves every item, in order, out of the buffer and into the file.
    var written: seq<T> := [];
    while bufferOut != []
      invariant written + bufferOut == sorted
      decreases |bufferOut|
    {
      assert bufferOut == [bufferOut[0]] + bufferOut[1..];
      written := written + [bufferOut[0]];
      bufferOut := bufferOut[1..];
    }
    assert written == sorted;
    if fault == FlushFault {
      return Err(FlushFailed), segmentsOut, bufferOut;
    }
    if fault == SeekFault {
      return Err(SeekFailed), segmentsOut, bufferOut;
    }
    segmentsOut := segmentsOut + [Segment(dir, name, written)];
    r := Ok(());
  }

  /**
   * `sort`: the loop over the input with its spills, the final flush rule,
   * and the construction of the iterator. `faults[k]` is the fault that
   * strikes the spill writing segment `k`; `freshDir` is the path a created
   * temporary directory gets.
   */
  method Sort<T>(s: ExternalSorter, cmp: (T, T) -> Ordering, items: seq<T>, faults: seq<Fault>, freshDir: Path)
    returns (r: Result<SortedIterator<T>>)
    ensures r.Ok? <==> SortSpec(cmp, s, items, faults, freshDir).Ok?
    ensures r.Err? ==> r.error == SortSpec(cmp, s, items, faults, freshDir).error
    ensures r.Ok? ==> fresh(r.value) && r.value.State() == SortSpec(cmp, s, items, faults, freshDir).value
  {
    var tempdir: Option<TempDir> := None;
    var sortDir: Option<Path> := None;
    var count: nat := 0;
    var segments: seq<Segment<T>> := [];
    var buffer: seq<T> := [];
    for i := 0 to |items|
      invariant Loop(cmp, s, Start(), items, faults, freshDir)
             == Loop(cmp, s, Run(tempdir, sortDir, count, segments, buffer), items[i..], faults, freshDir)
    {
      assert items[i..][0] == items[i] && items[i..][1..] == items[i + 1..];
      count := count + 1;
      buffer := buffer + [items[i]];
      if |buffer| > s.maxSize {
        var fault := FaultAt(faults, |segments|);
        var dir;
        dir, tempdir, sortDir := LazyCreateDir(s, tempdir, sortDir, fault, freshDir);
        if dir.Err? {
          return Err(dir.error);
        }
        var w;
        w, segments, buffer := SortAndWriteSegment(cmp, dir.value, segments, buffer, fault);
        if w.Err? {
          return Err(w.error);
        }
      }
    }
    assert items[|items|..] == [];

    var passThrough: Option<seq<T>>;
    if |buffer| > 0 && |segments| > 0 {
      var fault := FaultAt(faults, |segments|);
      var dir;
      dir, tempdir, sortDir := LazyCreateDir(s, tempdir, sortDir, fault, freshDir);
      if dir.Err? {
        return Err(dir.error);
      }
      var w;
      w, segments, buffer := SortAndWriteSegment(cmp, dir.value, segments, buffer, fault);
      if w.Err? {
        return Err(w.error);
      }
      passThrough := None;
    } else {
      buffer := SortBy(cmp, buffer);
      passThrough := Some(buffer);
    }
    var it := new SortedIterator(OldIterState(tempdir, passThrough, Merge(cmp, segments), |segments|, count));
    return Ok(it);
  }
}
