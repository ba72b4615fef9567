/**
 * The push engine (`PushExternalSorter` of src/push.rs).
 *
 * Items are pushed into an in-memory buffer; whenever the buffer holds more
 * than `segmentSize` items it is sorted and written out as the next numbered
 * segment file. `done` either writes the remainder as a last segment and
 * merges the segments, or hands the sorted buffer to the iterator as a
 * pass-through queue. The pure functions give the meaning of each operation
 * on the sorter's fields; the class is the imperative code, proved to follow
 * them.
 */
module Push {
  import opened Compare
  import opened Io
  import Iter

  /** The options the push engine reads: the spill threshold, a configured directory, the parallel flag. */
  datatype Options = Options(segmentSize: nat, sortDir: Option<Path>, parallel: bool)

  /** A segment written by a spill: the directory it lives in, its file name, and its items in file order. */
  datatype Segment<T> = Segment(dir: Path, name: nat, items: seq<T>)

  /** The fields of a `PushExternalSorter`, its comparator aside, as a value. */
  datatype Engine<T> = Engine(
    options: Options,
    tempdir: Option<TempDir>,
    count: nat,
    segments: seq<Segment<T>>,
    buffer: seq<T>)

  /** What a call that may spill returns, and the state it leaves behind. */
  datatype Outcome<T> = Outcome(result: Result<()>, engine: Engine<T>)

  /** A freshly constructed sorter. */
  function Empty<T>(options: Options): (e: Engine<T>)
    ensures e.options == options && e.tempdir.None? && e.count == 0 && e.segments == [] && e.buffer == []
  {
    Engine(options, None, 0, [], [])
  }

  /** The segment files as the iterator reads them back: every item, then a clean end. */
  function Files<T>(segments: seq<Segment<T>>): (fs: seq<SegmentFile<T>>)
    ensures |fs| == |segments|
    ensures forall k :: 0 <= k < |segments| ==> fs[k] == Written(segments[k].items)
  {
    seq(|segments|, k requires 0 <= k < |segments| => Written(segments[k].items))
  }

  /**
   * `get_sort_dir`: a configured directory is returned as is; otherwise a
   * temporary directory is created and becomes the configured one, so that
   * later calls return it without creating another.
   */
  function ResolveDir<T>(e: Engine<T>, env: Env): (r: (Result<Path>, Engine<T>))
    ensures e.options.sortDir.Some? ==> r == (Ok(e.options.sortDir.value), e)
    ensures r.0.Ok? ==> r.1.options.sortDir == Some(r.0.value)
    ensures r.0.Err? ==> r.0.error == DirCreateFailed && r.1 == e
    ensures r.1 != e ==> && e.options.sortDir.None?
                         && r.1 == e.(tempdir := Some(TempDir(env.freshDir)),
                                      options := e.options.(sortDir := Some(env.freshDir)))
  {
    if e.options.sortDir.Some? then (Ok(e.options.sortDir.value), e)
    else if env.fault == TempDirFault then (Err(DirCreateFailed), e)
    else
      (Ok(env.freshDir), e.(tempdir := Some(TempDir(env.freshDir)),
                            options := e.options.(sortDir := Some(env.freshDir))))
  }

  /**
   * The in-memory sort of a spill. The parallel and the sequential branch
   * sort by the same comparator and return the same sequence.
   */
  function SortBuffer<T>(cmp: (T, T) -> Ordering, parallel: bool, buffer: seq<T>): (r: seq<T>)
    ensures r == SortBy(cmp, buffer)
    ensures multiset(r) == multiset(buffer) && |r| == |buffer|
  {
    SortByPermutation(cmp, buffer);
    if parallel then SortBy(cmp, buffer) else SortBy(cmp, buffer)
  }

  /**
   * The rest of `sort_and_write_segment` once the buffer has been sorted
   * into `sorted`: resolve the directory, open segment file number
   * `|segments|`, drain the buffer into it and keep the file. A failure
   * before the drain leaves the sorted buffer in place; a failure during or
   * after it leaves the buffer empty and no new segment.
   */
  function WriteSorted<T>(e: Engine<T>, env: Env, sorted: seq<T>): (o: Outcome<T>)
    ensures o.engine.count == e.count
    ensures o.engine.options.segmentSize == e.options.segmentSize
    ensures o.engine.options.parallel == e.options.parallel
    ensures o.result.Ok? ==> && o.engine.options.sortDir.Some? && o.engine.buffer == []
                             && o.engine.segments == e.segments + [Segment(o.engine.options.sortDir.value, |e.segments|, sorted)]
    ensures o.result.Err? ==> o.engine.segments == e.segments
  {
    var d := ResolveDir(e.(buffer := sorted), env);
    if d.0.Err? then Outcome(Err(d.0.error), d.1)
    else if env.fault == OpenFault then Outcome(Err(OpenFailed), d.1)
    else if env.fault.EncodeFault? && env.fault.at < |sorted| then Outcome(Err(WriteFailed), d.1.(buffer := []))
    else if env.fault == FlushFault then Outcome(Err(FlushFailed), d.1.(buffer := []))
    else Outcome(Ok(()), d.1.(buffer := [], segments := e.segments + [Segment(d.0.value, |e.segments|, sorted)]))
  }

  /** `sort_and_write_segment`: sort the buffer with the sort the parallel flag selects, then write it out. */
  function Spill<T>(cmp: (T, T) -> Ordering, e: Engine<T>, env: Env): (o: Outcome<T>)
    ensures o.engine.count == e.count
    ensures o.engine.options.segmentSize == e.options.segmentSize
    ensures o.engine.options.parallel == e.options.parallel
  {
    WriteSorted(e, env, SortBuffer(cmp, e.options.parallel, e.buffer))
  }

  /** `push`: append the item, count it, and spill once the buffer exceeds the segment size. */
  function PushItem<T>(cmp: (T, T) -> Ordering, e: Engine<T>, x: T, env: Env): (o: Outcome<T>)
    ensures o.engine.count == e.count + 1
  {
    var e1 := e.(buffer := e.buffer + [x], count := e.count + 1);
    if |e1.buffer| > e.options.segmentSize then Spill(cmp, e1, env) else Outcome(Ok(()), e1)
  }

  /** `push_iter`: push every item in order, stopping at the first error; `envs[i]` serves the i-th push. */
  function PushItems<T>(cmp: (T, T) -> Ordering, e: Engine<T>, xs: seq<T>, envs: seq<Env>): (o: Outcome<T>)
    requires |envs| == |xs|
    ensures o.result.Ok? ==> o.engine.count == e.count + |xs|
    ensures o.engine.count <= e.count + |xs|
    decreases |xs|
  {
    if xs == [] then Outcome(Ok(()), e)
    else
      var o := PushItem(cmp, e, xs[0], envs[0]);
      if o.result.Err? then o else PushItems(cmp, o.engine, xs[1..], envs[1..])
  }

  /**
   * `done`: with a non-empty buffer and at least one segment, spill the
   * buffer and merge the segments; otherwise sort the buffer and let it be
   * the pass-through queue. Either way the iterator is then constructed
   * over every segment written so far.
   */
  function Finish<T>(cmp: (T, T) -> Ordering, e: Engine<T>, env: Env): (r: Result<Iter.IterState<T>>)
    ensures r.Ok? ==> r.value.count == e.count
    ensures r.Ok? ==> (r.value.passThrough.None? <==> e.buffer != [] && e.segments != [])
    ensures r.Ok? && r.value.passThrough.Some? ==>
              r.value.passThrough.value == SortBy(cmp, e.buffer) && r.value.files == Files(e.segments)
    ensures r.Ok? && r.value.passThrough.None? ==>
              |r.value.files| == |e.segments| + 1 && r.value.files[..|e.segments|] == Files(e.segments)
  {
    if e.buffer != [] && e.segments != [] then
      var o := Spill(cmp, e, env);
      if o.result.Err? then Err(o.result.error)
      else Iter.NewState(o.engine.tempdir, None, Files(o.engine.segments), o.engine.count, env.fault)
    else
      Iter.NewState(e.tempdir, Some(SortBy(cmp, e.buffer)), Files(e.segments), e.count, env.fault)
  }

  /**
   * `done` as evidently intended: the buffer is a pass-through queue only
   * when no segment was written; with segments and an empty buffer, the
   * segments are merged without another spill.
   */
  function FinishFixed<T>(cmp: (T, T) -> Ordering, e: Engine<T>, env: Env): Result<Iter.IterState<T>> {
    if e.segments == [] then
      Iter.NewState(e.tempdir, Some(SortBy(cmp, e.buffer)), [], e.count, env.fault)
    else if e.buffer == [] then
      Iter.NewState(e.tempdir, None, Files(e.segments), e.count, env.fault)
    else
      Finish(cmp, e, env)
  }

  class PushExternalSorter<T> {
    var options: Options
    var tempdir: Option<TempDir>
    var count: nat
    var segments: seq<Segment<T>>
    var buffer: seq<T>
    const cmp: (T, T) -> Ordering

    function Model(): Engine<T>
      reads this
    {
      Engine(options, tempdir, count, segments, buffer)
    }

    /** `new`: no temporary directory, nothing counted, no segments, an empty buffer. */
    constructor (options: Options, cmp: (T, T) -> Ordering)
      ensures Model() == Empty(options) && this.cmp == cmp
    {
      this.options := options;
      this.tempdir := None;
      this.count := 0;
      this.segments := [];
      this.buffer := [];
      this.cmp := cmp;
    }

    method GetSortDir(env: Env) returns (r: Result<Path>)
      modifies this
      ensures (r, Model()) == ResolveDir(old(Model()), env)
    {
      if options.sortDir.Some? {
        return Ok(options.sortDir.value);
      }
      if env.fault == TempDirFault {
        return Err(DirCreateFailed);
      }
      tempdir := Some(TempDir(env.freshDir));
      options := options.(sortDir := Some(tempdir.value.path));
      return Ok(options.sortDir.value);
    }

    method SortAndWriteSegment(env: Env) returns (r: Result<()>)
      modifies this
      ensures Outcome(r, Model()) == Spill(cmp, old(Model()), env)
    {
      if options.parallel {
        buffer := SortBy(cmp, buffer);
      } else {
        buffer := SortBy(cmp, buffer);
      }
      ghost var sorted := buffer;
      ghost var d := ResolveDir(old(Model()).(buffer := sorted), env);
      var dir := GetSortDir(env);
      assert dir == d.0 && Model() == d.1;
      if dir.Err? {
        return Err(dir.error);
      }
      var name := |segments|;
      if env.fault == OpenFault {
        return Err(OpenFailed);
      }
      ghost var e1 := Model();
      // `drain(0..)` empties the buffer even when the loop is left early.
      var drained := buffer;
      buffer := [];
      var written: seq<T> := [];
      for i := 0 to |drained|
        invariant written == drained[..i]
        invariant !(env.fault.EncodeFault? && env.fault.at < i)
      {
        if env.fault == EncodeFault(i) {
          assert Model() == e1.(buffer := []);
          return Err(WriteFailed);
        }
        written := written + [drained[i]];
      }
      assert written == sorted;
      if env.fault == FlushFault {
        assert Model() == e1.(buffer := []);
        return Err(FlushFailed);
      }
      segments := segments + [Segment(dir.value, name, written)];
      assert Model() == e1.(buffer := [], segments := old(segments) + [Segment(dir.value, name, sorted)]);
      return Ok(());
    }

    method Push(item: T, env: Env) returns (r: Result<()>)
      modifies this
      ensures Outcome(r, Model()) == PushItem(cmp, old(Model()), item, env)
    {
      buffer := buffer + [item];
      count := count + 1;
      if |buffer| > options.segmentSize {
        r := SortAndWriteSegment(env);
        return;
      }
      return Ok(());
    }

    method PushIter(items: seq<T>, envs: seq<Env>) returns (r: Result<()>)
      requires |envs| == |items|
      modifies this
      ensures Outcome(r, Model()) == PushItems(cmp, old(Model()), items, envs)
    {
      for i := 0 to |items|
        invariant PushItems(cmp, old(Model()), items, envs) == PushItems(cmp, Model(), items[i..], envs[i..])
      {
        assert items[i..][0] == items[i] && envs[i..][0] == envs[i];
        assert items[i..][1..] == items[i + 1..] && envs[i..][1..] == envs[i + 1..];
        var p := Push(items[i], envs[i]);
        if p.Err? {
          return p;
        }
      }
      assert items[|items|..] == [] && envs[|items|..] == [];
      return Ok(());
    }

    method Done(env: Env) returns (r: Result<Iter.SortedIterator<T>>)
      modifies this
      ensures r.Ok? <==> Finish(cmp, old(Model()), env).Ok?
      ensures r.Err? ==> r.error == Finish(cmp, old(Model()), env).error
      ensures r.Ok? ==> && fresh(r.value) && r.value.Valid() && r.value.cmp == cmp
                        && r.value.State() == Finish(cmp, old(Model()), env).value
    {
      var passThrough: Option<seq<T>>;
      if |buffer| > 0 && |segments| > 0 {
        var w := SortAndWriteSegment(env);
        if w.Err? {
          return Err(w.error);
        }
        passThrough := None;
      } else {
        buffer := SortBy(cmp, buffer);
        passThrough := Some(buffer);
      }
      r := Iter.New(tempdir, passThrough, Files(segments), count, cmp, env.fault);
    }
  }
}
