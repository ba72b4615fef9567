/**
 * Properties of the push engine: the invariant every successful `push`
 * keeps, what one spill does, how `push_iter` relates to `push`, the flush
 * rule of `done`, the lazy temporary directory, and the end-to-end theorem
 * with its one exception.
 */
module PushProofs {
  import opened Compare
  import opened Io
  import Iter
  import opened IterProofs
  import opened Seqs
  import opened Arith
  import opened Push

  /**
   * The items of each segment, segment by segment. `Sorter.SegmentItems` and
   * `IterProofs.FileItems` are the same projection over the older engine's
   * segments and over segment files; each record type has its own.
   */
  function SegmentItems<T>(segs: seq<Segment<T>>): (ss: seq<seq<T>>)
    ensures |ss| == |segs| && forall k :: 0 <= k < |segs| ==> ss[k] == segs[k].items
  {
    seq(|segs|, k requires 0 <= k < |segs| => segs[k].items)
  }

  /** Everything the sorter holds: the spilled segments in order, then the buffer. */
  function Stored<T>(e: Engine<T>): seq<T> {
    Flatten(SegmentItems(e.segments)) + e.buffer
  }

  /**
   * What holds between successful pushes: every pushed item is held exactly
   * once; the buffer never exceeds the segment size; segment k is named k,
   * holds exactly `segmentSize + 1` items, sorted, and lives in the
   * configured directory; a temporary directory is the configured one.
   */
  ghost predicate Inv<T>(cmp: (T, T) -> Ordering, e: Engine<T>) {
    && e.count == |Stored(e)|
    && |e.buffer| <= e.options.segmentSize
    && (forall k :: 0 <= k < |e.segments| ==>
          && e.segments[k].name == k
          && |e.segments[k].items| == e.options.segmentSize + 1
          && SortedBy(cmp, e.segments[k].items))
    && (e.segments != [] ==> e.options.sortDir.Some?)
    && (forall k :: 0 <= k < |e.segments| ==> Some(e.segments[k].dir) == e.options.sortDir)
    && (e.tempdir.Some? ==> e.options.sortDir == Some(e.tempdir.value.path))
  }

  lemma EmptyInv<T>(cmp: (T, T) -> Ordering, options: Options)
    ensures Inv(cmp, Empty<T>(options))
    ensures Stored(Empty<T>(options)) == []
  {
  }

  /** Appending a segment appends its items (as `SorterProofs.SegmentItemsAppend` does for the older engine). */
  lemma SegmentItemsAppend<T>(segs: seq<Segment<T>>, s: Segment<T>)
    ensures Flatten(SegmentItems(segs + [s])) == Flatten(SegmentItems(segs)) + s.items
  {
    assert SegmentItems(segs + [s]) == SegmentItems(segs) + [s.items];
    FlattenAppend(SegmentItems(segs), s.items);
  }

  // ---------------------------------------------------------------------------
  // One spill
  // ---------------------------------------------------------------------------

  /** The faults under which a spill of `e` goes through. */
  predicate SpillSucceeds<T>(e: Engine<T>, env: Env) {
    && (e.options.sortDir.Some? || env.fault != TempDirFault)
    && env.fault != OpenFault
    && !(env.fault.EncodeFault? && env.fault.at < |e.buffer|)
    && env.fault != FlushFault
  }

  /**
   * A spill either adds exactly one segment -- named by the number of
   * segments before it, in the resolved directory, holding a permutation of
   * the old buffer sorted by `cmp` -- and empties the buffer, or reports
   * the failing operation and adds none. Earlier segments and the count are
   * never touched.
   */
  lemma SpillEffect<T>(cmp: (T, T) -> Ordering, e: Engine<T>, env: Env)
    ensures var o := Spill(cmp, e, env);
            && o.engine.count == e.count
            && (o.result.Ok? <==> SpillSucceeds(e, env))
            && (o.result.Ok? ==>
                  && o.engine.buffer == []
                  && o.engine.options.sortDir.Some?
                  && o.engine.segments == e.segments + [Segment(o.engine.options.sortDir.value, |e.segments|, SortBy(cmp, e.buffer))]
                  && multiset(SortBy(cmp, e.buffer)) == multiset(e.buffer))
            && (o.result.Err? ==> o.engine.segments == e.segments)
            && (o.result == Err(DirCreateFailed) ==> o.engine == e.(buffer := SortBy(cmp, e.buffer)))
            && (o.result == Err(OpenFailed) ==> o.engine.buffer == SortBy(cmp, e.buffer))
            && (o.result == Err(WriteFailed) || o.result == Err(FlushFailed) ==> o.engine.buffer == [])
  {
    SortByPermutation(cmp, e.buffer);
  }

  /** The spilled segment is sorted when the comparator is a total preorder. */
  lemma SpillSorted<T(!new)>(cmp: (T, T) -> Ordering, e: Engine<T>, env: Env)
    requires TotalPreorder(cmp)
    ensures var o := Spill(cmp, e, env);
            o.result.Ok? ==> SortedBy(cmp, o.engine.segments[|e.segments|].items)
  {
    SortByCorrect(cmp, e.buffer);
  }

  /**
   * What a spill produces does not depend on the parallel flag. The flag
   * chooses between `sort_unstable_by` and `par_sort_unstable_by`, which may
   * order items that compare `Equal` differently, so `s1` and `s2` stand for
   * any two sorted permutations of the buffer. Both spills report the same
   * result and leave the same count, directories, options (the flag aside)
   * and earlier segments. A new segment differs only in holding `s2` for
   * `s1`, and a buffer left behind holds the same items. Under a total
   * order, where only identical items compare `Equal`, the two states are
   * equal, the flag aside.
   */
  lemma SpillIgnoresParallel<T(!new)>(cmp: (T, T) -> Ordering, e: Engine<T>, env: Env, parallel: bool, s1: seq<T>, s2: seq<T>)
    requires TotalPreorder(cmp)
    requires SortedBy(cmp, s1) && multiset(s1) == multiset(e.buffer)
    requires SortedBy(cmp, s2) && multiset(s2) == multiset(e.buffer)
    ensures var o := WriteSorted(e, env, s1);
            var p := WriteSorted(e.(options := e.options.(parallel := parallel)), env, s2);
            && p.result == o.result
            && p.engine.count == o.engine.count
            && p.engine.tempdir == o.engine.tempdir
            && p.engine.options == o.engine.options.(parallel := parallel)
            && |p.engine.segments| == |o.engine.segments|
            && p.engine.segments[..|e.segments|] == o.engine.segments[..|e.segments|] == e.segments
            && (o.result.Ok? ==> p.engine.segments[|e.segments|] == o.engine.segments[|e.segments|].(items := s2))
            && multiset(p.engine.buffer) == multiset(o.engine.buffer)
    ensures TotalOrder(cmp) ==>
              var o := WriteSorted(e, env, s1);
              var p := WriteSorted(e.(options := e.options.(parallel := parallel)), env, s2);
              p.result == o.result && p.engine == o.engine.(options := o.engine.options.(parallel := parallel))
  {
    var e2 := e.(options := e.options.(parallel := parallel));
    var d := ResolveDir(e.(buffer := s1), env);
    var d2 := ResolveDir(e2.(buffer := s2), env);
    assert d2.0 == d.0 && d2.1 == d.1.(options := d.1.options.(parallel := parallel), buffer := s2);
    assert |s1| == |multiset(s1)| == |multiset(s2)| == |s2|;
    if TotalOrder(cmp) {
      SortedPermutationUnique(cmp, s1, s2);
    }
  }

  // ---------------------------------------------------------------------------
  // push and push_iter
  // ---------------------------------------------------------------------------

  /**
   * `push` appends exactly the item and counts it; below the threshold that
   * is all it does, at the threshold it spills the appended buffer.
   */
  lemma PushAppends<T>(cmp: (T, T) -> Ordering, e: Engine<T>, x: T, env: Env)
    ensures var o := PushItem(cmp, e, x, env);
            var e1 := e.(buffer := e.buffer + [x], count := e.count + 1);
            && (|e.buffer| < e.options.segmentSize ==> o == Outcome(Ok(()), e1))
            && (|e.buffer| >= e.options.segmentSize ==> o == Spill(cmp, e1, env))
  {
  }

  /**
   * A successful `push` keeps the invariant and holds the pushed item in
   * addition to everything held before; in particular the buffer is left
   * with at most `segmentSize` items.
   */
  lemma PushPreservesInv<T(!new)>(cmp: (T, T) -> Ordering, e: Engine<T>, x: T, env: Env)
    requires TotalPreorder(cmp) && Inv(cmp, e)
    ensures var o := PushItem(cmp, e, x, env);
            o.result.Ok? ==> && Inv(cmp, o.engine)
                             && multiset(Stored(o.engine)) == multiset(Stored(e)) + multiset{x}
                             && |o.engine.buffer| <= o.engine.options.segmentSize
  {
    var e1 := e.(buffer := e.buffer + [x], count := e.count + 1);
    assert Stored(e1) == Stored(e) + [x];
    if |e1.buffer| > e.options.segmentSize {
      SpillPreservesInv(cmp, e, x, env);
    }
  }

  /** The spill of a buffer that just exceeded the segment size keeps the invariant and holds the new item. */
  lemma SpillPreservesInv<T(!new)>(cmp: (T, T) -> Ordering, e: Engine<T>, x: T, env: Env)
    requires TotalPreorder(cmp) && Inv(cmp, e) && |e.buffer| == e.options.segmentSize
    ensures var o := Spill(cmp, e.(buffer := e.buffer + [x], count := e.count + 1), env);
            o.result.Ok? ==> Inv(cmp, o.engine) && multiset(Stored(o.engine)) == multiset(Stored(e)) + multiset{x}
  {
    var e1 := e.(buffer := e.buffer + [x], count := e.count + 1);
    var o := Spill(cmp, e1, env);
    if o.result.Ok? {
      SpillKeepsItems(cmp, e1, env);
      assert Stored(e1) == Stored(e) + [x];
      SpillKeepsSegments(cmp, e, x, env);
      assert o.engine.count == |Stored(o.engine)|;
    }
  }

  /** A successful spill holds exactly what was held before, the buffer now in a segment. */
  lemma SpillKeepsItems<T>(cmp: (T, T) -> Ordering, e: Engine<T>, env: Env)
    requires Spill(cmp, e, env).result.Ok?
    ensures var o := Spill(cmp, e, env);
            multiset(Stored(o.engine)) == multiset(Stored(e)) && |Stored(o.engine)| == |Stored(e)|
  {
    SpillEffect(cmp, e, env);
    var o := Spill(cmp, e, env);
    var seg := Segment(o.engine.options.sortDir.value, |e.segments|, SortBy(cmp, e.buffer));
    SegmentItemsAppend(e.segments, seg);
    assert Stored(o.engine) == Flatten(SegmentItems(e.segments)) + SortBy(cmp, e.buffer);
  }

  /** The segments and directories after the spill of a buffer that just exceeded the segment size are as the invariant asks. */
  lemma SpillKeepsSegments<T(!new)>(cmp: (T, T) -> Ordering, e: Engine<T>, x: T, env: Env)
    requires TotalPreorder(cmp) && Inv(cmp, e) && |e.buffer| == e.options.segmentSize
    ensures var o := Spill(cmp, e.(buffer := e.buffer + [x], count := e.count + 1), env);
            o.result.Ok? ==>
              && o.engine.buffer == []
              && o.engine.options.sortDir.Some?
              && (o.engine.tempdir.Some? ==> o.engine.options.sortDir == Some(o.engine.tempdir.value.path))
              && forall k :: 0 <= k < |o.engine.segments| ==>
                   && o.engine.segments[k].name == k
                   && |o.engine.segments[k].items| == o.engine.options.segmentSize + 1
                   && SortedBy(cmp, o.engine.segments[k].items)
                   && Some(o.engine.segments[k].dir) == o.engine.options.sortDir
  {
    var e1 := e.(buffer := e.buffer + [x], count := e.count + 1);
    var o := Spill(cmp, e1, env);
    if o.result.Ok? {
      SpillEffect(cmp, e1, env);
      SpillSorted(cmp, e1, env);
      var e2 := o.engine;
      assert e2.options.sortDir == e1.options.sortDir || e.segments == [];
      forall k | 0 <= k < |e2.segments|
        ensures && e2.segments[k].name == k
                && |e2.segments[k].items| == e2.options.segmentSize + 1
                && SortedBy(cmp, e2.segments[k].items)
                && Some(e2.segments[k].dir) == e2.options.sortDir
      {
        if k < |e.segments| {
          assert e2.segments[k] == e.segments[k];
        }
      }
    }
  }

  /**
   * A successful `push_iter` keeps the invariant and holds every pushed item
   * in addition to everything held before.
   */
  lemma {:induction false} PushItemsPreservesInv<T(!new)>(cmp: (T, T) -> Ordering, e: Engine<T>, xs: seq<T>, envs: seq<Env>)
    requires TotalPreorder(cmp) && Inv(cmp, e) && |envs| == |xs|
    ensures var o := PushItems(cmp, e, xs, envs);
            o.result.Ok? ==> Inv(cmp, o.engine) && multiset(Stored(o.engine)) == multiset(Stored(e)) + multiset(xs)
    decreases |xs|
  {
    var full := PushItems(cmp, e, xs, envs);
    if xs == [] {
      assert full == Outcome(Ok(()), e);
    } else {
      var o := PushItem(cmp, e, xs[0], envs[0]);
      if o.result.Err? {
        assert full == o;
      } else {
        PushPreservesInv(cmp, e, xs[0], envs[0]);
        var r := PushItems(cmp, o.engine, xs[1..], envs[1..]);
        assert full == r;
        PushItemsPreservesInv(cmp, o.engine, xs[1..], envs[1..]);
        if r.result.Ok? {
          MultisetHeadThenTail(multiset(Stored(e)), multiset(Stored(o.engine)), multiset(Stored(r.engine)), xs);
        }
      }
    }
  }

  /**
   * `push_iter` is `push` repeated: when it fails, it failed in the push of
   * some item `i`, every earlier push having succeeded, and no later item
   * was pushed.
   */
  lemma {:induction false} PushItemsStopsAtFirstError<T>(cmp: (T, T) -> Ordering, e: Engine<T>, xs: seq<T>, envs: seq<Env>)
    requires |envs| == |xs|
    ensures var o := PushItems(cmp, e, xs, envs);
            o.result.Err? ==>
              exists i :: && 0 <= i < |xs|
                          && PushItems(cmp, e, xs[..i], envs[..i]).result.Ok?
                          && o == PushItem(cmp, PushItems(cmp, e, xs[..i], envs[..i]).engine, xs[i], envs[i])
    decreases |xs|
  {
    var o := PushItems(cmp, e, xs, envs);
    if xs != [] && o.result.Err? {
      var p := PushItem(cmp, e, xs[0], envs[0]);
      assert xs[..0] == [] && envs[..0] == [];
      if p.result.Err? {
        assert o == p;
        ErrorAt(cmp, e, xs, envs, 0);
      } else {
        assert o == PushItems(cmp, p.engine, xs[1..], envs[1..]);
        PushItemsStopsAtFirstError(cmp, p.engine, xs[1..], envs[1..]);
        var i :| && 0 <= i < |xs[1..]|
                 && PushItems(cmp, p.engine, xs[1..][..i], envs[1..][..i]).result.Ok?
                 && o == PushItem(cmp, PushItems(cmp, p.engine, xs[1..][..i], envs[1..][..i]).engine, xs[1..][i], envs[1..][i]);
        PushItemsPrefix(cmp, e, xs, envs, i);
        ErrorAt(cmp, e, xs, envs, i + 1);
      }
    }
  }

  /** The existential of `PushItemsStopsAtFirstError`, introduced at a given index. */
  lemma ErrorAt<T>(cmp: (T, T) -> Ordering, e: Engine<T>, xs: seq<T>, envs: seq<Env>, i: nat)
    requires |envs| == |xs| && i < |xs|
    requires PushItems(cmp, e, xs[..i], envs[..i]).result.Ok?
    requires PushItems(cmp, e, xs, envs) == PushItem(cmp, PushItems(cmp, e, xs[..i], envs[..i]).engine, xs[i], envs[i])
    ensures exists j :: && 0 <= j < |xs|
                        && PushItems(cmp, e, xs[..j], envs[..j]).result.Ok?
                        && PushItems(cmp, e, xs, envs) == PushItem(cmp, PushItems(cmp, e, xs[..j], envs[..j]).engine, xs[j], envs[j])
  {
  }

  /** Pushing the first `i + 1` items is pushing the first one, then the next `i`. */
  lemma PushItemsPrefix<T>(cmp: (T, T) -> Ordering, e: Engine<T>, xs: seq<T>, envs: seq<Env>, i: nat)
    requires |envs| == |xs| && i + 1 < |xs|
    requires PushItem(cmp, e, xs[0], envs[0]).result.Ok?
    ensures var p := PushItem(cmp, e, xs[0], envs[0]).engine;
            && PushItems(cmp, e, xs[..i + 1], envs[..i + 1]) == PushItems(cmp, p, xs[1..][..i], envs[1..][..i])
            && xs[1..][i] == xs[i + 1] && envs[1..][i] == envs[i + 1]
  {
    assert xs[..i + 1][0] == xs[0] && envs[..i + 1][0] == envs[0];
    assert xs[..i + 1][1..] == xs[1..][..i] && envs[..i + 1][1..] == envs[1..][..i];
  }


  /** Pushes that never reach the threshold touch neither segments nor directories. */
  lemma {:induction false} PushBelowThreshold<T>(cmp: (T, T) -> Ordering, e: Engine<T>, xs: seq<T>, envs: seq<Env>)
    requires |envs| == |xs|
    requires |e.buffer| + |xs| <= e.options.segmentSize
    ensures PushItems(cmp, e, xs, envs) == Outcome(Ok(()), e.(buffer := e.buffer + xs, count := e.count + |xs|))
    decreases |xs|
  {
    if xs != [] {
      var e1 := e.(buffer := e.buffer + [xs[0]], count := e.count + 1);
      PushBelowThreshold(cmp, e1, xs[1..], envs[1..]);
      assert e1.buffer + xs[1..] == e.buffer + xs;
    }
  }

  /**
   * Once a sort directory is configured (by the caller, or by the creation
   * of the temporary directory) no push changes it or the temporary
   * directory again: a temporary directory is created at most once, and
   * never when the caller supplied a directory.
   */
  lemma {:induction false} ConfiguredDirIsKept<T>(cmp: (T, T) -> Ordering, e: Engine<T>, xs: seq<T>, envs: seq<Env>)
    requires |envs| == |xs|
    requires e.options.sortDir.Some?
    ensures var o := PushItems(cmp, e, xs, envs);
            o.engine.options == e.options && o.engine.tempdir == e.tempdir
    decreases |xs|
  {
    if xs != [] {
      var p := PushItem(cmp, e, xs[0], envs[0]);
      assert p.engine.options == e.options && p.engine.tempdir == e.tempdir;
      ConfiguredDirIsKept(cmp, p.engine, xs[1..], envs[1..]);
    }
  }

  /** `done` does not create a temporary directory when one is configured either. */
  lemma FinishKeepsConfiguredDir<T>(cmp: (T, T) -> Ordering, e: Engine<T>, env: Env)
    requires e.options.sortDir.Some?
    ensures var r := Finish(cmp, e, env);
            r.Ok? ==> r.value.tempdir == e.tempdir
  {
  }

  // ---------------------------------------------------------------------------
  // done
  // ---------------------------------------------------------------------------

  /**
   * The flush rule of `done`, both ways: a last segment is written (and the
   * segments merged) exactly when the buffer is non-empty and a segment
   * exists; otherwise the sorted buffer becomes the pass-through queue and
   * the segments are kept as they are. The iterator reports the count of
   * the sorter.
   */
  lemma FinishFlushRule<T>(cmp: (T, T) -> Ordering, e: Engine<T>, env: Env)
    ensures var r := Finish(cmp, e, env);
            r.Ok? ==>
              && r.value.count == e.count
              && (r.value.passThrough.None? <==> e.buffer != [] && e.segments != [])
              && (r.value.passThrough.Some? ==>
                    r.value.passThrough.value == SortBy(cmp, e.buffer) && r.value.files == Files(e.segments))
              && (r.value.passThrough.None? ==>
                    && |r.value.files| == |e.segments| + 1
                    && r.value.files[..|e.segments|] == Files(e.segments)
                    && r.value.files[|e.segments|] == Written(SortBy(cmp, e.buffer)))
  {
    var r := Finish(cmp, e, env);
    if r.Ok? && e.buffer != [] && e.segments != [] {
      SpillEffect(cmp, e, env);
      var o := Spill(cmp, e, env);
      assert Files(o.engine.segments)[..|e.segments|] == Files(e.segments);
    }
  }

  /** Without faults, `done` succeeds on any state the pushes leave. */
  lemma FinishSucceedsWithoutFault<T>(cmp: (T, T) -> Ordering, e: Engine<T>, env: Env)
    requires Inv(cmp, e) && env.fault == NoFault
    ensures Finish(cmp, e, env).Ok?
  {
    SpillEffect(cmp, e, env);
    if e.buffer != [] && e.segments != [] {
      var o := Spill(cmp, e, env);
      var fs := Files(o.engine.segments);
      forall k | 0 <= k < |fs| ensures |fs[k].items| > 0 {
        if k < |e.segments| {
          assert o.engine.segments[k] == e.segments[k];
        }
      }
    } else {
      var fs := Files(e.segments);
      assert forall k :: 0 <= k < |fs| ==> |fs[k].items| > 0;
    }
  }

  /** The segment files a successful `done` merges are clean, non-empty and sorted. */
  lemma FinishFilesClean<T(!new)>(cmp: (T, T) -> Ordering, e: Engine<T>, env: Env)
    requires TotalPreorder(cmp) && Inv(cmp, e)
    requires e.buffer != [] && e.segments != []
    requires Finish(cmp, e, env).Ok?
    ensures CleanFiles(cmp, Finish(cmp, e, env).value.files)
    ensures multiset(Flatten(FileItems(Finish(cmp, e, env).value.files))) == multiset(Stored(e))
  {
    var o := Spill(cmp, e, env);
    SpillEffect(cmp, e, env);
    SpillSorted(cmp, e, env);
    var segs := o.engine.segments;
    var fs := Files(segs);
    forall k | 0 <= k < |fs| ensures fs[k].end == UnexpectedEof && |fs[k].items| > 0 && SortedBy(cmp, fs[k].items) {
      if k < |e.segments| {
        assert segs[k] == e.segments[k];
      }
    }
    assert FileItems(fs) == SegmentItems(segs);
    var last := Segment(o.engine.options.sortDir.value, |e.segments|, SortBy(cmp, e.buffer));
    SegmentItemsAppend(e.segments, last);
  }

  /**
   * The end-to-end theorem of the push engine: when `done` succeeds on a
   * state the pushes left, with a non-empty buffer or no segment at all,
   * the iterator yields only `Ok` values, sorted by `cmp`, and they are
   * exactly the items the sorter holds.
   */
  lemma FinishSortedPermutation<T(!new)>(cmp: (T, T) -> Ordering, e: Engine<T>, env: Env)
    requires TotalPreorder(cmp) && Inv(cmp, e)
    requires e.buffer != [] || e.segments == []
    requires Finish(cmp, e, env).Ok?
    ensures var xs := OkValues(Outputs(cmp, Finish(cmp, e, env).value));
            && Outputs(cmp, Finish(cmp, e, env).value) == AllOk(xs)
            && SortedBy(cmp, xs)
            && multiset(xs) == multiset(Stored(e))
  {
    if e.segments == [] {
      FinishPassThrough(cmp, e, env);
    } else {
      FinishMerge(cmp, e, env);
    }
  }

  /** Without segments, `done` yields the sorted buffer. */
  lemma FinishPassThrough<T(!new)>(cmp: (T, T) -> Ordering, e: Engine<T>, env: Env)
    requires TotalPreorder(cmp) && e.segments == []
    requires Finish(cmp, e, env).Ok?
    ensures Outputs(cmp, Finish(cmp, e, env).value) == AllOk(SortBy(cmp, e.buffer))
    ensures OkValues(Outputs(cmp, Finish(cmp, e, env).value)) == SortBy(cmp, e.buffer)
    ensures SortedBy(cmp, SortBy(cmp, e.buffer)) && multiset(SortBy(cmp, e.buffer)) == multiset(Stored(e))
  {
    var st := Finish(cmp, e, env).value;
    assert st.passThrough == Some(SortBy(cmp, e.buffer));
    PassThroughOutputs(cmp, st);
    OkValuesAllOk(SortBy(cmp, e.buffer));
    SortByCorrect(cmp, e.buffer);
    assert Stored(e) == e.buffer;
  }

  /** With segments and a non-empty buffer, `done` flushes and merges every item held. */
  lemma FinishMerge<T(!new)>(cmp: (T, T) -> Ordering, e: Engine<T>, env: Env)
    requires TotalPreorder(cmp) && Inv(cmp, e)
    requires e.buffer != [] && e.segments != []
    requires Finish(cmp, e, env).Ok?
    ensures var xs := OkValues(Outputs(cmp, Finish(cmp, e, env).value));
            && Outputs(cmp, Finish(cmp, e, env).value) == AllOk(xs)
            && SortedBy(cmp, xs)
            && multiset(xs) == multiset(Stored(e))
  {
    var st := Finish(cmp, e, env).value;
    FinishFilesClean(cmp, e, env);
    var o := Spill(cmp, e, env);
    assert st == Iter.NewState(o.engine.tempdir, None, st.files, o.engine.count, env.fault).value;
    MergeIsSortedPermutation(cmp, o.engine.tempdir, st.files, o.engine.count, env.fault);
  }


  /**
   * The exception: when the last push spilled, so that the buffer is empty
   * while segments exist, `done` installs an empty pass-through queue and
   * the iterator yields nothing although the sorter holds items.
   */
  lemma FinishAfterExactSpillYieldsNothing<T>(cmp: (T, T) -> Ordering, e: Engine<T>, env: Env)
    requires Inv(cmp, e)
    requires e.buffer == [] && e.segments != []
    requires Finish(cmp, e, env).Ok?
    ensures |Stored(e)| > 0
    ensures Outputs(cmp, Finish(cmp, e, env).value) == []
  {
    SegmentItemsAppend(e.segments[..|e.segments| - 1], e.segments[|e.segments| - 1]);
    assert e.segments[..|e.segments| - 1] + [e.segments[|e.segments| - 1]] == e.segments;
    PassThroughOutputs(cmp, Finish(cmp, e, env).value);
  }

  /**
   * The intended `done` is the written one except when the buffer is empty
   * and segments exist; there it merges the segments in place of the empty
   * pass-through queue, and fails exactly when the written one fails.
   */
  lemma FinishFixedAgrees<T>(cmp: (T, T) -> Ordering, e: Engine<T>, env: Env)
    ensures e.buffer != [] || e.segments == [] ==> FinishFixed(cmp, e, env) == Finish(cmp, e, env)
    ensures e.buffer == [] && e.segments != [] ==>
              FinishFixed(cmp, e, env) == (if Finish(cmp, e, env).Ok?
                                           then Ok(Finish(cmp, e, env).value.(passThrough := None))
                                           else Finish(cmp, e, env))
  {
  }

  /**
   * The intended end-to-end theorem: whenever the intended `done` succeeds
   * on a state the pushes left, the iterator yields only `Ok` values,
   * sorted by `cmp`, and they are exactly the items the sorter holds.
   */
  lemma FinishFixedSortedPermutation<T(!new)>(cmp: (T, T) -> Ordering, e: Engine<T>, env: Env)
    requires TotalPreorder(cmp) && Inv(cmp, e)
    requires FinishFixed(cmp, e, env).Ok?
    ensures var xs := OkValues(Outputs(cmp, FinishFixed(cmp, e, env).value));
            && Outputs(cmp, FinishFixed(cmp, e, env).value) == AllOk(xs)
            && SortedBy(cmp, xs)
            && multiset(xs) == multiset(Stored(e))
  {
    if e.buffer != [] || e.segments == [] {
      FinishFixedAgrees(cmp, e, env);
      FinishSortedPermutation(cmp, e, env);
    } else {
      var fs := Files(e.segments);
      forall k | 0 <= k < |fs| ensures fs[k].end == UnexpectedEof && |fs[k].items| > 0 && SortedBy(cmp, fs[k].items) {
      }
      assert FileItems(fs) == SegmentItems(e.segments);
      assert Stored(e) == Flatten(SegmentItems(e.segments));
      MergeIsSortedPermutation(cmp, e.tempdir, fs, e.count, env.fault);
    }
  }

  /** Without faults, the intended `done` succeeds on any state the pushes leave. */
  lemma FinishFixedSucceedsWithoutFault<T>(cmp: (T, T) -> Ordering, e: Engine<T>, env: Env)
    requires Inv(cmp, e) && env.fault == NoFault
    ensures FinishFixed(cmp, e, env).Ok?
  {
    FinishSucceedsWithoutFault(cmp, e, env);
  }

  // ---------------------------------------------------------------------------
  // From a fresh sorter
  // ---------------------------------------------------------------------------

  /** Under the invariant the segment count and the buffer length are the quotient and remainder of the count. */
  lemma SegmentArithmetic<T>(cmp: (T, T) -> Ordering, e: Engine<T>)
    requires Inv(cmp, e)
    ensures |e.segments| == e.count / (e.options.segmentSize + 1)
    ensures |e.buffer| == e.count % (e.options.segmentSize + 1)
  {
    var m := e.options.segmentSize + 1;
    FlattenLength(SegmentItems(e.segments), m);
    assert e.count == m * |e.segments| + |e.buffer|;
    DivModUnique(e.count, m, |e.segments|, |e.buffer|);
  }

  /**
   * What successful pushes leave in a fresh sorter: the invariant holds,
   * every pushed item is held, and the options' sizes are unchanged.
   */
  lemma FreshPushes<T(!new)>(cmp: (T, T) -> Ordering, options: Options, xs: seq<T>, envs: seq<Env>)
    requires TotalPreorder(cmp) && |envs| == |xs|
    requires PushItems(cmp, Empty(options), xs, envs).result.Ok?
    ensures var e := PushItems(cmp, Empty(options), xs, envs).engine;
            && Inv(cmp, e)
            && e.count == |xs|
            && multiset(Stored(e)) == multiset(xs)
            && e.options.segmentSize == options.segmentSize
  {
    EmptyInv<T>(cmp, options);
    PushItemsPreservesInv(cmp, Empty(options), xs, envs);
    PushItemsKeepsSegmentSize(cmp, Empty(options), xs, envs);
  }

  /** What `done` reports: the sorter's count, and one segment file more than the spills when it flushes. */
  lemma FinishCounts<T>(cmp: (T, T) -> Ordering, e: Engine<T>, env: Env)
    requires Inv(cmp, e)
    requires Finish(cmp, e, env).Ok?
    ensures var st := Finish(cmp, e, env).value;
            var q := e.count / (e.options.segmentSize + 1);
            var r := e.count % (e.options.segmentSize + 1);
            && st.count == e.count
            && |st.files| == q + (if q > 0 && r > 0 then 1 else 0)
  {
    SegmentArithmetic(cmp, e);
    FinishFlushRule(cmp, e, env);
  }

  /**
   * Sorting `xs` with a fresh sorter: the pushes leave `|xs| / (S+1)`
   * segments and `|xs| % (S+1)` buffered items, `done` reports `|xs|` items
   * and the number of segment files the flush rule implies, and -- unless
   * `|xs|` is a positive multiple of `S+1` -- the output is a sorted
   * permutation of `xs`.
   */
  lemma SortEndToEnd<T(!new)>(cmp: (T, T) -> Ordering, options: Options, xs: seq<T>, envs: seq<Env>, env: Env)
    requires TotalPreorder(cmp) && |envs| == |xs|
    requires PushItems(cmp, Empty(options), xs, envs).result.Ok?
    requires Finish(cmp, PushItems(cmp, Empty(options), xs, envs).engine, env).Ok?
    ensures var e := PushItems(cmp, Empty(options), xs, envs).engine;
            && |e.segments| == |xs| / (options.segmentSize + 1)
            && |e.buffer| == |xs| % (options.segmentSize + 1)
    ensures var st := Finish(cmp, PushItems(cmp, Empty(options), xs, envs).engine, env).value;
            var q := |xs| / (options.segmentSize + 1);
            var r := |xs| % (options.segmentSize + 1);
            && st.count == |xs|
            && |st.files| == q + (if q > 0 && r > 0 then 1 else 0)
    ensures |xs| % (options.segmentSize + 1) != 0 || |xs| == 0 ==>
              var xs' := OkValues(Outputs(cmp, Finish(cmp, PushItems(cmp, Empty(options), xs, envs).engine, env).value));
              && Outputs(cmp, Finish(cmp, PushItems(cmp, Empty(options), xs, envs).engine, env).value) == AllOk(xs')
              && SortedBy(cmp, xs')
              && multiset(xs') == multiset(xs)
  {
    var e := PushItems(cmp, Empty(options), xs, envs).engine;
    FreshPushes(cmp, options, xs, envs);
    SegmentArithmetic(cmp, e);
    FinishCounts(cmp, e, env);
    if |xs| % (options.segmentSize + 1) != 0 || |xs| == 0 {
      FinishSortedPermutation(cmp, e, env);
    }
  }


  lemma {:induction false} PushItemsKeepsSegmentSize<T>(cmp: (T, T) -> Ordering, e: Engine<T>, xs: seq<T>, envs: seq<Env>)
    requires |envs| == |xs|
    ensures PushItems(cmp, e, xs, envs).engine.options.segmentSize == e.options.segmentSize
    ensures PushItems(cmp, e, xs, envs).engine.options.parallel == e.options.parallel
    decreases |xs|
  {
    if xs != [] {
      var p := PushItem(cmp, e, xs[0], envs[0]);
      PushItemsKeepsSegmentSize(cmp, p.engine, xs[1..], envs[1..]);
    }
  }

  /**
   * The exception from a fresh sorter: pushing a positive multiple of `S+1`
   * items and calling `done` yields an empty output.
   */
  lemma ExactMultipleLosesEverything<T(!new)>(cmp: (T, T) -> Ordering, options: Options, xs: seq<T>, envs: seq<Env>, env: Env)
    requires TotalPreorder(cmp) && |envs| == |xs|
    requires |xs| > 0 && |xs| % (options.segmentSize + 1) == 0
    requires PushItems(cmp, Empty(options), xs, envs).result.Ok?
    requires Finish(cmp, PushItems(cmp, Empty(options), xs, envs).engine, env).Ok?
    ensures Outputs(cmp, Finish(cmp, PushItems(cmp, Empty(options), xs, envs).engine, env).value) == []
  {
    var e := PushItems(cmp, Empty(options), xs, envs).engine;
    FreshPushes(cmp, options, xs, envs);
    SegmentArithmetic(cmp, e);
    FinishAfterExactSpillYieldsNothing(cmp, e, env);
  }


  /**
   * With the intended `done`, sorting any `xs` with a fresh sorter yields a
   * sorted permutation of `xs`, whatever its length.
   */
  lemma SortEndToEndFixed<T(!new)>(cmp: (T, T) -> Ordering, options: Options, xs: seq<T>, envs: seq<Env>, env: Env)
    requires TotalPreorder(cmp) && |envs| == |xs|
    requires PushItems(cmp, Empty(options), xs, envs).result.Ok?
    requires FinishFixed(cmp, PushItems(cmp, Empty(options), xs, envs).engine, env).Ok?
    ensures var out := Outputs(cmp, FinishFixed(cmp, PushItems(cmp, Empty(options), xs, envs).engine, env).value);
            && out == AllOk(OkValues(out))
            && SortedBy(cmp, OkValues(out))
            && multiset(OkValues(out)) == multiset(xs)
  {
    var e := PushItems(cmp, Empty(options), xs, envs).engine;
    FreshPushes(cmp, options, xs, envs);
    FinishFixedSortedPermutation(cmp, e, env);
  }

}
