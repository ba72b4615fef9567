/**
 * Properties of the older engine: the invariant of the loop of `sort`, the
 * lazy directory, the final flush rule, the segment arithmetic, and the
 * end-to-end theorem with its one exception.
 */
module SorterProofs {
  import opened Compare
  import opened Io
  import opened Seqs
  import opened Arith
  import opened Sorter

  /** Everything the loop holds: the segments in order, then the buffer. */
  function Stored<T>(run: Run<T>): seq<T> {
    Flatten(SegmentItems(run.segments)) + run.buffer
  }

  /**
   * What holds after every iteration of the loop: every consumed item is
   * held exactly once; the buffer holds at most `maxSize` items; segment k
   * is named k, holds exactly `maxSize + 1` items, sorted, and lives in the
   * cached directory; the cached directory is the configured one, or the
   * temporary directory when none is configured.
   */
  ghost predicate RunInv<T>(cmp: (T, T) -> Ordering, s: ExternalSorter, run: Run<T>) {
    && run.count == |Stored(run)|
    && |run.buffer| <= s.maxSize
    && (forall k :: 0 <= k < |run.segments| ==>
          && run.segments[k].name == k
          && |run.segments[k].items| == s.maxSize + 1
          && SortedBy(cmp, run.segments[k].items))
    && (run.segments != [] ==> run.sortDir.Some?)
    && (forall k :: 0 <= k < |run.segments| ==> Some(run.segments[k].dir) == run.sortDir)
    && (run.tempdir.Some? ==> s.sortDir.None? && run.sortDir == Some(run.tempdir.value.path))
    && (run.sortDir.Some? && s.sortDir.Some? ==> run.sortDir == s.sortDir)
  }

  lemma StartInv<T>(cmp: (T, T) -> Ordering, s: ExternalSorter)
    ensures RunInv(cmp, s, Start<T>()) && Stored(Start<T>()) == []
  {
  }

  /** Appending a segment appends its items (as `PushProofs.SegmentItemsAppend` does for the push engine). */
  lemma SegmentItemsAppend<T>(segs: seq<Segment<T>>, seg: Segment<T>)
    ensures Flatten(SegmentItems(segs + [seg])) == Flatten(SegmentItems(segs)) + seg.items
  {
    assert SegmentItems(segs + [seg]) == SegmentItems(segs) + [seg.items];
    FlattenAppend(SegmentItems(segs), seg.items);
  }

  /**
   * A successful spill moves the whole buffer, sorted, into one new segment
   * and keeps the invariant once the buffer held `maxSize + 1` items.
   */
  lemma SpillKeepsItems<T(!new)>(cmp: (T, T) -> Ordering, s: ExternalSorter, run: Run<T>, faults: seq<Fault>, freshDir: Path)
    requires TotalPreorder(cmp)
    ensures var r := Spill(cmp, s, run, faults, freshDir);
            r.Ok? ==> && multiset(Stored(r.value)) == multiset(Stored(run))
                      && |Stored(r.value)| == |Stored(run)|
                      && SortedBy(cmp, r.value.segments[|run.segments|].items)
                      && |r.value.segments[|run.segments|].items| == |run.buffer|
  {
    var r := Spill(cmp, s, run, faults, freshDir);
    if r.Ok? {
      SortByCorrect(cmp, run.buffer);
      SegmentItemsAppend(run.segments, Segment(r.value.sortDir.value, |run.segments|, SortBy(cmp, run.buffer)));
    }
  }

  /** A spill of a buffer that just exceeded `maxSize` keeps the invariant. */
  lemma SpillPreservesInv<T(!new)>(cmp: (T, T) -> Ordering, s: ExternalSorter, run: Run<T>, x: T, faults: seq<Fault>, freshDir: Path)
    requires TotalPreorder(cmp) && RunInv(cmp, s, run) && |run.buffer| == s.maxSize
    ensures var r1 := run.(count := run.count + 1, buffer := run.buffer + [x]);
            var r := Spill(cmp, s, r1, faults, freshDir);
            r.Ok? ==> && RunInv(cmp, s, r.value)
                      && multiset(Stored(r.value)) == multiset(Stored(run)) + multiset{x}
                      && |r.value.segments| == |run.segments| + 1
  {
    var r1 := run.(count := run.count + 1, buffer := run.buffer + [x]);
    var r := Spill(cmp, s, r1, faults, freshDir);
    assert Stored(r1) == Stored(run) + [x];
    if r.Ok? {
      SpillKeepsItems(cmp, s, r1, faults, freshDir);
      var r2 := r.value;
      assert r2.sortDir == r1.sortDir || (r1.sortDir.None? && run.segments == []);
      forall k | 0 <= k < |r2.segments|
        ensures && Some(r2.segments[k].dir) == r2.sortDir
                && r2.segments[k].name == k
                && |r2.segments[k].items| == s.maxSize + 1
                && SortedBy(cmp, r2.segments[k].items)
      {
        if k < |run.segments| {
          assert r2.segments[k] == run.segments[k];
        }
      }
    }
  }

  /**
   * One iteration of the loop: the item is counted and buffered; the buffer
   * is spilled exactly when it then exceeds `maxSize`, which empties it and
   * adds one segment; the invariant is kept and the item is held.
   */
  lemma FeedPreservesInv<T(!new)>(cmp: (T, T) -> Ordering, s: ExternalSorter, run: Run<T>, x: T, faults: seq<Fault>, freshDir: Path)
    requires TotalPreorder(cmp) && RunInv(cmp, s, run)
    ensures var r := Feed(cmp, s, run, x, faults, freshDir);
            r.Ok? ==>
              && RunInv(cmp, s, r.value)
              && multiset(Stored(r.value)) == multiset(Stored(run)) + multiset{x}
              && (|run.buffer| < s.maxSize ==> r.value == run.(count := run.count + 1, buffer := run.buffer + [x]))
              && (|run.buffer| >= s.maxSize ==> r.value.buffer == [] && |r.value.segments| == |run.segments| + 1)
  {
    var r1 := run.(count := run.count + 1, buffer := run.buffer + [x]);
    if |run.buffer| < s.maxSize {
      assert Stored(r1) == Stored(run) + [x];
    } else {
      SpillPreservesInv(cmp, s, run, x, faults, freshDir);
    }
  }

  /** A successful loop keeps the invariant and holds every consumed item. */
  lemma {:induction false} LoopPreservesInv<T(!new)>(cmp: (T, T) -> Ordering, s: ExternalSorter, run: Run<T>, xs: seq<T>,
                                                     faults: seq<Fault>, freshDir: Path)
    requires TotalPreorder(cmp) && RunInv(cmp, s, run)
    ensures var r := Loop(cmp, s, run, xs, faults, freshDir);
            r.Ok? ==> RunInv(cmp, s, r.value) && multiset(Stored(r.value)) == multiset(Stored(run)) + multiset(xs)
    decreases |xs|
  {
    var full := Loop(cmp, s, run, xs, faults, freshDir);
    if xs == [] {
      assert full == Ok(run);
    } else {
      var f := Feed(cmp, s, run, xs[0], faults, freshDir);
      if f.Ok? {
        FeedPreservesInv(cmp, s, run, xs[0], faults, freshDir);
        assert full == Loop(cmp, s, f.value, xs[1..], faults, freshDir);
        LoopPreservesInv(cmp, s, f.value, xs[1..], faults, freshDir);
        if full.Ok? {
          MultisetHeadThenTail(multiset(Stored(run)), multiset(Stored(f.value)), multiset(Stored(full.value)), xs);
        }
      }
    }
  }

  /**
   * Once a directory is cached, the loop neither changes it nor creates a
   * temporary directory: `lazy_create_dir` creates one at most once.
   */
  lemma {:induction false} CachedDirIsKept<T>(cmp: (T, T) -> Ordering, s: ExternalSorter, run: Run<T>, xs: seq<T>,
                                              faults: seq<Fault>, freshDir: Path)
    requires run.sortDir.Some?
    ensures var r := Loop(cmp, s, run, xs, faults, freshDir);
            r.Ok? ==> r.value.sortDir == run.sortDir && r.value.tempdir == run.tempdir
    decreases |xs|
  {
    if xs != [] {
      var f := Feed(cmp, s, run, xs[0], faults, freshDir);
      if f.Ok? {
        assert f.value.sortDir == run.sortDir && f.value.tempdir == run.tempdir;
        CachedDirIsKept(cmp, s, f.value, xs[1..], faults, freshDir);
      }
    }
  }

  /** While the buffer stays within `maxSize`, the loop spills nothing and resolves no directory. */
  lemma {:induction false} LoopBelowThreshold<T>(cmp: (T, T) -> Ordering, s: ExternalSorter, run: Run<T>, xs: seq<T>,
                                                 faults: seq<Fault>, freshDir: Path)
    requires |run.buffer| + |xs| <= s.maxSize
    ensures Loop(cmp, s, run, xs, faults, freshDir) == Ok(run.(count := run.count + |xs|, buffer := run.buffer + xs))
    decreases |xs|
  {
    if xs != [] {
      var r1 := run.(count := run.count + 1, buffer := run.buffer + [xs[0]]);
      assert Feed(cmp, s, run, xs[0], faults, freshDir) == Ok(r1);
      assert Loop(cmp, s, run, xs, faults, freshDir) == Loop(cmp, s, r1, xs[1..], faults, freshDir);
      LoopBelowThreshold(cmp, s, r1, xs[1..], faults, freshDir);
      assert r1.buffer + xs[1..] == run.buffer + xs;
      assert r1.count + |xs[1..]| == run.count + |xs|;
      assert r1.(count := r1.count + |xs[1..]|, buffer := r1.buffer + xs[1..])
          == run.(count := run.count + |xs|, buffer := run.buffer + xs);
    } else {
      assert run.buffer + xs == run.buffer;
    }
  }

  /**
   * The final flush rule, both ways: a last segment is written exactly when
   * the buffer is non-empty and a segment exists; otherwise the sorted
   * buffer becomes the pass-through queue. The iterator reports the count
   * of the loop.
   */
  lemma FinalizeFlushRule<T>(cmp: (T, T) -> Ordering, s: ExternalSorter, run: Run<T>, faults: seq<Fault>, freshDir: Path)
    ensures var r := Finalize(cmp, s, run, faults, freshDir);
            r.Ok? ==>
              && r.value.itemCount == run.count
              && (r.value.passThrough.None? <==> run.buffer != [] && run.segments != [])
              && (r.value.passThrough.Some? ==>
                    r.value.passThrough.value == SortBy(cmp, run.buffer) && r.value.segmentCount == |run.segments|)
              && (r.value.passThrough.None? ==> r.value.segmentCount == |run.segments| + 1)
  {
  }

  /**
   * An input that fits the buffer is sorted in memory: whatever the faults,
   * no directory is resolved, no segment is written, and the pass-through
   * queue is the sorted input.
   */
  lemma SortWithinBuffer<T>(cmp: (T, T) -> Ordering, s: ExternalSorter, xs: seq<T>, faults: seq<Fault>, freshDir: Path)
    requires |xs| <= s.maxSize
    ensures SortSpec(cmp, s, xs, faults, freshDir) == Ok(OldIterState(None, Some(SortBy(cmp, xs)), [], 0, |xs|))
  {
    LoopBelowThreshold(cmp, s, Start(), xs, faults, freshDir);
    assert Start<T>().buffer + xs == xs;
    assert Merge(cmp, Start<T>().segments) == [] by {
      assert Flatten(SegmentItems(Start<T>().segments)) == [];
    }
  }

  /** Without faults every spill succeeds, and so does `sort`. */
  lemma {:induction false} LoopSucceedsWithoutFault<T>(cmp: (T, T) -> Ordering, s: ExternalSorter, run: Run<T>, xs: seq<T>, freshDir: Path)
    ensures Loop(cmp, s, run, xs, [], freshDir).Ok?
    decreases |xs|
  {
    if xs != [] {
      var f := Feed(cmp, s, run, xs[0], [], freshDir);
      assert f.Ok?;
      LoopSucceedsWithoutFault(cmp, s, f.value, xs[1..], freshDir);
    }
  }

  lemma SortSucceedsWithoutFault<T>(cmp: (T, T) -> Ordering, s: ExternalSorter, xs: seq<T>, freshDir: Path)
    ensures SortSpec(cmp, s, xs, [], freshDir).Ok?
  {
    LoopSucceedsWithoutFault(cmp, s, Start(), xs, freshDir);
  }

  /** The old iterator yields the pass-through queue when there is one, and the merge otherwise. */
  lemma {:induction false} DrainYieldsQueueOrMerge<T>(st: OldIterState<T>)
    ensures Drain(st) == if st.passThrough.Some? then st.passThrough.value else st.merged
    decreases Size(st)
  {
    var r := NextOld(st);
    if r.0.Some? {
      DrainYieldsQueueOrMerge(r.1);
    }
  }

  /** The loop's segment count and buffer length are the quotient and remainder of its count. */
  lemma LoopArithmetic<T>(cmp: (T, T) -> Ordering, s: ExternalSorter, run: Run<T>)
    requires RunInv(cmp, s, run)
    ensures |run.segments| == run.count / (s.maxSize + 1)
    ensures |run.buffer| == run.count % (s.maxSize + 1)
  {
    FlattenLength(SegmentItems(run.segments), s.maxSize + 1);
    DivModUnique(run.count, s.maxSize + 1, |run.segments|, |run.buffer|);
  }

  /**
   * The end-to-end theorem of the older engine: under the natural order (a
   * total order), a successful `sort` of `xs` reports `|xs|` items and
   * `q + (1 if q > 0 and r > 0)` segments for `q, r` the quotient and
   * remainder of `|xs|` by `maxSize + 1`, and -- unless `|xs|` is a positive
   * multiple of `maxSize + 1` -- yields exactly `xs` sorted.
   */
  lemma SortCorrect<T(!new)>(cmp: (T, T) -> Ordering, s: ExternalSorter, xs: seq<T>, faults: seq<Fault>, freshDir: Path)
    requires TotalOrder(cmp)
    requires SortSpec(cmp, s, xs, faults, freshDir).Ok?
    ensures var st := SortSpec(cmp, s, xs, faults, freshDir).value;
            var q := |xs| / (s.maxSize + 1);
            var r := |xs| % (s.maxSize + 1);
            && st.itemCount == |xs|
            && st.segmentCount == q + (if q > 0 && r > 0 then 1 else 0)
    ensures |xs| % (s.maxSize + 1) != 0 || |xs| == 0 ==>
              Drain(SortSpec(cmp, s, xs, faults, freshDir).value) == SortBy(cmp, xs)
  {
    SortCounts(cmp, s, xs, faults, freshDir);
    if |xs| % (s.maxSize + 1) != 0 || |xs| == 0 {
      SortDrains(cmp, s, xs, faults, freshDir);
    }
  }

  /** The counts `SortCorrect` states. */
  lemma SortCounts<T(!new)>(cmp: (T, T) -> Ordering, s: ExternalSorter, xs: seq<T>, faults: seq<Fault>, freshDir: Path)
    requires TotalOrder(cmp)
    requires SortSpec(cmp, s, xs, faults, freshDir).Ok?
    ensures var st := SortSpec(cmp, s, xs, faults, freshDir).value;
            var q := |xs| / (s.maxSize + 1);
            var r := |xs| % (s.maxSize + 1);
            && st.itemCount == |xs|
            && st.segmentCount == q + (if q > 0 && r > 0 then 1 else 0)
  {
    var run := Loop(cmp, s, Start(), xs, faults, freshDir).value;
    StartInv<T>(cmp, s);
    LoopPreservesInv(cmp, s, Start(), xs, faults, freshDir);
    LoopArithmetic(cmp, s, run);
    FinalizeFlushRule(cmp, s, run, faults, freshDir);
  }

  /** The drained output `SortCorrect` states, outside the exact multiples. */
  lemma SortDrains<T(!new)>(cmp: (T, T) -> Ordering, s: ExternalSorter, xs: seq<T>, faults: seq<Fault>, freshDir: Path)
    requires TotalOrder(cmp)
    requires SortSpec(cmp, s, xs, faults, freshDir).Ok?
    requires |xs| % (s.maxSize + 1) != 0 || |xs| == 0
    ensures Drain(SortSpec(cmp, s, xs, faults, freshDir).value) == SortBy(cmp, xs)
  {
    var st := SortSpec(cmp, s, xs, faults, freshDir).value;
    var run := Loop(cmp, s, Start(), xs, faults, freshDir).value;
    StartInv<T>(cmp, s);
    LoopPreservesInv(cmp, s, Start(), xs, faults, freshDir);
    LoopArithmetic(cmp, s, run);
    FinalizeFlushRule(cmp, s, run, faults, freshDir);
    DrainYieldsQueueOrMerge(st);
    if run.segments == [] {
      assert Stored(run) == run.buffer;
      SortByCorrect(cmp, run.buffer);
      SortByUnique(cmp, xs, SortBy(cmp, run.buffer));
    } else {
      var r2 := Spill(cmp, s, run, faults, freshDir).value;
      SpillKeepsItems(cmp, s, run, faults, freshDir);
      assert Stored(r2) == Flatten(SegmentItems(r2.segments));
      var m := Merge(cmp, r2.segments);
      SortByCorrect(cmp, Flatten(SegmentItems(r2.segments)));
      SortByUnique(cmp, xs, m);
    }
  }

  /**
   * The exception: when `|xs|` is a positive multiple of `maxSize + 1` the
   * last iteration spills, the finalisation installs an empty pass-through
   * queue, and the iterator yields nothing although it reports `|xs|` items.
   */
  lemma ExactMultipleYieldsNothing<T(!new)>(cmp: (T, T) -> Ordering, s: ExternalSorter, xs: seq<T>, faults: seq<Fault>, freshDir: Path)
    requires TotalOrder(cmp)
    requires |xs| > 0 && |xs| % (s.maxSize + 1) == 0
    requires SortSpec(cmp, s, xs, faults, freshDir).Ok?
    ensures SortSpec(cmp, s, xs, faults, freshDir).value.itemCount == |xs|
    ensures Drain(SortSpec(cmp, s, xs, faults, freshDir).value) == []
  {
    var st := SortSpec(cmp, s, xs, faults, freshDir).value;
    var run := Loop(cmp, s, Start(), xs, faults, freshDir).value;
    StartInv<T>(cmp, s);
    LoopPreservesInv(cmp, s, Start(), xs, faults, freshDir);
    LoopArithmetic(cmp, s, run);
    DrainYieldsQueueOrMerge(st);
  }

  /** The intended finalisation differs from the written one only when the buffer is empty and segments exist. */
  lemma FinalizeFixedAgrees<T>(cmp: (T, T) -> Ordering, s: ExternalSorter, run: Run<T>, faults: seq<Fault>, freshDir: Path)
    ensures run.buffer != [] || run.segments == [] ==>
              FinalizeFixed(cmp, s, run, faults, freshDir) == Finalize(cmp, s, run, faults, freshDir)
    ensures run.buffer == [] && run.segments != [] ==>
              FinalizeFixed(cmp, s, run, faults, freshDir) == Ok(Finalize(cmp, s, run, faults, freshDir).value.(passThrough := None))
  {
    if run.segments == [] {
      assert Merge(cmp, run.segments) == [] by {
        assert Flatten(SegmentItems(run.segments)) == [];
      }
    }
  }

  /**
   * With the intended finalisation, a successful sort of any `xs` yields
   * exactly `xs` sorted by `cmp`, whatever its length.
   */
  lemma SortFixedCorrect<T(!new)>(cmp: (T, T) -> Ordering, s: ExternalSorter, xs: seq<T>, faults: seq<Fault>, freshDir: Path)
    requires TotalOrder(cmp)
    requires SortSpecFixed(cmp, s, xs, faults, freshDir).Ok?
    ensures SortSpecFixed(cmp, s, xs, faults, freshDir).value.itemCount == |xs|
    ensures Drain(SortSpecFixed(cmp, s, xs, faults, freshDir).value) == SortBy(cmp, xs)
  {
    var run := Loop(cmp, s, Start(), xs, faults, freshDir).value;
    StartInv<T>(cmp, s);
    LoopPreservesInv(cmp, s, Start(), xs, faults, freshDir);
    FinalizeFixedAgrees(cmp, s, run, faults, freshDir);
    if run.buffer != [] || run.segments == [] {
      assert SortSpecFixed(cmp, s, xs, faults, freshDir) == SortSpec(cmp, s, xs, faults, freshDir);
      LoopArithmetic(cmp, s, run);
      SortCorrect(cmp, s, xs, faults, freshDir);
    } else {
      var st := SortSpecFixed(cmp, s, xs, faults, freshDir).value;
      DrainYieldsQueueOrMerge(st);
      assert Stored(run) == Flatten(SegmentItems(run.segments));
      SortByCorrect(cmp, Flatten(SegmentItems(run.segments)));
      SortByUnique(cmp, xs, Merge(cmp, run.segments));
    }
  }
}
