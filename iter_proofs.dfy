/**
 * What the merge iterator of src/iter.rs guarantees: the head `next` picks
 * is a first minimum, every call makes progress, and, over sorted segments
 * that decode cleanly, the whole output is sorted and is a permutation of
 * the segments' contents.
 */
module IterProofs {
  import opened Compare
  import opened Io
  import opened Iter
  import opened Seqs

  // ---------------------------------------------------------------------------
  // The selection of the smallest head
  // ---------------------------------------------------------------------------

  /**
   * What the scan has established after position `i` with `best`: `best` is
   * a first minimum of the live heads before `i`.
   */
  ghost predicate FirstMinSoFar<T>(cmp: (T, T) -> Ordering, heads: seq<Option<T>>, i: nat, best: Option<nat>)
    requires i <= |heads|
  {
    match best
    case None => forall j :: 0 <= j < i ==> heads[j].None?
    case Some(b) =>
      && b < i && heads[b].Some?
      && (forall j :: 0 <= j < i && heads[j].Some? ==> Le(cmp, heads[b].value, heads[j].value))
      && (forall j :: 0 <= j < b && heads[j].Some? ==> cmp(heads[b].value, heads[j].value) == Less)
  }

  lemma {:induction false} ScanMinFirstMin<T(!new)>(cmp: (T, T) -> Ordering, heads: seq<Option<T>>, i: nat, best: Option<nat>)
    requires TotalPreorder(cmp)
    requires i <= |heads|
    requires best.Some? ==> best.value < |heads| && heads[best.value].Some?
    requires FirstMinSoFar(cmp, heads, i, best)
    ensures FirstMinSoFar(cmp, heads, |heads|, ScanMin(cmp, heads, i, best))
    decreases |heads| - i
  {
    if i < |heads| {
      if heads[i].None? {
        ScanMinFirstMin(cmp, heads, i + 1, best);
      } else if best.None? || cmp(heads[i].value, heads[best.value].value) == Less {
        var x := heads[i].value;
        if best.Some? {
          var b := best.value;
          var y := heads[b].value;
          forall j | 0 <= j < i + 1 && heads[j].Some? ensures Le(cmp, x, heads[j].value) {
            if j < i {
              assert Le(cmp, x, y);
              LeTrans(cmp, x, y, heads[j].value);
            }
          }
          forall j | 0 <= j < i && heads[j].Some? ensures cmp(x, heads[j].value) == Less {
            var z := heads[j].value;
            assert Le(cmp, y, z);
            if cmp(x, z) != Less {
              // z <= x, and x < y <= z, so y <= x: contradicts x < y.
              assert Le(cmp, z, x);
              LeTrans(cmp, y, z, x);
              assert false;
            }
          }
        }
        ScanMinFirstMin(cmp, heads, i + 1, Some(i));
      } else {
        var b := best.value;
        assert cmp(heads[b].value, heads[i].value) != Greater;
        ScanMinFirstMin(cmp, heads, i + 1, best);
      }
    }
  }

  /**
   * The head `next` selects is not after any other live head, and every live
   * head at a lower index is strictly after it: among equal heads the lowest
   * index wins. No head is selected exactly when none is live.
   */
  lemma SelectMinIsFirstMinimum<T(!new)>(cmp: (T, T) -> Ordering, heads: seq<Option<T>>)
    requires TotalPreorder(cmp)
    ensures SelectMin(cmp, heads).None? <==> forall j :: 0 <= j < |heads| ==> heads[j].None?
    ensures SelectMin(cmp, heads).Some? ==>
              var k := SelectMin(cmp, heads).value;
              && k < |heads| && heads[k].Some?
              && (forall j :: 0 <= j < |heads| && heads[j].Some? ==> Le(cmp, heads[k].value, heads[j].value))
              && (forall j :: 0 <= j < k && heads[j].Some? ==> cmp(heads[k].value, heads[j].value) == Less)
  {
    ScanMinFirstMin(cmp, heads, 0, None);
  }

  /** The two properties of `SelectMinIsFirstMinimum` pin the selected index down. */
  lemma FirstMinimumUnique<T(!new)>(cmp: (T, T) -> Ordering, heads: seq<Option<T>>, k: nat, m: nat)
    requires TotalPreorder(cmp)
    requires k < |heads| && heads[k].Some? && m < |heads| && heads[m].Some?
    requires forall j :: 0 <= j < |heads| && heads[j].Some? ==> Le(cmp, heads[k].value, heads[j].value)
    requires forall j :: 0 <= j < k && heads[j].Some? ==> cmp(heads[k].value, heads[j].value) == Less
    requires forall j :: 0 <= j < |heads| && heads[j].Some? ==> Le(cmp, heads[m].value, heads[j].value)
    requires forall j :: 0 <= j < m && heads[j].Some? ==> cmp(heads[m].value, heads[j].value) == Less
    ensures k == m
  {
    if k < m {
      assert false;
    } else if m < k {
      assert false;
    }
  }

  // ---------------------------------------------------------------------------
  // Progress: every call that yields something shrinks a measure
  // ---------------------------------------------------------------------------

  /** How many more `Some` a segment can contribute, at most. */
  function Pending<T>(f: SegmentFile<T>, c: nat, h: Option<T>): nat {
    if h.None? then 0 else if c <= |f.items| then 1 + |f.items| - c else 1
  }

  function SumPending<T>(files: seq<SegmentFile<T>>, cursors: seq<nat>, heads: seq<Option<T>>): nat
    requires |cursors| == |files| && |heads| == |files|
  {
    if files == [] then 0
    else Pending(files[0], cursors[0], heads[0]) + SumPending(files[1..], cursors[1..], heads[1..])
  }

  lemma {:induction false} SumPendingUpdate<T>(files: seq<SegmentFile<T>>, cursors: seq<nat>, heads: seq<Option<T>>,
                                               k: nat, c: nat, h: Option<T>)
    requires |cursors| == |files| && |heads| == |files| && k < |files|
    ensures SumPending(files, cursors[k := c], heads[k := h]) + Pending(files[k], cursors[k], heads[k])
         == SumPending(files, cursors, heads) + Pending(files[k], c, h)
  {
    if k > 0 {
      assert cursors[k := c][1..] == cursors[1..][k - 1 := c];
      assert heads[k := h][1..] == heads[1..][k - 1 := h];
      SumPendingUpdate(files[1..], cursors[1..], heads[1..], k - 1, c, h);
    } else {
      assert cursors[k := c][1..] == cursors[1..];
      assert heads[k := h][1..] == heads[1..];
    }
  }

  function Measure<T>(st: IterState<T>): nat
    requires WellFormed(st)
  {
    (if st.passThrough.Some? then |st.passThrough.value| else 0) + SumPending(st.files, st.cursors, st.heads)
  }

  lemma NextDecreases<T>(cmp: (T, T) -> Ordering, st: IterState<T>)
    requires WellFormed(st)
    requires NextStep(cmp, st).out.Some?
    ensures Measure(NextStep(cmp, st).next) < Measure(st)
  {
    if st.passThrough.None? {
      var k := SelectMin(cmp, st.heads).value;
      var s := NextStep(cmp, st);
      SumPendingUpdate(st.files, st.cursors, st.heads, k, s.next.cursors[k], s.next.heads[k]);
      assert s.next.cursors == st.cursors[k := s.next.cursors[k]];
      assert s.next.heads == st.heads[k := s.next.heads[k]];
    }
  }

  /**
   * Everything `next` returns, call after call, until it returns `None`:
   * never more results than items are still pending.
   */
  function Outputs<T>(cmp: (T, T) -> Ordering, st: IterState<T>): (r: seq<Result<T>>)
    requires WellFormed(st)
    ensures |r| <= Measure(st)
    decreases Measure(st)
  {
    var s := NextStep(cmp, st);
    if s.out.None? then []
    else
      NextDecreases(cmp, st);
      [s.out.value] + Outputs(cmp, s.next)
  }

  /** The values of the `Ok` results, in order. */
  function OkValues<T>(rs: seq<Result<T>>): seq<T> {
    if rs == [] then []
    else if rs[0].Ok? then [rs[0].value] + OkValues(rs[1..])
    else OkValues(rs[1..])
  }

  function AllOk<T>(xs: seq<T>): (rs: seq<Result<T>>) {
    if xs == [] then [] else [Ok(xs[0])] + AllOk(xs[1..])
  }

  lemma {:induction false} OkValuesAllOk<T>(xs: seq<T>)
    ensures OkValues(AllOk(xs)) == xs
  {
    if xs != [] {
      OkValuesAllOk(xs[1..]);
    }
  }

  // ---------------------------------------------------------------------------
  // Pass-through mode
  // ---------------------------------------------------------------------------

  /**
   * With a pass-through queue the iterator yields exactly the queue, in order,
   * as `Ok` values; the segment files and heads are never touched. An empty
   * queue ends the output at once, whatever segments exist.
   */
  lemma {:induction false} PassThroughOutputs<T>(cmp: (T, T) -> Ordering, st: IterState<T>)
    requires WellFormed(st) && st.passThrough.Some?
    ensures Outputs(cmp, st) == AllOk(st.passThrough.value)
    decreases |st.passThrough.value|
  {
    var q := st.passThrough.value;
    if q != [] {
      var s := NextStep(cmp, st);
      assert s.next.passThrough == Some(q[1..]);
      assert s.next.heads == st.heads && s.next.cursors == st.cursors;
      PassThroughOutputs(cmp, s.next);
    }
  }

  // ---------------------------------------------------------------------------
  // Merge mode over clean, sorted segments
  // ---------------------------------------------------------------------------

  /** A segment that decodes cleanly, is sorted, and whose cached head is its item before the cursor. */
  ghost predicate CleanSegment<T>(cmp: (T, T) -> Ordering, f: SegmentFile<T>, c: nat, h: Option<T>) {
    && f.end == UnexpectedEof
    && SortedBy(cmp, f.items)
    && (h.Some? ==> 1 <= c <= |f.items| && h.value == f.items[c - 1])
  }

  ghost predicate CleanMerge<T>(cmp: (T, T) -> Ordering, st: IterState<T>) {
    && WellFormed(st)
    && st.passThrough.None?
    && forall k :: 0 <= k < |st.files| ==> CleanSegment(cmp, st.files[k], st.cursors[k], st.heads[k])
  }

  /** What a segment has still to deliver: its cached head and every item after it. */
  function Rest<T>(f: SegmentFile<T>, c: nat, h: Option<T>): seq<T> {
    if h.Some? && 1 <= c <= |f.items| then f.items[c - 1..] else []
  }

  function Rests<T>(st: IterState<T>): (rs: seq<seq<T>>)
    requires WellFormed(st)
    ensures |rs| == |st.files|
    ensures forall k :: 0 <= k < |st.files| ==> rs[k] == Rest(st.files[k], st.cursors[k], st.heads[k])
  {
    seq(|st.files|, k requires 0 <= k < |st.files| => Rest(st.files[k], st.cursors[k], st.heads[k]))
  }

  /** Suffixes of a sorted sequence are sorted, and start with their least element. */
  lemma SortedSuffix<T(!new)>(cmp: (T, T) -> Ordering, s: seq<T>, i: nat)
    requires TotalPreorder(cmp)
    requires SortedBy(cmp, s) && i < |s|
    ensures SortedBy(cmp, s[i..])
    ensures LeAll(cmp, s[i], s[i..])
  {
    var t := s[i..];
    forall p, q | 0 <= p < q < |t| ensures Le(cmp, t[p], t[q]) {
      assert t[p] == s[i + p] && t[q] == s[i + q];
    }
    forall p | 0 <= p < |t| ensures Le(cmp, s[i], t[p]) {
      assert t[p] == s[i + p];
      if p == 0 {
        LeRefl(cmp, s[i]);
      }
    }
  }

  /** In a clean state a segment has something to deliver exactly when its head is live. */
  lemma RestsEmptyIff<T>(cmp: (T, T) -> Ordering, st: IterState<T>)
    requires CleanMerge(cmp, st)
    ensures Flatten(Rests(st)) == [] <==> forall j :: 0 <= j < |st.heads| ==> st.heads[j].None?
  {
    FlattenEmpty(Rests(st));
    forall j | 0 <= j < |st.heads| ensures Rests(st)[j] == [] <==> st.heads[j].None? {
      assert CleanSegment(cmp, st.files[j], st.cursors[j], st.heads[j]);
    }
  }

  /** The selected head comes before everything any segment still has to deliver. */
  lemma SelectedLeAll<T(!new)>(cmp: (T, T) -> Ordering, st: IterState<T>, k: nat)
    requires TotalPreorder(cmp) && CleanMerge(cmp, st)
    requires SelectMin(cmp, st.heads) == Some(k)
    ensures LeAll(cmp, st.heads[k].value, Flatten(Rests(st)))
  {
    SelectMinIsFirstMinimum(cmp, st.heads);
    var v := st.heads[k].value;
    var rs := Rests(st);
    forall j | 0 <= j < |rs| ensures LeAll(cmp, v, rs[j]) {
      if st.heads[j].Some? {
        var g := st.files[j];
        var h := st.heads[j].value;
        assert CleanSegment(cmp, g, st.cursors[j], st.heads[j]);
        SortedSuffix(cmp, g.items, st.cursors[j] - 1);
        assert Le(cmp, v, h);
        forall p | 0 <= p < |rs[j]| ensures Le(cmp, v, rs[j][p]) {
          LeTrans(cmp, v, h, rs[j][p]);
        }
      }
    }
    FlattenLeAll(cmp, v, rs);
  }

  /** Over clean segments, the step that selects segment `k` yields its head and moves that segment's cursor on. */
  lemma SelectedNext<T>(cmp: (T, T) -> Ordering, st: IterState<T>, k: nat)
    requires CleanMerge(cmp, st)
    requires SelectMin(cmp, st.heads) == Some(k)
    ensures k < |st.files| && st.heads[k].Some?
    ensures var s := NextStep(cmp, st);
            var f := st.files[k];
            var c := st.cursors[k];
            && s.out == Some(Ok(st.heads[k].value))
            && s.next == if c < |f.items| then st.(heads := st.heads[k := Some(f.items[c])], cursors := st.cursors[k := c + 1])
                         else st.(heads := st.heads[k := None])
  {
    assert CleanSegment(cmp, st.files[k], st.cursors[k], st.heads[k]);
  }

  /**
   * Over clean segments, the step that selects segment `k` yields its head,
   * keeps the state clean, and leaves that segment with the rest of what it
   * had to deliver.
   */
  lemma SelectedStep<T>(cmp: (T, T) -> Ordering, st: IterState<T>, k: nat)
    requires CleanMerge(cmp, st)
    requires SelectMin(cmp, st.heads) == Some(k)
    ensures var s := NextStep(cmp, st);
            && s.out == Some(Ok(st.heads[k].value))
            && CleanMerge(cmp, s.next)
            && Rests(st)[k] == [st.heads[k].value] + Rests(s.next)[k]
            && Rests(s.next) == Rests(st)[k := Rests(s.next)[k]]
  {
    SelectedNext(cmp, st, k);
    AdvanceClean(cmp, st, k, NextStep(cmp, st).next);
  }

  /** Moving segment `k` past its cached head keeps the state clean and takes that head off its rest. */
  lemma AdvanceClean<T>(cmp: (T, T) -> Ordering, st: IterState<T>, k: nat, n: IterState<T>)
    requires CleanMerge(cmp, st) && k < |st.files| && st.heads[k].Some?
    requires var f := st.files[k];
             var c := st.cursors[k];
             n == if c < |f.items| then st.(heads := st.heads[k := Some(f.items[c])], cursors := st.cursors[k := c + 1])
                  else st.(heads := st.heads[k := None])
    ensures CleanMerge(cmp, n)
    ensures Rests(st)[k] == [st.heads[k].value] + Rests(n)[k]
    ensures Rests(n) == Rests(st)[k := Rests(n)[k]]
  {
    var f := st.files[k];
    var c := st.cursors[k];
    assert CleanSegment(cmp, f, c, st.heads[k]);
    var t := Rests(n)[k];
    assert t == f.items[c..];
    assert Rests(st)[k] == f.items[c - 1..] == [st.heads[k].value] + t;
    forall j | 0 <= j < |n.files|
      ensures CleanSegment(cmp, n.files[j], n.cursors[j], n.heads[j])
      ensures Rests(n)[j] == Rests(st)[k := t][j]
    {
      if j != k {
        assert CleanSegment(cmp, st.files[j], st.cursors[j], st.heads[j]);
      }
    }
  }

  /**
   * One step over clean sorted segments: it yields nothing exactly when
   * nothing is left, and otherwise an `Ok` value that comes before everything
   * left, removing exactly that value and keeping the state clean.
   */
  lemma MergeStepClean<T(!new)>(cmp: (T, T) -> Ordering, st: IterState<T>)
    requires TotalPreorder(cmp) && CleanMerge(cmp, st)
    ensures var s := NextStep(cmp, st);
            && (s.out.None? <==> Flatten(Rests(st)) == [])
            && (s.out.Some? ==>
                  && s.out.value.Ok?
                  && CleanMerge(cmp, s.next)
                  && multiset(Flatten(Rests(st))) == multiset(Flatten(Rests(s.next))) + multiset{s.out.value.value}
                  && LeAll(cmp, s.out.value.value, Flatten(Rests(st))))
  {
    var s := NextStep(cmp, st);
    RestsEmptyIff(cmp, st);
    SelectMinIsFirstMinimum(cmp, st.heads);
    match SelectMin(cmp, st.heads)
    case None =>
      assert s.out.None?;
    case Some(k) =>
      var v := st.heads[k].value;
      SelectedStep(cmp, st, k);
      SelectedLeAll(cmp, st, k);
      var rs := Rests(st);
      var t := Rests(s.next)[k];
      var after := Rests(s.next);
      assert after == rs[k := t];
      FlattenUpdate(rs, k, t);
      assert multiset(rs[k]) == multiset{v} + multiset(t);
      var A := multiset(Flatten(rs));
      var B := multiset(Flatten(after));
      assert A + multiset(t) == (B + multiset{v}) + multiset(t);
      MultisetCancel(A, B + multiset{v}, multiset(t));
  }

  /**
   * Over segments that are sorted by a total preorder and decode cleanly,
   * every result is `Ok`, the values come out non-decreasing, and together
   * they are exactly what the segments still hold.
   */
  lemma {:induction false} MergeOutputs<T(!new)>(cmp: (T, T) -> Ordering, st: IterState<T>)
    requires TotalPreorder(cmp) && CleanMerge(cmp, st)
    ensures var xs := OkValues(Outputs(cmp, st));
            && Outputs(cmp, st) == AllOk(xs)
            && SortedBy(cmp, xs)
            && multiset(xs) == multiset(Flatten(Rests(st)))
    decreases Measure(st)
  {
    var s := NextStep(cmp, st);
    MergeStepClean(cmp, st);
    if s.out.Some? {
      var v := s.out.value.value;
      NextDecreases(cmp, st);
      MergeOutputs(cmp, s.next);
      var o := Outputs(cmp, s.next);
      assert Outputs(cmp, st) == [Ok(v)] + o;
      OkCons(cmp, v, o, OkValues(o), Flatten(Rests(st)), multiset(Flatten(Rests(s.next))));
    }
  }

  /** One more `Ok` value, no greater than anything left, extends a sorted run of `Ok` values. */
  lemma OkCons<T>(cmp: (T, T) -> Ordering, v: T, o: seq<Result<T>>, xs: seq<T>, all: seq<T>, m: multiset<T>)
    requires o == AllOk(xs) && SortedBy(cmp, xs) && multiset(xs) == m
    requires multiset(all) == m + multiset{v} && LeAll(cmp, v, all)
    ensures var ys := OkValues([Ok(v)] + o);
            && ys == [v] + xs
            && [Ok(v)] + o == AllOk(ys)
            && SortedBy(cmp, ys)
            && multiset(ys) == multiset(all)
  {
    assert ([Ok(v)] + o)[1..] == o;
    OkValuesAllOk(xs);
    assert ([v] + xs)[1..] == xs;
    LeAllSub(cmp, v, xs, all);
    SortedCons(cmp, v, xs);
  }

  /** The contents of the segment files, file by file (the projection `SegmentItems` makes of either engine's segments). */
  function FileItems<T>(files: seq<SegmentFile<T>>): (ss: seq<seq<T>>)
    ensures |ss| == |files| && forall k :: 0 <= k < |files| ==> ss[k] == files[k].items
  {
    seq(|files|, k requires 0 <= k < |files| => files[k].items)
  }

  /** Segments as the push engine leaves them: non-empty, sorted, cleanly terminated. */
  ghost predicate CleanFiles<T>(cmp: (T, T) -> Ordering, files: seq<SegmentFile<T>>) {
    forall k :: 0 <= k < |files| ==>
      files[k].end == UnexpectedEof && |files[k].items| > 0 && SortedBy(cmp, files[k].items)
  }

  /**
   * The iter.rs merge theorem: built over clean sorted segments and without a
   * pass-through queue, the iterator yields only `Ok` values, non-decreasing,
   * forming a permutation of the concatenated segments.
   */
  lemma MergeIsSortedPermutation<T(!new)>(cmp: (T, T) -> Ordering, tempdir: Option<TempDir>,
                                          files: seq<SegmentFile<T>>, count: nat, fault: Fault)
    requires TotalPreorder(cmp)
    requires CleanFiles(cmp, files)
    requires fault != SeekFault
    ensures NewState(tempdir, None, files, count, fault).Ok?
    ensures var xs := OkValues(Outputs(cmp, NewState(tempdir, None, files, count, fault).value));
            && Outputs(cmp, NewState(tempdir, None, files, count, fault).value) == AllOk(xs)
            && SortedBy(cmp, xs)
            && multiset(xs) == multiset(Flatten(FileItems(files)))
  {
    var st := NewState(tempdir, None, files, count, fault).value;
    assert CleanMerge(cmp, st) by {
      forall k | 0 <= k < |files| ensures CleanSegment(cmp, st.files[k], st.cursors[k], st.heads[k]) {
        assert st.cursors[k] == 1;
      }
    }
    assert Rests(st) == FileItems(files) by {
      forall k | 0 <= k < |files| ensures Rests(st)[k] == FileItems(files)[k] {
        assert st.cursors[k] == 1 && st.heads[k].Some?;
        assert files[k].items[0..] == files[k].items;
      }
    }
    MergeOutputs(cmp, st);
  }

  // ---------------------------------------------------------------------------
  // What one call changes, and when it ends the output
  // ---------------------------------------------------------------------------

  /**
   * `next` returns `None` exactly when the pass-through queue is empty, or,
   * without a queue, when no cached head is live.
   */
  lemma NextNoneIff<T>(cmp: (T, T) -> Ordering, st: IterState<T>)
    requires WellFormed(st)
    ensures NextStep(cmp, st).out.None? <==>
              if st.passThrough.Some? then st.passThrough.value == []
              else forall j :: 0 <= j < |st.heads| ==> st.heads[j].None?
  {
  }

  /**
   * With a queue, `next` only pops it. Without one, it changes only the
   * selected segment's head and cursor; a retired segment (no head) stays
   * retired; and the selected head is what it returns, unless decoding the
   * following record fails with anything but a clean end of file, in which
   * case that error is returned instead and the head is dropped.
   */
  lemma NextStepFrame<T>(cmp: (T, T) -> Ordering, st: IterState<T>)
    requires WellFormed(st)
    ensures var s := NextStep(cmp, st);
            st.passThrough.Some? ==> s.next.heads == st.heads && s.next.cursors == st.cursors
    ensures var s := NextStep(cmp, st);
            st.passThrough.None? && SelectMin(cmp, st.heads).Some? ==>
              var k := SelectMin(cmp, st.heads).value;
              var d := DecodeAt(st.files[k], st.cursors[k]);
              && s.next.passThrough == st.passThrough
              && (forall j :: 0 <= j < |st.heads| && j != k ==> s.next.heads[j] == st.heads[j] && s.next.cursors[j] == st.cursors[j])
              && (d.Item? ==> s.out == Some(Ok(st.heads[k].value)) && s.next.heads[k] == Some(d.value)
                              && s.next.cursors[k] == st.cursors[k] + 1)
              && (d == DecodeError(UnexpectedEof) ==> s.out == Some(Ok(st.heads[k].value)) && s.next.heads[k].None?)
              && (d.DecodeError? && d.error != UnexpectedEof ==> s.out == Some(Err(d.error)) && s.next.heads[k].None?)
    ensures var s := NextStep(cmp, st);
            forall j :: 0 <= j < |st.heads| && st.heads[j].None? ==> s.next.heads[j].None?
  {
  }

  /**
   * A corrupt second record: the first record decodes at construction, and the
   * very first `next` takes it as the head, fails to decode the second record,
   * and returns the error in its place; the first value is never yielded and
   * the segment is retired.
   */
  lemma CorruptSecondRecordDropsFirst<T>(cmp: (T, T) -> Ordering, a: T)
    ensures NewState(None, None, [SegmentFile([a], InvalidData)], 2, NoFault).Ok?
    ensures Outputs(cmp, NewState(None, None, [SegmentFile([a], InvalidData)], 2, NoFault).value) == [Err(InvalidData)]
  {
    var st := NewState(None, None, [SegmentFile([a], InvalidData)], 2, NoFault).value;
    assert st.heads == [Some(a)] && st.cursors == [1];
    var s := NextStep(cmp, st);
    assert SelectMin(cmp, st.heads) == Some(0);
    assert s.out == Some(Err(InvalidData));
    assert s.next.heads == [None];
    assert SelectMin(cmp, s.next.heads) == None;
    assert NextStep(cmp, s.next).out == None;
  }

  // ---------------------------------------------------------------------------
  // The corrected `next`: a decode error no longer loses the head
  // ---------------------------------------------------------------------------

  function FixedMeasure<T>(fs: FixedState<T>): nat
    requires WellFormed(fs.st)
  {
    2 * Measure(fs.st) + (if fs.pending.Some? then 1 else 0)
  }

  lemma NextFixedDecreases<T>(cmp: (T, T) -> Ordering, fs: FixedState<T>)
    requires WellFormed(fs.st)
    requires NextStepFixed(cmp, fs).out.Some?
    ensures FixedMeasure(NextStepFixed(cmp, fs).next) < FixedMeasure(fs)
  {
    if fs.pending.None? {
      NextDecreases(cmp, fs.st);
    }
  }

  /** Everything the corrected `next` returns, call after call, until it returns `None`. */
  function FixedOutputs<T>(cmp: (T, T) -> Ordering, fs: FixedState<T>): seq<Result<T>>
    requires WellFormed(fs.st)
    decreases FixedMeasure(fs)
  {
    var s := NextStepFixed(cmp, fs);
    if s.out.None? then []
    else
      NextFixedDecreases(cmp, fs);
      [s.out.value] + FixedOutputs(cmp, s.next)
  }

  /**
   * Where `next` reports a decode error in place of the head it took, the
   * corrected `next` yields that head (the first minimum of the live heads),
   * and the call after it reports the same error and leaves the state the
   * erroneous call left.
   */
  lemma FixedYieldsHeadThenError<T>(cmp: (T, T) -> Ordering, st: IterState<T>)
    requires WellFormed(st)
    requires NextStep(cmp, st).out.Some? && NextStep(cmp, st).out.value.Err?
    ensures st.passThrough.None? && SelectMin(cmp, st.heads).Some?
    ensures var k := SelectMin(cmp, st.heads).value;
            var f1 := NextStepFixed(cmp, FixedState(st, None));
            var f2 := NextStepFixed(cmp, f1.next);
            && f1.out == Some(Ok(st.heads[k].value))
            && f2.out == NextStep(cmp, st).out
            && f2.next == FixedState(NextStep(cmp, st).next, None)
  {
  }

  /** On files that all end cleanly, the corrected iterator yields exactly what `next` yields. */
  lemma {:induction false} FixedOutputsClean<T>(cmp: (T, T) -> Ordering, st: IterState<T>)
    requires WellFormed(st)
    requires forall k :: 0 <= k < |st.files| ==> st.files[k].end == UnexpectedEof
    ensures FixedOutputs(cmp, FixedState(st, None)) == Outputs(cmp, st)
    decreases Measure(st)
  {
    var s := NextStep(cmp, st);
    assert !(s.out.Some? && s.out.value.Err?);
    if s.out.Some? {
      NextDecreases(cmp, st);
      FixedOutputsClean(cmp, s.next);
    }
  }

  /**
   * The file of `CorruptSecondRecordDropsFirst` under the corrected `next`:
   * its first record is yielded, then the error, then nothing.
   */
  lemma CorruptSecondRecordKeepsFirst<T>(cmp: (T, T) -> Ordering, a: T)
    ensures NewState(None, None, [SegmentFile([a], InvalidData)], 2, NoFault).Ok?
    ensures FixedOutputs(cmp, FixedState(NewState(None, None, [SegmentFile([a], InvalidData)], 2, NoFault).value, None))
         == [Ok(a), Err(InvalidData)]
  {
    var st := NewState(None, None, [SegmentFile([a], InvalidData)], 2, NoFault).value;
    assert st.heads == [Some(a)] && st.cursors == [1];
    assert SelectMin(cmp, st.heads) == Some(0);
    var f1 := NextStepFixed(cmp, FixedState(st, None));
    assert f1.out == Some(Ok(a));
    var f2 := NextStepFixed(cmp, f1.next);
    assert f2.out == Some(Err(InvalidData));
    assert f2.next.st.heads == [None];
    assert SelectMin(cmp, f2.next.st.heads) == None;
    assert NextStepFixed(cmp, f2.next).out == None;
    assert FixedOutputs(cmp, f2.next) == [];
    assert FixedOutputs(cmp, f1.next) == [Err(InvalidData)] + FixedOutputs(cmp, f2.next);
    assert FixedOutputs(cmp, FixedState(st, None)) == [Ok(a)] + FixedOutputs(cmp, f1.next);
  }
}
