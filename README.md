# extsort: a verified model of an external merge sort

The model covers the two sorting engines of the `extsort` crate.

- **Push engine** (`src/push.rs`, `src/iter.rs`). Items are pushed into a
  `PushExternalSorter`. When its in-memory buffer holds more than
  `segment_size` items, the buffer is sorted with the caller's comparator
  and written as the next numbered segment file. The temporary directory
  for those files is created on the first spill. `done` either writes the
  remaining buffer as one last segment, or keeps it, sorted, as an
  in-memory pass-through queue. It then builds a `SortedIterator`. That
  iterator caches one decoded head per segment. Each call yields the
  smallest head, taking the lowest index among equal heads, and refills
  that segment.
- **Older engine** (`src/sorter.rs`). `ExternalSorter::sort` runs the same
  buffer / spill / finalise loop inside one function, over any iterator,
  under the items' natural order. It merges the segments with a k-way merge.
  Its test module supplies a four-byte little-endian codec for `u32`.

## Modules

- `Compare`: comparators `(T, T) -> Ordering`, total preorders and total
  orders, and `SortBy`, a deterministic insertion sort. `SortBy` stands for
  every call of `sort_unstable_by`, `par_sort_unstable_by`,
  `par_sort_unstable` and `sort_unstable`. It is proved sorted and a permutation. Under a total
  order it is proved to be the only sorted permutation.
- `Seqs` and `Arith`: concatenation of segments, and the uniqueness of
  quotient and remainder.
- `Io`: the values that stand for the file system.
  - `IoError` is the error kind.
  - `Fault` is the first I/O operation of a call that fails.
  - `Env` is the fault of one call plus the path a newly created temporary
    directory would get.
  - `SegmentFile(items, end)` is a segment as it reads back: its items,
    then what decoding past them gives (`UnexpectedEof` for a clean end).
- `Iter`: the push engine's iterator. Pure functions `ScanMin`,
  `SelectMin`, `NextStep`, `DecodeHeads` and `NewState` give what one
  construction or one `next` does. The class `SortedIterator` and the
  method `New` are the imperative code, and are proved to follow those
  functions.
- `IterProofs`: the selection rule, progress, the frame of `next`, and the
  merge theorem.
- `Push`: the state of a `PushExternalSorter` as a value (`Engine`), with
  pure functions `ResolveDir`, `Spill`, `PushItem`, `PushItems` and `Finish`.
  The class `PushExternalSorter` has methods `GetSortDir`,
  `SortAndWriteSegment`, `Push`, `PushIter` and `Done`. Each method is
  proved to leave exactly the state its function describes.
- `PushProofs`: the invariant the pushes keep, the flush rule of `done`,
  the segment arithmetic and the end-to-end theorem.
- `Sorter`: the older engine.
  - The configuration `ExternalSorter` is a datatype, since the setters
    only replace a field.
  - The local variables of `sort` are a `Run`, with pure functions
    `LazyDir`, `WriteSegment`, `Spill`, `Feed`, `Loop`, `Finalize` and
    `SortSpec`.
  - `LazyCreateDir`, `SortAndWriteSegment` and `Sort` are the imperative
    code.
  - The old `SortedIterator` is a class over what is still to be yielded.
- `SorterProofs`: the loop invariant, the flush rule, the arithmetic and
  the end-to-end theorem of the older engine.
- `SorterTests`: the `u32` codec and the two tests of `src/sorter.rs`,
  stated as lemmas.

How things outside the program are represented:

- The comparator is a function parameter. The proofs require it to be a total
  preorder; the older engine's proofs require the total order that `Ord`
  promises.
- File contents are values. Every I/O failure is an explicit parameter:
  - in the push engine, one per `push` and one for `done`;
  - in the older engine, `faults[k]` for the spill that writes segment `k`.
- The path of a created temporary directory is a parameter.
- `count` is an unbounded natural number.

## Model

| member | source | states |
|---|---|---|
| `Compare.SortByCorrect` | src/push.rs:107-112 | the in-memory sort yields a sequence sorted by the comparator, a permutation of the buffer, of the same length |
| `Compare.SortByUnique` | src/sorter.rs:165-172 | under a total order, any sorted permutation of the input equals `SortBy` of it; this justifies specifying the k-way merge as the sorted concatenation of the segments |
| `Push.PushExternalSorter.constructor` | src/push.rs:49-58 | a new sorter has the given options and comparator, no temporary directory, count 0, no segments and an empty buffer |
| `Push.Empty` | src/push.rs:49-58 | a new sorter keeps the options it is given and starts with no temporary directory, a count of 0, no segments and an empty buffer |
| `Push.ResolveDir` | src/push.rs:136-149 | a configured directory is returned and nothing changes; otherwise a temporary directory is created and becomes the configured directory; a failed creation changes nothing and reports the error |
| `Push.PushExternalSorter.GetSortDir` | src/push.rs:136-149 | the method returns what `ResolveDir` returns and leaves the state it describes |
| `Push.SortBuffer` | src/push.rs:107-112 | the parallel and the sequential branch both give `SortBy` of the buffer |
| `Push.WriteSorted` | src/push.rs:114-131 | writing a sorted buffer keeps the count, the segment size and the flag; on success it leaves the buffer empty and appends exactly one segment, in the resolved directory, named by the number of segments before it, holding the sorted buffer; on failure it appends none |
| `Push.Spill` | src/push.rs:106-132 | a spill keeps the count, the segment size and the parallel flag |
| `Push.PushExternalSorter.SortAndWriteSegment` | src/push.rs:106-132 | the method leaves exactly the state and result of `Spill`, including the early return from the drain loop on an encode error, which leaves the buffer empty |
| `Push.PushItem` | src/push.rs:74-83 | a push counts exactly one item |
| `Push.PushExternalSorter.Push` | src/push.rs:74-83 | the method leaves exactly the state and result of `PushItem` |
| `Push.PushItems` | src/push.rs:63-71 | a fully successful `push_iter` counts every item; a failed one counts at most all of them |
| `Push.PushExternalSorter.PushIter` | src/push.rs:63-71 | the method leaves exactly the state and result of `PushItems`, which is one `push` per item, stopping at the first error |
| `Push.PushExternalSorter.Done` | src/push.rs:85-104 | `done` fails exactly when `Finish` fails, with its error; on success it returns a fresh iterator in exactly the state `Finish` gives |
| `Push.Finish` | src/push.rs:85-104 | a successful `done` keeps the count; the iterator has no queue exactly when the buffer and the segments were both non-empty; with a queue, the queue is the sorted buffer and the files are the segments; without one, the files are the segments plus exactly one more |
| `PushProofs.EmptyInv` | src/push.rs:49-58 | a new sorter satisfies the invariant and holds nothing |
| `PushProofs.SpillEffect` | src/push.rs:106-132 | a spill succeeds exactly when no fault hits before its end; on success it appends one segment and empties the buffer; that segment is named by the number of earlier segments, lives in the resolved directory and holds the sorted buffer, a permutation of it; on failure no segment is added; a failure before the drain leaves the sorted buffer, a failure during or after it leaves it empty; the count never changes |
| `PushProofs.SpillSorted` | src/push.rs:106-132 | under a total preorder, the spilled segment is sorted |
| `PushProofs.SpillIgnoresParallel` | src/push.rs:106-131 | for any two sorted permutations of the buffer, standing for what the sequential and the parallel sort return, the two spills report the same result and leave the same count, directory, options (flag aside) and earlier segments; a new segment differs only in the order of its items, and a buffer left behind holds the same items; under a total order the two states are equal, flag aside |
| `PushProofs.PushAppends` | src/push.rs:74-83 | `push` appends exactly the item and adds one to the count; below the threshold that is all it does; at the threshold it spills the appended buffer |
| `PushProofs.PushPreservesInv` | src/push.rs:74-83 | a successful push keeps the invariant and holds the item in addition to everything held before. The invariant: the count equals the items held; the buffer has at most `segment_size` items; segment k is named k, holds `segment_size + 1` items, sorted, in the configured directory; a created temporary directory is the configured one |
| `PushProofs.PushItemsPreservesInv` | src/push.rs:63-71 | a successful `push_iter` keeps the invariant and holds exactly the pushed items added to what was held |
| `PushProofs.PushItemsStopsAtFirstError` | src/push.rs:63-71 | a failed `push_iter` failed in the push of some item i, after every earlier push succeeded, and pushed nothing after it |
| `PushProofs.PushBelowThreshold` | src/push.rs:78-80 | pushes that never exceed the threshold only append and count: no spill, no segment, no directory |
| `PushProofs.ConfiguredDirIsKept` | src/push.rs:136-149 | once a directory is configured, no push changes it or the temporary directory: at most one temporary directory is ever created, and none when the caller supplied a directory |
| `PushProofs.FinishKeepsConfiguredDir` | src/push.rs:136-149 | `done` creates no temporary directory when one is configured |
| `PushProofs.FinishFlushRule` | src/push.rs:85-104 | in both directions: a last segment is written exactly when the buffer is non-empty and a segment exists; otherwise the sorted buffer is the pass-through queue and the files are the segments; the iterator gets the sorter's count |
| `PushProofs.FinishSucceedsWithoutFault` | src/push.rs:85-104 | without faults, `done` succeeds on every state the pushes leave |
| `PushProofs.FinishFilesClean` | src/push.rs:85-104 | after the final spill every segment file is non-empty, sorted and cleanly terminated, and together they hold exactly what the sorter held |
| `PushProofs.FinishSortedPermutation` | src/push.rs:85-104 | when the buffer is non-empty or no segment exists, a successful `done` yields only `Ok` values, sorted, a permutation of everything pushed |
| `PushProofs.FinishAfterExactSpillYieldsNothing` | src/push.rs:88-94 | with an empty buffer and segments, the sorter holds items but the iterator yields nothing |
| `PushProofs.SegmentArithmetic` | src/push.rs:74-83 | under the invariant, the number of segments and the buffer length are the quotient and the remainder of the count by `segment_size + 1` |
| `PushProofs.FreshPushes` | src/push.rs:63-71 | a successful `push_iter` on a new sorter leaves the invariant holding, counts every item, holds exactly the pushed items and keeps the segment size |
| `PushProofs.FinishCounts` | src/push.rs:85-104 | a successful `done` reports the count of pushed items and q segment files, one more when q > 0 and a remainder was buffered, for q full segments of `segment_size + 1` |
| `PushProofs.SortEndToEnd` | src/push.rs:63-104 | from a new sorter, pushing n items leaves q = n / (S+1) segments and n % (S+1) buffered items, for S the segment size; a successful `done` reports n items and q segment files, plus one more when q > 0 and the remainder is positive; unless n is a positive multiple of S+1, the output is a sorted permutation of the input |
| `PushProofs.PushItemsKeepsSegmentSize` | src/push.rs:63-83 | pushes never change the segment size or the parallel flag |
| `PushProofs.ExactMultipleLosesEverything` | src/push.rs:85-104 | from a new sorter, pushing a positive multiple of S+1 items and calling `done` yields an empty output |
| `PushProofs.FinishFixedAgrees` | src/push.rs:85-104 | the intended `done` is the written one, except with an empty buffer and segments: there it has no pass-through queue, and fails exactly when the written one fails |
| `PushProofs.FinishFixedSortedPermutation` | src/push.rs:85-104 | with no condition on the buffer, a successful intended `done` yields only `Ok` values, sorted, a permutation of everything held |
| `PushProofs.FinishFixedSucceedsWithoutFault` | src/push.rs:85-104 | without faults, the intended `done` succeeds on every state the pushes leave |
| `PushProofs.SortEndToEndFixed` | src/push.rs:63-104 | with the intended `done`, sorting any `xs` from a new sorter yields a sorted permutation of `xs` |
| `Iter.ScanMin` | src/iter.rs:90-106 | the scan selects a live head; it selects none exactly when no head is live from the scan position on |
| `Iter.SelectMin` | src/iter.rs:90-106 | the selected index is that of a live head, and no index is selected exactly when no head is live |
| `Iter.DecodeHeads` | src/iter.rs:50-53 | decoding one head per file succeeds exactly when every file has a first record, and then gives each file's first record in order; otherwise it reports the end of the first file without one |
| `Iter.New` | src/iter.rs:39-65 | construction fails exactly when `NewState` fails, with its error; on success it returns a fresh iterator in exactly the state `NewState` gives |
| `Iter.NewState` | src/iter.rs:39-65 | construction succeeds exactly when no rewind fails and every file has a first record; it keeps the directory, the queue, the files and the count, caches each first record and puts every cursor after it; a rewind failure is reported before any decode, and any other failure is the end state of a file with no records |
| `Iter.SortedIterator.Next` | src/iter.rs:83-128 | the method returns exactly what `NextStep` returns and leaves the state it gives; it never changes `SortedCount` or `DiskSegmentCount` |
| `Iter.NextStep` | src/iter.rs:83-128 | one `next` keeps the files, the count and the directory, keeps one cursor and one head per file, and changes nothing when it returns `None` |
| `Iter.SortedIterator.Init` | src/iter.rs:57-64 | the iterator holds exactly the directory, queue, files, cursors, heads, count and comparator it is given |
| `Iter.SortedIterator.SortedCount` | src/iter.rs:67-70 | `sorted_count` is the count the iterator holds |
| `Iter.SortedIterator.DiskSegmentCount` | src/iter.rs:72-77 | `disk_segment_count` is the number of segment files the iterator holds |
| `IterProofs.SelectMinIsFirstMinimum` | src/iter.rs:90-106 | the selected head is not after any live head, and every live head at a lower index is strictly after it; no head is selected exactly when none is live |
| `IterProofs.FirstMinimumUnique` | src/iter.rs:99-104 | those two properties determine the selected index |
| `IterProofs.NextDecreases` | src/iter.rs:83-128 | every call that yields something reduces the number of items still in the queue or the segments |
| `IterProofs.Outputs` | src/iter.rs:80-128 | calling `next` until it returns `None` yields at most as many results as items are still pending, so iteration always ends |
| `IterProofs.PassThroughOutputs` | src/iter.rs:85-87 | with a queue, the iterator yields exactly the queue, in order, as `Ok` values, whatever the segments hold |
| `IterProofs.NextNoneIff` | src/iter.rs:83-128 | `next` returns `None` exactly when the queue is present and empty, or when the queue is absent and every cached head is `None` |
| `IterProofs.NextStepFrame` | src/iter.rs:108-124 | with a queue, `next` leaves heads and cursors alone; without one, it changes only the selected segment's head and cursor; a decoded record becomes the new head; a clean end retires the segment; any other error is returned in place of the taken head, which is lost; a retired segment stays retired |
| `IterProofs.CorruptSecondRecordDropsFirst` | src/iter.rs:110-121 | a segment whose second record is corrupt yields only the error: its first value is never returned |
| `Iter.NextStepFixed` | src/iter.rs:108-124 | the corrected `next` keeps one cursor and one head per file, the files and the count |
| `IterProofs.FixedYieldsHeadThenError` | src/iter.rs:108-124 | wherever `next` returns a decode error in place of the head it took, the corrected `next` returns that head, the call after it returns the same error, and the state is then the one `next` left |
| `IterProofs.FixedOutputsClean` | src/iter.rs:83-128 | over files that all end cleanly, the corrected iterator yields exactly what the iterator as written yields |
| `IterProofs.CorruptSecondRecordKeepsFirst` | src/iter.rs:108-124 | the segment whose second record is corrupt yields its first value and then the error under the corrected `next` |
| `IterProofs.MergeStepClean` | src/iter.rs:108-124 | over clean sorted segments, one step yields nothing exactly when nothing is left; otherwise it yields an `Ok` value no greater than anything left, removes exactly that value and keeps the segments clean |
| `IterProofs.MergeOutputs` | src/iter.rs:83-128 | over clean sorted segments, all outputs are `Ok`, non-decreasing, and a permutation of what the segments still hold |
| `IterProofs.MergeIsSortedPermutation` | src/iter.rs:39-128 | over non-empty, sorted, cleanly terminated segment files without a queue, construction succeeds and the output is all `Ok`, sorted, a permutation of the concatenated segments |
| `Sorter.New` | src/sorter.rs:31-36 | the defaults are a buffer of 10000 items and no configured directory |
| `Sorter.SetMaxSize` | src/sorter.rs:39-41 | only the buffer bound changes |
| `Sorter.SetSortDir` | src/sorter.rs:44-46 | only the directory changes |
| `Sorter.LazyDir` | src/sorter.rs:85-102 | a cached directory is returned unchanged; otherwise the configured directory is cached; with none configured a temporary directory is created and cached; a failed creation changes nothing |
| `Sorter.LazyCreateDir` | src/sorter.rs:85-102 | the method returns and writes back exactly what `LazyDir` gives |
| `Sorter.WriteSegment` | src/sorter.rs:104-135 | on success the sorted buffer is appended, named by the number of earlier segments, and the buffer is emptied; on failure no segment is added |
| `Sorter.SortAndWriteSegment` | src/sorter.rs:104-135 | the method returns exactly what `WriteSegment` gives |
| `Sorter.Spill` | src/sorter.rs:63-66 | a successful spill keeps the count, empties the buffer and appends the sorted buffer, named by the number of earlier segments, in the cached directory |
| `Sorter.Feed` | src/sorter.rs:60-66 | one iteration counts one item |
| `Sorter.Loop` | src/sorter.rs:60-67 | a successful loop counts every input item |
| `Sorter.Sort` | src/sorter.rs:49-81 | `sort` fails exactly when `SortSpec` fails, with its error; on success it returns a fresh iterator in exactly the state `SortSpec` gives |
| `Sorter.Finalize` | src/sorter.rs:69-80 | a successful finalisation keeps the count; the iterator has no queue exactly when the buffer and the segments were both non-empty; with a queue, the queue is the sorted buffer and the segment count is unchanged; without one, one more segment is counted; a failure happens only in the final flush |
| `Sorter.SortSpec` | src/sorter.rs:49-81 | a successful `sort` reports as many items as it was given |
| `Sorter.SortedIterator.constructor` | src/sorter.rs:158-181 | the iterator holds the queue, the merge, the segment count and the item count it is built with |
| `Sorter.Merge` | src/sorter.rs:164-172 | the merge holds exactly the items of all segments, with their multiplicities |
| `Sorter.SortedIterator.SortedCount` | src/sorter.rs:183-185 | `sorted_count` is the item count the iterator holds |
| `Sorter.SortedIterator.SegmentCount` | src/sorter.rs:187-189 | `segment_count` is the segment count the iterator holds |
| `Sorter.NextOld` | src/sorter.rs:195-202 | `next` never changes the segment count or the item count |
| `Sorter.Drain` | src/sorter.rs:192-202 | draining the iterator yields as many items as the queue holds when there is one, and as the merge holds otherwise |
| `Sorter.SortedIterator.Next` | src/sorter.rs:195-202 | the method returns exactly what `NextOld` returns and leaves the state it gives |
| `Sorter.Start` | src/sorter.rs:54-59 | `sort` starts with no temporary or sort directory, a count of 0, no segment and an empty buffer |
| `SorterProofs.StartInv` | src/sorter.rs:54-59 | the loop starts in a state satisfying its invariant, with nothing held |
| `SorterProofs.SpillKeepsItems` | src/sorter.rs:63-66 | a successful spill keeps exactly the items held, and the new segment is the whole buffer, sorted |
| `SorterProofs.SpillPreservesInv` | src/sorter.rs:63-66 | a spill of a buffer that just exceeded `max_size` keeps the loop invariant, adds the new item and adds one segment |
| `SorterProofs.FeedPreservesInv` | src/sorter.rs:60-66 | one iteration buffers the item, spills exactly when the buffer then exceeds `max_size` (emptying it and adding one segment), and keeps the invariant. The invariant: the count equals the items held; the buffer has at most `max_size` items; segment k is named k, holds `max_size + 1` items, sorted, in the cached directory; the cached directory is the configured one, or else the temporary one |
| `SorterProofs.LoopPreservesInv` | src/sorter.rs:60-67 | a successful loop keeps the invariant and holds exactly the consumed items |
| `SorterProofs.CachedDirIsKept` | src/sorter.rs:85-102 | once a directory is cached, the loop changes neither it nor the temporary directory: at most one temporary directory is created |
| `SorterProofs.LoopBelowThreshold` | src/sorter.rs:60-67 | while the buffer stays within `max_size`, the loop only counts and buffers |
| `SorterProofs.FinalizeFlushRule` | src/sorter.rs:69-80 | in both directions: a last segment is written exactly when the buffer is non-empty and a segment exists; otherwise the sorted buffer is the queue; the item count is the loop's count |
| `SorterProofs.SortWithinBuffer` | src/sorter.rs:49-81 | an input of at most `max_size` items yields the sorted input as the queue, with no segment and no directory, whatever the faults |
| `SorterProofs.LoopSucceedsWithoutFault` | src/sorter.rs:60-67 | without faults the loop succeeds |
| `SorterProofs.SortSucceedsWithoutFault` | src/sorter.rs:49-81 | without faults `sort` succeeds |
| `SorterProofs.DrainYieldsQueueOrMerge` | src/sorter.rs:195-202 | the iterator yields the queue when there is one and the merge otherwise |
| `SorterProofs.LoopArithmetic` | src/sorter.rs:60-67 | under the invariant, the number of segments and the buffer length are the quotient and the remainder of the count by `max_size + 1` |
| `SorterProofs.SortCorrect` | src/sorter.rs:49-81 | a successful `sort` of n items reports n items and q = n / (`max_size` + 1) segments, plus one more when q > 0 and the remainder is positive; unless n is a positive multiple of `max_size` + 1, it yields exactly the input sorted |
| `SorterProofs.ExactMultipleYieldsNothing` | src/sorter.rs:71-77 | for a positive multiple of `max_size + 1` items, `sort` reports them all but yields nothing |
| `SorterProofs.FinalizeFixedAgrees` | src/sorter.rs:69-80 | the intended finalisation is the written one, except with an empty buffer and segments, where it has no pass-through queue |
| `SorterProofs.SortFixedCorrect` | src/sorter.rs:49-81 | with the intended finalisation, a successful `sort` of any input reports its length as the item count and yields exactly the input sorted |
| `SorterTests.EncodeU32` | src/sorter.rs:253-255 | `encode` writes four bytes whose little-endian value is the item |
| `SorterTests.DecodeU32` | src/sorter.rs:257-259 | `decode` gives `None` exactly on fewer than four bytes, and otherwise leaves the bytes after the first four |
| `SorterTests.DecodeEncode` | src/sorter.rs:252-260 | decoding an encoded value followed by any bytes gives the value back and leaves exactly those bytes |
| `SorterTests.EncodeDecode` | src/sorter.rs:252-260 | re-encoding what four bytes decode to gives those four bytes |
| `SorterTests.DigitsUnique` | src/sorter.rs:252-260 | a little-endian value determines its four bytes |
| `SorterTests.EncodeAll` | src/sorter.rs:123-125 | a segment of n items is 4n bytes |
| `SorterTests.DecodeAll` | src/sorter.rs:210-215 | the chunk reader decodes one value per whole four-byte record, and nothing from a shorter tail |
| `SorterTests.DecodeAllEncodeAll` | src/sorter.rs:205-215 | a chunk reader over a written segment, followed by fewer than four stray bytes, gives back exactly the items written |
| `SorterTests.NatOrdIsTotalOrder` | src/sorter.rs:144-147 | the natural order of `u32` is a total order |
| `SorterTests.ReversedIsPermutation` | src/sorter.rs:226-227 | the reversed range is a permutation of the range |
| `SorterTests.SortReversed` | src/sorter.rs:223-250 | sorting n-1, …, 0 without faults succeeds, yields 0, …, n-1, and uses the number of segments the arithmetic gives, whenever n is not a positive multiple of `max_size + 1` |
| `SorterTests.SmallerThanSegment` | src/sorter.rs:223-236 | `test_smaller_than_segment`: 100 reversed items with the defaults use 0 segments and come out as 0..100 |
| `SorterTests.MultipleSegments` | src/sorter.rs:238-250 | `test_multiple_segments`: 1000 reversed items with `max_size` 100 use 10 segments and come out as 0..1000 |

## Left out

- Real file I/O: opening, buffered writing, flushing, rewinding and reading
  files. A segment is the sequence of its items plus the outcome of reading
  past them. A failing operation is an explicit fault parameter.
- Deleting the temporary directory on drop. The model records only whether
  a temporary directory exists, and its path.
- Parallel sorting with rayon. Both sort branches of a spill are modelled
  by `SortBy`. `PushProofs.SpillIgnoresParallel` states what holds when the
  two branches return different sorted permutations.
- The internals of `itertools::kmerge`. `Sorter.Merge` is specified as the
  sorted concatenation of the segments, which under a total order is the
  only sorted permutation (`Compare.SortByUnique`). This does not depend on
  the segments being sorted, while `kmerge` gives a sorted result only over
  sorted inputs. Every segment the loop writes is sorted
  (`SorterProofs.RunInv`, kept by `SorterProofs.LoopPreservesInv`), so the
  two agree on every state the engine reaches.
- `SortBy`: `sort_unstable_by` may return any sorted permutation. The model
  fixes one algorithm, so the order it gives to items that compare `Equal`
  is one choice among several. The contracts that name `SortBy`'s result
  exactly depend on that choice: `Push.SortBuffer`, `Push.Finish`,
  `PushProofs.SpillEffect`, `PushProofs.FinishFlushRule`,
  `PushProofs.FinishPassThrough` (its first two ensures), `Sorter.WriteSegment`,
  `Sorter.Spill`, `Sorter.Finalize`, `SorterProofs.FinalizeFlushRule` and
  `SorterProofs.SortWithinBuffer`, and through them the class methods proved
  equal to those functions. `SorterProofs.SortCorrect`,
  `SorterProofs.SortDrains` and `SorterProofs.SortFixedCorrect` also name
  `SortBy`, but they require a total order. Under a total order, such as
  the older engine's `Ord`, every one of these holds for every sorted
  permutation, since that permutation is unique (`Compare.SortByUnique`).
  The sortedness and permutation results, the counting and loss lemmas and
  the findings use only sortedness and permutation.
- The u64 width of `count`, and the `usize` widths of `segment_size` and
  `max_size`. They are unbounded here, so overflow is not modelled.
- A panic of `encode` in the older engine (`unwrap` on a failed write). Its
  encode has no error path, so the model cannot fail there.
- Read errors in the older engine's chunk reader. `decode` returns
  `Option`, so a failed read ends a segment early without an error. The
  model reads every segment back exactly as written.
- `Default for ExternalSorter` (src/sorter.rs:138-142) is the same as
  `New`, and is not modelled separately.
- `Sorter.SortedIterator.Next`: its contract ties the iterator to the
  abstract merge, not to the per-reader heads of `kmerge`.
- Bench harnesses and `src/lib.rs` are not part of this model.

## Findings

| source | as written | input that shows it | evidently intended | confidence | as-written member | corrected member |
|---|---|---|---|---|---|---|
| src/push.rs:88-94 | `done` uses the buffer as a pass-through queue whenever it is empty, even when segments exist; `next` then returns the empty queue and never reads the segments (src/iter.rs:85-87) | `segment_size` 1, push two items, call `done`: the last push spilled both items into segment 0, the buffer is empty, and the iterator yields nothing although `sorted_count` is 2 | merge the segments whenever any exist; use the queue only when no segment was written | not executed | `PushProofs.ExactMultipleLosesEverything` | `PushProofs.SortEndToEndFixed` |
| src/sorter.rs:71-77 | the same rule in `sort`: with an empty buffer and segments, the empty sorted buffer becomes the queue and the k-way merge is never consulted (src/sorter.rs:197-199) | `max_size` 100 and 101 (or 1010) items: every item is in a segment, the buffer is empty, and the iterator yields nothing although `sorted_count` is the item count | merge the segments whenever any exist | not executed | `SorterProofs.ExactMultipleYieldsNothing` | `SorterProofs.SortFixedCorrect` |
| src/iter.rs:108-124 | `next` takes the selected head out (line 110) before decoding the following record of that segment; when that decode fails with anything but a clean end of file, the error is returned in place of the head (lines 119-121), so the head's value is lost | a single segment holding one valid record followed by a corrupt one (`SegmentFile([a], InvalidData)`): the iterator yields only `Err(InvalidData)`, never `a` | yield the head, then report the error on the following call | not executed | `IterProofs.CorruptSecondRecordDropsFirst` | `IterProofs.FixedYieldsHeadThenError` |

The corrected definitions are `Push.FinishFixed` and
`Sorter.FinalizeFixed` (with `Sorter.SortSpecFixed`). The classes
`PushExternalSorter` and `Sorter.Sort` keep the behaviour as written, and
`FinishFixedAgrees` / `FinalizeFixedAgrees` pin down exactly how the two
versions differ. For the third row the corrected step is `Iter.NextStepFixed`.
It keeps a pending error beside the iterator state. Over files that all end
cleanly it yields what the code yields (`IterProofs.FixedOutputsClean`), and
on the corrupt segment above it yields `[Ok(a), Err(InvalidData)]`
(`IterProofs.CorruptSecondRecordKeepsFirst`). The class `SortedIterator`
keeps the behaviour as written.
