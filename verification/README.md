# Rings, brigades, hooks and the stock response, verified

This project models the executable code that this repository's headers carry in macro bodies,
and the JSON printer of its stock servlet, and proves what they promise.

* **Rings** (`apr_ring.h`): intrusive circular lists.  An element is an object with one pair of
  pointers per link field; the sentinel of a ring head is an element like any other, so that
  `first->prev` and `last->next` are ordinary links.  Every macro is a method, statement by
  statement, with its pointer arguments re-read where the macro text re-reads them.  Its contract
  gives the whole memory afterwards as a value, and says that no other link field changed.
  Memory as a value is then shown to be partitioned into rings and detached sequences (`Rep`), and
  every run of macros to compute what a plain list model says.
* **Brigades** (`apr_buckets.h`, and the bodies in `srclib/apr-util/buckets`): rings of buckets with
  shared, counted data.  A brigade means a byte stream with the metadata buckets standing in it
  (`Meaning`); meanings in a row are again a meaning.  The operations are methods of a heap of
  buckets, proved against a step function on values; about that function: reference counts, freeing
  once, and what happens to the meaning of every brigade.  Emptying, partitioning at a byte,
  splitting, flattening, writing and taking a line are loops and sequences of those steps.
* **A client of brigades** (`apr_memcache.c`): taking a line and taking a value of known length off a
  connection, one after the other in any order, with what each needs of the last one kept.
* **Hooks** (`apr_hooks.h`, `apr_optional_hooks.h`, `apr_hooks.c`): the runners as loops over stateful
  functions, against one definition of a run that fixes the final state, the calls made and the
  value returned; and the sorting of a hook's functions by what they are to come before and after.
* **Alignment** (`apr_general.h`): the masking form of `APR_ALIGN` against multiples.
* **The stock response** (`assignment8.java`): the loops that build the JSON string, a reader
  written after RFC 8259 that undoes them, and exactly when the text is one record's alone.

| files | content |
|---|---|
| `Sequences` | what several parts say about sequences |
| `RingElem`, `LinkMemory`, `RingMacros` | elements; memory, paths and rings; the macros |
| `RingLists`, `RingRuns` | the list model; runs, several rings and several link fields |
| `RingUndo`, `RingWalk`, `RingSweep` | undoing removals; iterators and checker; removal while iterating |
| `BucketStore`, `BrigadeMeaning` | buckets and reference counts; streams and marks |
| `BrigadeWorld`, `BrigadeStreams`, `BrigadeSplits` | brigades and buckets together; what operations mean; brigades emptied and parted |
| `BrigadeWrites`, `BrigadeLines` | bytes written into shared blocks; lines handed over, and who shares data then |
| `Brigades` | the bucket and brigade functions as methods |
| `Memcache` | lines and values taken off a connection |
| `Hooks`, `HookOrder`, `HookDepth` | registration and runners; orders that respect what comes before; the same order depth first |
| `HookSort`, `HookFiling` | the sorting functions; in which order they file what an item waits for |
| `Align` | `APR_ALIGN` |
| `Json`, `JsonLayout`, `StockJson`, `StockReader` | the reader; layouts and reading back; the printer; its inverse |
| `StockText`, `StockCount`, `StockDetermined` | texts without quotation marks in the strings; counting the marks; when a text is one record's alone |

The main results: `RingRuns.RunRefines`, `RingRuns.RunDenotes`, `RingRuns.OthersUntouched` and
`RingRuns.RunProgram`; `RingUndo.RingsRestored` with `RingUndo.TakeOutAndPutBack`;
`RingWalk.CheckElemConsistency`; `RingSweep.ForEachSafe` with `RingSweep.SweptAll`;
`BucketStore.RunFreesOnce`; `BrigadeWorld.RunInv`, `BrigadeWorld.RunFrees`;
`BrigadeStreams.QuietRunMeans`, `BrigadeStreams.SafeToDeleteIff`; `Brigades.BucketHeap.Partition` and
`Brigades.BucketHeap.SplitEx`, together in `Brigades.BucketHeap.PartitionAndSplit`;
`BrigadeWrites.WriteSafeIff` with `Brigades.BucketHeap.Write`; `Brigades.BucketHeap.SplitLine` and
`Brigades.BucketHeap.Flatten`, together in `Memcache.GetServerLine`, and `Memcache.TakeValue`;
`Hooks.RunnersAgree`, `Hooks.RunConcat`; `HookOrder.SortsIffAcyclic`, `HookSort.TsortFor`,
`HookSort.Tsort` with `HookSort.SortedRight`, `HookDepth.DepthFirst`, `HookFiling.FiledInOrder` and
`HookFiling.OneAsks`; `Align.AlignIsLeastMultipleIff`, `Align.AlignsIffPow2`;
`StockReader.ReadBackIff`, `StockReader.Recovered`, `StockReader.Respond`, `StockDetermined.SameTextIff` and
`StockDetermined.AloneIff`.

Where the code and its comments differ, the code is followed:

* The comments at `apr_ring.h` 221-222 and 238-239 say not to splice before the first or after the
  last element, yet lines 286-301 pass the sentinel itself to the same macros.  The contracts cover
  every element of a ring and the sentinel.
* The comments of the brigade insertion macros speak of a list of buckets; the macros insert one.
* A circle among the functions of a hook is not caught by the assertion in `tsort` that is meant for
  it: the assertion is reached in no round of the search, circle or not (`HookSort.Round`), and with a
  circle the search goes on whatever the number of rounds (`HookSort.SearchFor`,
  `HookSort.TsortFor`).  Two functions that each name the other as a predecessor are enough
  (`HookSort.TwoInACircle`).
* `apr_brigade_write` writes into the block of the brigade's last bucket without a look at the
  reference count.  Other buckets keep their bytes, whatever is written, if and only if none of them
  has bytes where it goes (`BrigadeWrites.WriteSafeIff`): so when the count is one
  (`BrigadeWrites.UnsharedClear`), and not behind the first half of a split bucket
  (`BrigadeWrites.SplitInTheWay`).
* The text of the stock response does not always determine the record.  A missing string is printed
  as the string "null" is, two items can be printed as one whose title has the rest in it, and with
  quotation marks in them whole fields can move.  For records without quotation marks the exact
  conditions are proved: two of them have the same text if and only if they agree once missing
  strings are taken for "null" (`StockDetermined.SameTextIff`); and the text of one is that of no
  other record at all if and only if none of its strings is missing or "null" and it has no more than
  one item (`StockDetermined.AloneIff`).

## Model

| member | source | states |
|---|---|---|
| RingElem.Elem.constructor | PHP/httpd-2.2.22/include/apr_ring.h:70-95 | an element carries one pair of pointers for each of its link fields, and nothing is said of what they hold; a sentinel is an element too |
| RingElem.Elem.CopyOf | PHP/httpd-2.2.22/srclib/apr-util/buckets/apr_buckets_simple.c:19-26 | a struct assigned from another has the same pointers |
| LinkMemory.RingIsUnique | PHP/httpd-2.2.22/include/apr_ring.h:123-135 | following the pointers round, a ring head denotes one list only |
| LinkMemory.SplicedPath | PHP/httpd-2.2.22/include/apr_ring.h:228-250 | putting a disjoint sequence at any seam of a path, the seam of an empty ring included, gives the path with the sequence in it; both keep their inner links |
| LinkMemory.UnsplicedPath | PHP/httpd-2.2.22/include/apr_ring.h:364-369 | taking a segment out closes the path up, and the segment keeps its inner links |
| RingMacros.Next | PHP/httpd-2.2.22/include/apr_ring.h:166-178 | `APR_RING_FIRST` of a head and `APR_RING_NEXT` of an element read the same field |
| RingMacros.Prev | PHP/httpd-2.2.22/include/apr_ring.h:171-183 | `APR_RING_LAST` of a head and `APR_RING_PREV` of an element read the same field |
| RingMacros.JoinedInSteps | PHP/httpd-2.2.22/include/apr_ring.h:228-250 | the four assignments come to one join in either macro's order, provided the sequence is not already next to the place |
| RingMacros.Init | PHP/httpd-2.2.22/include/apr_ring.h:192-195 | the head is linked to itself, and nothing else changes |
| RingMacros.IsEmpty | PHP/httpd-2.2.22/include/apr_ring.h:204-205 | true exactly when the head denotes the empty list |
| RingMacros.ElemInit | PHP/httpd-2.2.22/include/apr_ring.h:212-215 | the element is linked to itself, and nothing else changes |
| RingMacros.SpliceBefore | PHP/httpd-2.2.22/include/apr_ring.h:228-233 | exactly the four pointers at the two seams before `lep` change, although `PREV(lep)` is read again after writes |
| RingMacros.SpliceAfter | PHP/httpd-2.2.22/include/apr_ring.h:245-250 | exactly the four pointers at the two seams after `lep` change, although `NEXT(lep)` is read again after writes |
| RingMacros.InsertBefore | PHP/httpd-2.2.22/include/apr_ring.h:261-262 | one element joined in before another |
| RingMacros.InsertAfter | PHP/httpd-2.2.22/include/apr_ring.h:273-274 | one element joined in after another |
| RingMacros.SpliceHead | PHP/httpd-2.2.22/include/apr_ring.h:286-288 | a sequence joined in after the sentinel |
| RingMacros.SpliceTail | PHP/httpd-2.2.22/include/apr_ring.h:299-301 | a sequence joined in before the sentinel |
| RingMacros.InsertHead | PHP/httpd-2.2.22/include/apr_ring.h:311-312 | one element joined in after the sentinel |
| RingMacros.InsertTail | PHP/httpd-2.2.22/include/apr_ring.h:322-323 | one element joined in before the sentinel |
| RingMacros.Concat | PHP/httpd-2.2.22/include/apr_ring.h:332-339 | the first and last of `h2`, as they were before any write although each statement reads them again, are joined in before the sentinel of `h1`, and `h2` is reset; nothing happens when `h2` is empty |
| RingMacros.Prepend | PHP/httpd-2.2.22/include/apr_ring.h:348-355 | the same after the sentinel of `h1` |
| RingMacros.Unsplice | PHP/httpd-2.2.22/include/apr_ring.h:364-369 | only the two neighbours' pointers change; the ends taken out keep theirs |
| RingMacros.Remove | PHP/httpd-2.2.22/include/apr_ring.h:377-378 | the same for one element |
| RingLists.InsertRep | PHP/httpd-2.2.22/include/apr_ring.h:228-250 | a join keeps memory partitioned into rings and sequences, and inserts the sequence into the ring's list at that position |
| RingLists.CutRep | PHP/httpd-2.2.22/include/apr_ring.h:364-369 | a bridge keeps memory partitioned, and leaves the list without the segment and the segment as a sequence |
| RingLists.RefiledRep | PHP/httpd-2.2.22/include/apr_ring.h:123-135 | a ring may be written from any of its elements: the same memory, the same partition |
| RingLists.ResetRep | PHP/httpd-2.2.22/include/apr_ring.h:192-215 | initializing a head keeps memory partitioned: an empty ring, and what it led to as a sequence |
| RingLists.MoveRep | PHP/httpd-2.2.22/include/apr_ring.h:332-355 | the net effect of a concatenation keeps memory partitioned, with the whole list of `h2` inside that of `h1` and `h2` empty |
| RingRuns.Perform | PHP/httpd-2.2.22/include/apr_ring.h:192-378 | any one macro on the elements does to memory what the value-level step says, and leaves other link fields alone |
| RingRuns.MovedRep | PHP/httpd-2.2.22/include/apr_ring.h:332-355 | for distinct heads, `CONCAT` makes `h1` denote S1+S2, `PREPEND` S2+S1, `h2` the empty list, in all four empty and non-empty cases |
| RingRuns.AllRoundKept | PHP/httpd-2.2.22/include/apr_ring.h:364-378 | unsplicing a whole ring, or removing an element that is linked to itself, changes nothing |
| RingRuns.CutAcrossRep | PHP/httpd-2.2.22/include/apr_ring.h:364-378 | a stretch that goes across the element its ring is written from comes off like any other, that element included |
| RingRuns.CutOutRep | PHP/httpd-2.2.22/include/apr_ring.h:364-369 | unsplicing any stretch of a ring, from any element round to any other, leaves the ring without it, and the two ends were linked to their neighbours both ways |
| RingRuns.StepRefines | PHP/httpd-2.2.22/include/apr_ring.h:192-378 | every macro used as allowed stays within memory, keeps it partitioned, and does to the lists what the list model says |
| RingRuns.RunRefines | PHP/httpd-2.2.22/include/apr_ring.h:192-378 | the same over every run of macros on any number of rings at once |
| RingRuns.HeadDenotes | PHP/httpd-2.2.22/include/apr_ring.h:123-135 | in a partitioned memory each head's pointers go round exactly its list, both ways |
| RingRuns.RunDenotes | PHP/httpd-2.2.22/include/apr_ring.h:192-378 | after every run each head denotes the list that the list model gives it |
| RingRuns.WritesAreNamed | PHP/httpd-2.2.22/include/apr_ring.h:192-378 | a macro writes only elements of the rings and sequences it names |
| RingRuns.OthersUntouched | PHP/httpd-2.2.22/include/apr_ring.h:192-378 | a ring the macro does not name keeps its list and every pointer |
| RingRuns.PerformUse | PHP/httpd-2.2.22/include/apr_ring.h:61-74 | a macro through one link field leaves what every other link field holds as it was |
| RingRuns.RunProgram | PHP/httpd-2.2.22/include/apr_ring.h:145-148 | elements and heads that carry any of several link fields, macros through them interleaved in any way: each field ends as if only its own macros had been run |
| RingUndo.Resplice | PHP/httpd-2.2.22/include/apr_ring.h:245-250 | `SPLICE_AFTER(PREV(ep1), ep1, epN)` with its argument re-evaluated in each statement |
| RingUndo.RestoredIff | PHP/httpd-2.2.22/include/apr_ring.h:364-369 | unsplicing and putting back restores every pointer if and only if the segment was linked in both ways |
| RingUndo.SplicedAndUnspliced | PHP/httpd-2.2.22/include/apr_ring.h:228-250 | splicing in between `a` and `b` and unsplicing restores every pointer but the sequence's outer two, if and only if `a` and `b` were neighbours |
| RingUndo.UndoRestores | PHP/httpd-2.2.22/include/apr_ring.h:364-378 | any list of removals undone in reverse order restores every pointer |
| RingUndo.RingsRestored | PHP/httpd-2.2.22/include/apr_ring.h:364-378 | the same for whatever segments of whatever rings of a partitioned memory |
| RingUndo.UnspliceSpans | PHP/httpd-2.2.22/include/apr_ring.h:364-369 | the removals carried out on the elements, one after the other |
| RingUndo.RespliceSpans | PHP/httpd-2.2.22/include/apr_ring.h:245-250 | the sequences put back on the elements, the last one taken out first |
| RingUndo.TakeOutAndPutBack | PHP/httpd-2.2.22/include/apr_ring.h:245-250 | both on the elements: afterwards the link field of every element holds what it held before |
| Sequences.Pigeonhole | PHP/httpd-2.2.22/include/apr_ring.h:448-456 | a walk without repetition is no longer than the memory is large, and all of it when it is as long |
| RingWalk.NoLasso | PHP/httpd-2.2.22/include/apr_ring.h:448-456 | a walk whose checks passed cannot run back into itself except at its start |
| RingWalk.WalkInRing | PHP/httpd-2.2.22/include/apr_ring.h:448-456 | on a ring the checker's walk goes along the ring's list |
| RingWalk.CheckElemConsistency | PHP/httpd-2.2.22/include/apr_ring.h:448-456 | on any closed memory, however corrupted, the checker stops, and finds no fault if and only if the start lies on a simple cycle with `next` and `prev` inverse |
| RingWalk.CheckConsistency | PHP/httpd-2.2.22/include/apr_ring.h:444-446 | the same from the sentinel |
| RingWalk.ForEach | PHP/httpd-2.2.22/include/apr_ring.h:387-390 | terminates, and visits exactly the list of the head in order |
| RingWalk.BackwardIsReverse | PHP/httpd-2.2.22/include/apr_ring.h:166-183 | the walk from the last element along `prev` is the reverse of the walk from the first along `next` |
| RingSweep.OutRep | PHP/httpd-2.2.22/include/apr_ring.h:364-378 | removing and re-initializing an element takes exactly it off its list |
| RingSweep.SweptOneMore | PHP/httpd-2.2.22/include/apr_ring.h:400-403 | one round of the loop extends the swept part by one element |
| RingSweep.ForEachSafe | PHP/httpd-2.2.22/include/apr_ring.h:400-403 | with a body that removes and overwrites any chosen elements: terminates, visits every original element once in order, and leaves the swept memory |
| RingSweep.SweptAll | PHP/httpd-2.2.22/include/apr_ring.h:400-403 | in the swept memory the head denotes exactly the filtered list, the removed ones are alone, and other rings are as they were |
| BucketStore.SharedMadeValid | PHP/httpd-2.2.22/srclib/apr-util/buckets/apr_buckets_refcount.c:51-64 | a new counted resource with one bucket on a part of it keeps all counts right and all buckets within data, if and only if the part is within the block |
| BucketStore.CopiedValid | PHP/httpd-2.2.22/srclib/apr-util/buckets/apr_buckets_refcount.c:33-42 | a copy shares the data and keeps all counts right |
| BucketStore.SplitAtValid | PHP/httpd-2.2.22/srclib/apr-util/buckets/apr_buckets_refcount.c:19-31 | a split, refused or not, keeps all buckets within live data and all counts right |
| BucketStore.DestroyedValid | PHP/httpd-2.2.22/srclib/apr-util/buckets/apr_buckets_heap.c:31-39 | the resource of a destroyed bucket is freed if and only if no other live bucket refers to it |
| BucketStore.ExtendedValid | PHP/httpd-2.2.22/srclib/apr-util/buckets/apr_brigade.c:463-465 | bytes written behind those of a bucket in its block keep all buckets within data and all counts right |
| BucketStore.ActValid | PHP/httpd-2.2.22/include/apr_buckets.h:513-534 | every act keeps counts right and data live, and never takes back a freeing |
| BucketStore.FreedIffUnused | PHP/httpd-2.2.22/include/apr_buckets.h:216-223 | a resource has been freed if and only if no live bucket refers to it |
| BucketStore.RunFreesOnce | PHP/httpd-2.2.22/include/apr_buckets.h:513-534 | over every run: counts equal the live buckets sharing, no live bucket refers to freed data, each resource is freed at most once and just when its last bucket is gone |
| BrigadeMeaning.MeaningConcat | PHP/httpd-2.2.22/include/apr_buckets.h:229-242 | the stream of two lists in a row is one stream after the other, marks moved along |
| BrigadeMeaning.FollowedTwice | PHP/httpd-2.2.22/include/apr_buckets.h:229-242 | putting meanings in a row may be grouped in any way |
| BrigadeMeaning.SplitHalves | PHP/httpd-2.2.22/srclib/apr-util/buckets/apr_buckets_simple.c:28-46 | a split divides the bucket's bytes at the point |
| BrigadeMeaning.SplitOthers | PHP/httpd-2.2.22/srclib/apr-util/buckets/apr_buckets_simple.c:28-46 | a split leaves every other bucket's bytes and marks alone |
| BrigadeMeaning.SplitKeepsMeaning | PHP/httpd-2.2.22/srclib/apr-util/buckets/apr_buckets_simple.c:28-46 | the two halves in a row mean what the bucket meant |
| BrigadeMeaning.CopySegments | PHP/httpd-2.2.22/srclib/apr-util/buckets/apr_buckets_simple.c:19-26 | a copy has the same bytes, and no other bucket changes |
| BrigadeMeaning.DestroySegments | PHP/httpd-2.2.22/include/apr_buckets.h:979-987 | destroying a bucket leaves the bytes of all others alone, sharing or not |
| BrigadeMeaning.SafeToRemoveIff | PHP/httpd-2.2.22/include/apr_buckets.h:141-151 | taking any chosen buckets out keeps the bytes and marks if and only if each of them is empty and contains no metadata |
| BrigadeWorld.LinkInv | PHP/httpd-2.2.22/include/apr_buckets.h:353-434 | every list macro on brigades keeps memory partitioned and every brigade a ring of live buckets |
| BrigadeWorld.StepInv | PHP/httpd-2.2.22/include/apr_buckets.h:353-434 | every operation keeps the whole invariant: rings, brigades, live data, counts |
| BrigadeWorld.RunInv | PHP/httpd-2.2.22/include/apr_buckets.h:216-223 | so does every run of operations on any number of brigades |
| BrigadeWorld.RunStore | PHP/httpd-2.2.22/include/apr_buckets.h:216-223 | moving buckets between brigades does not concern their data: a run does to data and counts what its acts on buckets alone do |
| BrigadeWorld.RunFrees | PHP/httpd-2.2.22/include/apr_buckets.h:513-534 | over every run on any brigades: each resource is live or freed, once, and freed if and only if no live bucket refers to it |
| BrigadeStreams.ConcatMeans | PHP/httpd-2.2.22/include/apr_buckets.h:380-383 | the stream of `b` follows that of `a`, `b` is empty, no other brigade changes |
| BrigadeStreams.PrependMeans | PHP/httpd-2.2.22/include/apr_buckets.h:390-393 | the stream of `b` precedes that of `a`, `b` is empty, no other brigade changes |
| BrigadeStreams.InsertTailMeans | PHP/httpd-2.2.22/include/apr_buckets.h:369-373 | one bucket's bytes or mark appended, no other brigade changes |
| BrigadeStreams.InsertHeadMeans | PHP/httpd-2.2.22/include/apr_buckets.h:358-362 | one bucket's bytes or mark put first, no other brigade changes |
| BrigadeStreams.InsertBeforeMeans | PHP/httpd-2.2.22/include/apr_buckets.h:400-404 | one bucket's bytes or mark put just before a bucket, or last before the sentinel |
| BrigadeStreams.InsertAfterMeans | PHP/httpd-2.2.22/include/apr_buckets.h:411-415 | one bucket's bytes or mark put just after a bucket, or first after the sentinel |
| BrigadeStreams.RemoveMeans | PHP/httpd-2.2.22/include/apr_buckets.h:434 | the brigade loses exactly the bucket's own bytes or mark; no brigade changes when the bucket is on none |
| BrigadeStreams.DeleteMeans | PHP/httpd-2.2.22/include/apr_buckets.h:1000-1003 | so does deleting, whoever else shares the bucket's data; a bucket linked to itself may be deleted too, and no brigade changes then |
| BrigadeStreams.DestroyedElsewhere | PHP/httpd-2.2.22/include/apr_buckets.h:984-987 | destroying a bucket that is on no brigade changes no brigade |
| BrigadeStreams.SafeToDeleteIff | PHP/httpd-2.2.22/include/apr_buckets.h:442-448 | deleting a bucket keeps a brigade's meaning if and only if the bucket is not on it, or is empty and contains no metadata |
| BrigadeStreams.SplitMeans | PHP/httpd-2.2.22/srclib/apr-util/buckets/apr_buckets_simple.c:28-46 | a split at any point of any bucket changes no brigade's meaning |
| BrigadeStreams.CopyMeans | PHP/httpd-2.2.22/srclib/apr-util/buckets/apr_buckets_refcount.c:33-42 | a copy has the same bytes and changes no brigade |
| BrigadeStreams.QuietRunMeans | PHP/httpd-2.2.22/include/apr_buckets.h:141-151 | any interleaving of splits, copies, new buckets and deletions of empty buckets without metadata leaves every brigade's meaning as it was |
| BrigadeSplits.CleanupEmpties | PHP/httpd-2.2.22/srclib/apr-util/buckets/apr_brigade.c:37-48 | deleting every bucket of a brigade from the first on is possible, leaves it empty, and changes no other brigade and none of its data |
| BrigadeSplits.TailMoved | PHP/httpd-2.2.22/srclib/apr-util/buckets/apr_brigade.c:87-91 | the tail from a bucket on taken off one brigade and put in front of another: lists of both, all brigades still rings of live buckets, the others kept |
| BrigadeSplits.MarksBeforeData | PHP/httpd-2.2.22/srclib/apr-util/buckets/apr_brigade.c:104-188 | all metadata of a list that ends in data stand before its end |
| BrigadeSplits.PartedBySplit | PHP/httpd-2.2.22/srclib/apr-util/buckets/apr_brigade.c:141-154 | where the point falls within a bucket, the new bucket starts the second part |
| BrigadeSplits.PartedBetween | PHP/httpd-2.2.22/srclib/apr-util/buckets/apr_brigade.c:180-183 | where it falls just after a bucket, the next one or the sentinel does |
| BrigadeWrites.ExtendedPart | PHP/httpd-2.2.22/srclib/apr-util/buckets/apr_brigade.c:463-465 | the bucket has exactly the new bytes after its own |
| BrigadeWrites.WriteSafeIff | PHP/httpd-2.2.22/srclib/apr-util/buckets/apr_brigade.c:425-465 | every other bucket keeps its bytes, whatever is written, if and only if none has bytes where the write goes |
| BrigadeWrites.UnsharedClear | PHP/httpd-2.2.22/srclib/apr-util/buckets/apr_brigade.c:425-465 | with a reference count of one there is none |
| BrigadeWrites.SplitInTheWay | PHP/httpd-2.2.22/srclib/apr-util/buckets/apr_brigade.c:425-465 | after a split the second half has, for a write of any number of bytes behind the first |
| BrigadeWrites.ExtendGoesOn | PHP/httpd-2.2.22/srclib/apr-util/buckets/apr_brigade.c:463-465 | a write into the last bucket that has nothing in its way appends the bytes to the brigade's stream and changes no other brigade |
| BrigadeWrites.NewTailGoesOn | PHP/httpd-2.2.22/srclib/apr-util/buckets/apr_brigade.c:433-461 | a bucket made and inserted at the end appends its bytes and changes no other brigade |
| BrigadeLines.FirstMoved | PHP/httpd-2.2.22/srclib/apr-util/buckets/apr_brigade.c:333-336 | the first bucket moved: one stream loses its bytes or mark at the front, the other gains it at the end |
| BrigadeLines.FirstCopied | PHP/httpd-2.2.22/srclib/apr-util/buckets/apr_brigade.c:333-345 | the same when its bytes are written and the bucket destroyed |
| BrigadeLines.LineMoved | PHP/httpd-2.2.22/srclib/apr-util/buckets/apr_brigade.c:325-332 | a bucket split after its line feed and its first half moved: just those bytes go over |
| BrigadeLines.LineConfined | PHP/httpd-2.2.22/srclib/apr-util/buckets/apr_brigade.c:325-332 | then only the two halves share data with each other |
| BrigadeLines.PartitionShares | PHP/httpd-2.2.22/srclib/apr-util/buckets/apr_brigade.c:104-188 | after a partition of a brigade that shares no data, the second part shares data with the first only |
| BrigadeLines.ConfinedCleaned | PHP/httpd-2.2.22/srclib/apr-util/buckets/apr_brigade.c:37-48 | emptying the brigade that holds the other halves leaves the rest sharing no data, and its stream as it was |
| Brigades.BucketHeap.NewBrigade | PHP/httpd-2.2.22/srclib/apr-util/buckets/apr_brigade.c:56-69 | a fresh sentinel with nothing on its ring; no other brigade or bucket changes |
| Brigades.BucketHeap.SharedMake | PHP/httpd-2.2.22/srclib/apr-util/buckets/apr_buckets_refcount.c:51-64 | the bucket's fields are those given, and the resource is counted once |
| Brigades.BucketHeap.HeapCreate | PHP/httpd-2.2.22/srclib/apr-util/buckets/apr_buckets_heap.c:43-87 | a fresh bucket of the given length at the start of a block that no other bucket has, counted once, on no brigade; no other bucket or block changes |
| Brigades.BucketHeap.SimpleCreate | PHP/httpd-2.2.22/srclib/apr-util/buckets/apr_buckets_simple.c:56-119 | a fresh immortal or transient bucket over all its data, which is not counted |
| Brigades.BucketHeap.MetadataCreate | PHP/httpd-2.2.22/include/apr_buckets.h:1320-1353 | a fresh bucket of the named type, EOS or FLUSH, without data |
| Brigades.BucketHeap.InsertHead | PHP/httpd-2.2.22/include/apr_buckets.h:358-362 | links, lists and data become those of the step that `BrigadeStreams.InsertHeadMeans` gives the meaning of; no bucket field changes |
| Brigades.BucketHeap.InsertTail | PHP/httpd-2.2.22/include/apr_buckets.h:369-373 | likewise for `BrigadeStreams.InsertTailMeans` |
| Brigades.BucketHeap.InsertBefore | PHP/httpd-2.2.22/include/apr_buckets.h:400-404 | likewise for `BrigadeStreams.InsertBeforeMeans` |
| Brigades.BucketHeap.InsertAfter | PHP/httpd-2.2.22/include/apr_buckets.h:411-415 | likewise for `BrigadeStreams.InsertAfterMeans` |
| Brigades.BucketHeap.Remove | PHP/httpd-2.2.22/include/apr_buckets.h:434 | likewise for `BrigadeStreams.RemoveMeans` |
| Brigades.BucketHeap.Concat | PHP/httpd-2.2.22/include/apr_buckets.h:380-383 | likewise for `BrigadeStreams.ConcatMeans` |
| Brigades.BucketHeap.Prepend | PHP/httpd-2.2.22/include/apr_buckets.h:390-393 | likewise for `BrigadeStreams.PrependMeans` |
| Brigades.BucketHeap.SharedDestroy | PHP/httpd-2.2.22/srclib/apr-util/buckets/apr_buckets_refcount.c:44-49 | the count goes down by one; true if and only if it is now zero |
| Brigades.BucketHeap.Destroy | PHP/httpd-2.2.22/include/apr_buckets.h:984-987 | the bucket is gone, its resource too when it was the last; no link changes |
| Brigades.BucketHeap.Delete | PHP/httpd-2.2.22/include/apr_buckets.h:1000-1003 | removed, then destroyed, on a brigade or not: the step that `BrigadeStreams.DeleteMeans` gives the meaning of |
| Brigades.BucketHeap.Copy | PHP/httpd-2.2.22/srclib/apr-util/buckets/apr_buckets_refcount.c:33-42 | a new bucket with the fields of the original, the count one higher; its links are those of the original, and nothing points back at it |
| Brigades.BucketHeap.Split | PHP/httpd-2.2.22/srclib/apr-util/buckets/apr_buckets_refcount.c:19-31 | ENOTIMPL if and only if the bucket is metadata, EINVAL if and only if it is not and the point is beyond its length, with nothing changed; otherwise success, and the second half in a new bucket just after |
| Brigades.BucketHeap.SplitInTwo | PHP/httpd-2.2.22/srclib/apr-util/buckets/apr_buckets_simple.c:28-46 | the copy, the divided fields and the insertion after come to the step that `BrigadeStreams.SplitMeans` gives the meaning of |
| Brigades.BucketHeap.Cleanup | PHP/httpd-2.2.22/srclib/apr-util/buckets/apr_brigade.c:37-48 | the loop comes to deleting every bucket, first to last; terminates |
| Brigades.BucketHeap.SplitEx | PHP/httpd-2.2.22/srclib/apr-util/buckets/apr_brigade.c:71-96 | the first brigade keeps what comes before the bucket, the second, new or given and emptied, has the rest and nothing else; no other brigade changes |
| Brigades.BucketHeap.Partition | PHP/httpd-2.2.22/srclib/apr-util/buckets/apr_brigade.c:104-188 | EINVAL if and only if the point is negative, INCOMPLETE if and only if there are fewer bytes; otherwise the brigade is parted at that byte; no meaning changes |
| Brigades.BucketHeap.PartitionAndSplit | PHP/httpd-2.2.22/srclib/apr-util/memcache/apr_memcache.c:801-810 | both, one after the other: the first brigade keeps exactly the first `point` bytes and the metadata before them, the second has the rest, in a row they mean what the one meant, and no other brigade changes |
| Brigades.BucketHeap.Read | PHP/httpd-2.2.22/srclib/apr-util/buckets/apr_buckets_heap.c:21-29 | the bytes of the bucket, and none for metadata |
| Brigades.BucketHeap.Flatten | PHP/httpd-2.2.22/srclib/apr-util/buckets/apr_brigade.c:223-266 | exactly the first min(len, total) bytes of the stream are copied, the rest of the array is as it was, and their number is returned |
| Brigades.BucketHeap.BrigadeLength | PHP/httpd-2.2.22/srclib/apr-util/buckets/apr_brigade.c:190-221 | the number of bytes of the stream |
| Brigades.BucketHeap.Pflatten | PHP/httpd-2.2.22/srclib/apr-util/buckets/apr_brigade.c:268-302 | a new array of exactly the stream |
| Brigades.BucketHeap.Write | PHP/httpd-2.2.22/srclib/apr-util/buckets/apr_brigade.c:416-468 | the brigade's stream goes on with the bytes and no other brigade changes, unless the write is into a block where another bucket has bytes; the room is what the last bucket's block has left, or 8000 if that is no heap bucket; more than that goes into one new bucket over exactly the bytes, a transient one if and only if there is a flush function, which is called then, else a heap bucket on a block of its own; less goes behind the last bucket's bytes, or into a new block of 8000; no other bucket or block changes |
| Brigades.BucketHeap.FindLF | PHP/httpd-2.2.22/srclib/apr-util/buckets/apr_brigade.c:325 | the first line feed |
| Brigades.BucketHeap.PassFirst | PHP/httpd-2.2.22/srclib/apr-util/buckets/apr_brigade.c:333-345 | a bucket without a line feed goes over as it is if it is metadata or has more than 2000 bytes; otherwise its bytes do, and it is destroyed; the other buckets are as they were filed |
| Brigades.BucketHeap.SplitLine | PHP/httpd-2.2.22/srclib/apr-util/buckets/apr_brigade.c:304-354 | buckets go over from the front, and no further one once the bytes taken have reached the limit; without a line feed they are whole buckets, all there are or enough to reach the limit; with one, all but the last are whole, and of the last what comes up to the line feed, its rest left first in a new bucket; if the buckets share no data, just those bytes and marks end the one stream and are gone from the front of the other, and no other brigade changes |
| BrigadeLines.FrontMeans | PHP/httpd-2.2.22/srclib/apr-util/buckets/apr_brigade.c:314-351 | while no data is shared, what has gone over in the loop is what the buckets taken so far meant at the start |
| BrigadeLines.LimitedLine | PHP/httpd-2.2.22/srclib/apr-util/buckets/apr_brigade.c:325-351 | a line feed in the next bucket, with the limit not reached before it: what goes over ends within that bucket, and the buckets after it stay |
| Memcache.GetServerLine | PHP/httpd-2.2.22/srclib/apr-util/memcache/apr_memcache.c:568-589 | a connection that shares no data gives its next line, as much of it as the 512 bytes of the buffer hold, and keeps the rest: of its buckets no further one is taken once 512 bytes have been; it shares no data afterwards |
| Memcache.TakeValue | PHP/httpd-2.2.22/srclib/apr-util/memcache/apr_memcache.c:801-830 | so with a value of known length and its line end: exactly those bytes, or INCOMPLETE and nothing changed when there are fewer; the connection goes on with the rest and shares no data |
| Hooks.RanIsUnique | PHP/httpd-2.2.22/include/apr_hooks.h:222-250 | a chain run from a state has one outcome: final state, calls made, value |
| Hooks.SomeRun | PHP/httpd-2.2.22/include/apr_hooks.h:222-250 | and it has an outcome |
| Hooks.RunAllExternal | PHP/httpd-2.2.22/include/apr_hooks.h:222-250 | returns the first value other than ok and decline with nothing called after it; ok when there is none, even if the last function declined |
| Hooks.RunAllOptional | PHP/httpd-2.2.22/include/apr_optional_hooks.h:90-110 | the same specification for the early-return loop |
| Hooks.RunFirst | PHP/httpd-2.2.22/include/apr_hooks.h:267-295 | returns the first value other than decline with nothing called after it; decline when there is none |
| Hooks.RunVoid | PHP/httpd-2.2.22/include/apr_hooks.h:179-202 | calls every function in order, each in the state the one before left |
| Hooks.RunnersAgree | PHP/httpd-2.2.22/include/apr_optional_hooks.h:90-110 | the two RUN_ALL loops have the same final state, trace and value; RUN_FIRST is RUN_ALL with ok and decline both decline |
| Hooks.RunConcat | PHP/httpd-2.2.22/include/apr_hooks.h:267-295 | running X+Y is running X, then Y exactly when X came to the default value |
| Hooks.RegistrationOrder | PHP/httpd-2.2.22/include/apr_hooks.h:143-161 | each hook's chain is its registrations in order, and each hook is registered for sorting exactly once |
| Hooks.HookStruct.Hook | PHP/httpd-2.2.22/include/apr_hooks.h:143-161 | one registration: a new array and a sort registration the first time, then a push |
| Hooks.HookStruct.HookGet | PHP/httpd-2.2.22/include/apr_hooks.h:162-165 | the runner sees the hook's chain; a null pointer is the empty chain |
| HookOrder.FirstLeft | PHP/httpd-2.2.22/srclib/apr-util/hooks/apr_hooks.c:153-157 | the first item still waited for, none if and only if the count is zero |
| HookOrder.NoReturn | PHP/httpd-2.2.22/srclib/apr-util/hooks/apr_hooks.c:148-168 | without a circle the search never comes back to an item |
| HookOrder.PickedIsUnique | PHP/httpd-2.2.22/srclib/apr-util/hooks/apr_hooks.c:148-168 | the search ends at one item only |
| HookOrder.InTurnRespects | PHP/httpd-2.2.22/srclib/apr-util/hooks/apr_hooks.c:139-185 | items picked in turn are distinct, and each comes after all it waits for |
| HookOrder.InTurnIsUnique | PHP/httpd-2.2.22/srclib/apr-util/hooks/apr_hooks.c:139-185 | there is one such order |
| HookOrder.SortsIffAcyclic | PHP/httpd-2.2.22/srclib/apr-util/hooks/apr_hooks.c:139-185 | all items can be placed if and only if none wait for each other in a circle |
| HookOrder.CyclesGoOnForever | PHP/httpd-2.2.22/srclib/apr-util/hooks/apr_hooks.c:148-168 | with a circle some items can be placed, and then there is a path of hops of every length and no item to end at |
| HookDepth.VisitsInTurn | PHP/httpd-2.2.22/srclib/apr-util/hooks/apr_hooks.c:139-185 | visiting a list of items, before each one those it waits for, in the order listed, picks them as the search does, and none of those on the way to them |
| HookDepth.DepthFirst | PHP/httpd-2.2.22/srclib/apr-util/hooks/apr_hooks.c:130-185 | without a circle the one order that the search gives is the depth-first one: from the first item on, each just after those it waits for |
| HookDepth.OneWaits | PHP/httpd-2.2.22/srclib/apr-util/hooks/apr_hooks.c:130-185 | when only the first item waits for others: those, in the order listed, then the first, then the rest as they were |
| HookOrder.EndsInTime | PHP/httpd-2.2.22/srclib/apr-util/hooks/apr_hooks.c:148-168 | a search that has somewhere to end goes nowhere twice |
| HookSort.FirstPredecessor | PHP/httpd-2.2.22/srclib/apr-util/hooks/apr_hooks.c:153-164 | the two scans find the first predecessor not placed |
| HookSort.Round | PHP/httpd-2.2.22/srclib/apr-util/hooks/apr_hooks.c:148-168 | one round of the search, circle or not: it ends at the item picked, or goes one entry or one hop further; the assertion that there is no circle is not reached |
| HookSort.Search | PHP/httpd-2.2.22/srclib/apr-util/hooks/apr_hooks.c:148-168 | the search terminates, at the item picked, whenever there is one, which is always so without a circle |
| HookSort.SearchFor | PHP/httpd-2.2.22/srclib/apr-util/hooks/apr_hooks.c:148-168 | given up after a number of rounds, it has ended at no other item, and so not at all when there is none to pick; twice as many rounds as items are enough to end if and only if there is one |
| HookSort.ForgetItem | PHP/httpd-2.2.22/srclib/apr-util/hooks/apr_hooks.c:175-181 | no entry waits for the placed item any more, and the links of the list are kept |
| HookSort.Tsort | PHP/httpd-2.2.22/srclib/apr-util/hooks/apr_hooks.c:139-185 | without a circle: the entries are linked, from the head to a null pointer, in the one order in which the search picks them |
| HookSort.TsortFor | PHP/httpd-2.2.22/srclib/apr-util/hooks/apr_hooks.c:139-185 | with every search given up after a number of rounds: whatever the number, sorting is complete only without a circle, and then right; from twice as many rounds as items on, it is complete if and only if there is no circle |
| HookSort.PredListsIs | PHP/httpd-2.2.22/srclib/apr-util/hooks/apr_hooks.c:83-128 | an item waits for exactly the first items of the names it gives as predecessors, and those that name it first as a successor |
| HookSort.CircleIff | PHP/httpd-2.2.22/srclib/apr-util/hooks/apr_hooks.c:83-128 | the items wait for each other in a circle if and only if what the functions ask for is one |
| HookSort.TwoInACircle | PHP/httpd-2.2.22/srclib/apr-util/hooks/apr_hooks.c:83-128 | any two functions of different names that name each other as predecessors make one |
| HookSort.Prepare | PHP/httpd-2.2.22/srclib/apr-util/hooks/apr_hooks.c:83-128 | the entries hold exactly those lists in their order, without repetition, none placed |
| HookSort.SortHook | PHP/httpd-2.2.22/srclib/apr-util/hooks/apr_hooks.c:187-212 | the new array is a permutation of the items, in the depth-first order of what they wait for |
| HookSort.SortedRight | PHP/httpd-2.2.22/srclib/apr-util/hooks/apr_hooks.c:187-212 | it is a permutation of the old one, with each function after all that are to come before it |
| HookFiling.FiledInOrder | PHP/httpd-2.2.22/srclib/apr-util/hooks/apr_hooks.c:96-128 | an item waits for just those that are asked for, in the order in which they are asked for first: item by item in crude order, the names of the predecessors and then those of the successors, in their order |
| HookFiling.OneAsks | PHP/httpd-2.2.22/srclib/apr-util/hooks/apr_hooks.c:83-212 | when only the first function names others to come before it, they come first in the order of its first naming each, then it, then the rest in crude order |
| HookSort.CrudeOrderStays | PHP/httpd-2.2.22/srclib/apr-util/hooks/apr_hooks.c:130-138 | where nothing is asked for, the order by `nOrder` stays |
| HookSort.SortAll | PHP/httpd-2.2.22/srclib/apr-util/hooks/apr_hooks.c:239-254 | every hook registered for sorting is sorted so |
| Align.MaskIsRemainder | PHP/httpd-2.2.22/include/apr_general.h:135-140 | masking the low k bits away takes off the remainder by 2^k |
| Align.AlignIsLeastMultipleIff | PHP/httpd-2.2.22/include/apr_general.h:135-140 | for a power of two, in any word: the least multiple not below the size, if and only if the sum fits in the word |
| Align.AlignLaws | PHP/httpd-2.2.22/include/apr_general.h:135-140 | idempotent and monotone, for every size whose sum fits |
| Align.AlignedFits | PHP/httpd-2.2.22/include/apr_general.h:135-140 | what has been aligned can be aligned again |
| Align.AlignDefaultIff | PHP/httpd-2.2.22/include/apr_general.h:140 | the default boundary: the least multiple of 8, if and only if the sum fits |
| Align.AlignsIffPow2 | PHP/httpd-2.2.22/include/apr_general.h:135-140 | the macro aligns every size that fits if and only if the boundary is a power of two |
| Json.ReadClean | StockSearch Application/assignment8.java:87-88 | a string without quotation marks, backslashes and control characters is read back as itself (section 7 of RFC 8259) |
| Json.ReadOnlyClean | StockSearch Application/assignment8.java:87-88 | and no other string is |
| JsonLayout.TreeBack | StockSearch Application/assignment8.java:86-114 | values, objects and arrays of any depth and length are read back as meant exactly when all strings are there and clean, and nothing after them is consumed |
| JsonLayout.TextBackIff | StockSearch Application/assignment8.java:86-118 | the same for a whole text with trailing whitespace |
| StockJson.AddField | StockSearch Application/assignment8.java:87-105 | one more member, separated from the next by a comma unless it is the last |
| StockJson.AddQuote | StockSearch Application/assignment8.java:89-106 | the sixteen fields of the quote in order |
| StockJson.AddItems | StockSearch Application/assignment8.java:109-114 | the comma test yields a proper separator list for every number of items, none included |
| StockJson.WriteJson | StockSearch Application/assignment8.java:86-116 | the whole string is the layout of one object with its five members |
| StockJson.DoGet | StockSearch Application/assignment8.java:73-118 | from the items through the two arrays to the text of the record's layout |
| StockReader.ReadBackIff | StockSearch Application/assignment8.java:86-118 | the response is one JSON text that reads as the record written, if and only if every string is there and needs no escapes |
| StockReader.StockBack | StockSearch Application/assignment8.java:86-116 | the value meant has every field under its own name, and all items in order |
| StockReader.Recovered | StockSearch Application/search_stock.html:246-264 | for plain strings, taking the parts of the response by their names, as the page does, recovers the record |
| StockReader.Respond | StockSearch Application/assignment8.java:73-118 | the response is one JSON text in which a plain record has each of its strings under its own name: name, symbol, chart, the sixteen of the quote, and link and title of each item |
| StockReader.Injective | StockSearch Application/assignment8.java:86-116 | different records of plain strings are printed differently |
| StockReader.MissingCollides | StockSearch Application/assignment8.java:114-116 | a missing string and the string "null" are printed alike |
| StockText.RenderFilled | StockSearch Application/assignment8.java:86-116 | the text depends on the strings shown only |
| StockText.TextsAgree | StockSearch Application/assignment8.java:86-116 | layouts that differ in strings without quotation marks show the same strings if their texts are the same |
| StockCount.CountTree | StockSearch Application/assignment8.java:86-116 | the quotation marks of a text are those of its layout and those in its strings |
| StockDetermined.SameCounts | StockSearch Application/assignment8.java:109-114 | same texts: what one record has more in items, eight marks each, the other has in its strings |
| StockDetermined.SingleVersusNone | StockSearch Application/assignment8.java:109-114 | no record at all without items has the text of a record with one item and no quotation marks |
| StockDetermined.FilledCollide | StockSearch Application/assignment8.java:86-116 | records that agree once missing strings are taken for "null" have the same text |
| StockDetermined.SameTextIff | StockSearch Application/assignment8.java:86-116 | for records without quotation marks: and only those do |
| StockDetermined.AloneAmongQuoteFreeIff | StockSearch Application/assignment8.java:86-116 | among records without quotation marks, a text is one record's alone if and only if no string of it is missing or "null" |
| StockDetermined.AloneIff | StockSearch Application/assignment8.java:86-116 | among all records, if and only if moreover it has no more than one item |
| StockDetermined.ItemsCollide | StockSearch Application/assignment8.java:109-114 | every record with two items has the text of another with one item less |
| StockDetermined.FieldsCollide | StockSearch Application/assignment8.java:87-88 | with quotation marks, name and symbol can trade any text between them unseen |

## Left out

Rings:

- The address arithmetic of `APR_RING_SENTINEL` with `APR_OFFSETOF`, and `volatile`: the sentinel is an element, the link field a name.
- Concatenating a ring with itself: the last statement would detach its elements from the head.
- A sequence already next to the place it is spliced in: excluded, as the macros re-read what they have just written.
- `APR_RING_CHECK` and `APR_RING_CHECK_ELEM`, which print.  The assertions of the consistency checker are its result here, as if `NDEBUG` were not defined.
- RingSweep.ForEachSafe: the body removes and re-initializes chosen elements; bodies that insert, or that touch the saved next element, are not covered.

Brigades:

- A metadata bucket can be copied but not split, as the EOS and FLUSH types have it; other types whose functions differ are not modelled.
- Buckets of unknown length (-1), file, mmap, pipe, socket and pool buckets, `read` and `setaside`, and with them morphing; so the branches of the partition loop that read a bucket first.
- `apr_brigade_writev`, `apr_brigade_puts`, `apr_brigade_to_iovec` and printing; pool cleanups of a brigade.
- Brigades.BucketHeap.SplitLine: for brigades whose buckets share data the lists, the numbers of bytes and the acts are given, but not which bytes, as the copies it writes may then go over bytes of other buckets.
- Brigades.BucketHeap.Write: what the flush function does; an empty buffer is made with length 0, not set to it after it has been inserted.
- Memcache.GetServerLine: the zero put behind the line, and reading from the socket when the stream runs out; parsing of what the lines say.
- Brigades.BucketHeap.SplitEx: splitting a brigade into itself is excluded; the buckets would be deleted first.
- Allocation failure (`APR_ENOMEM`), and the widths of `apr_size_t`, `apr_off_t` and the `int` reference count.
- The fields of a bucket other than its links are filed in maps of `Brigades.BucketHeap` under the bucket, not stored in the element; a freed bucket's element stays behind as a detached element.
- The consistency checks that the brigade macros make when debugging is on: the checker itself is `RingWalk.CheckElemConsistency`.

Hooks:

- Functions that register hooks while a hook runs; `apr_hook_debug_show` and the probe macros; `apr_hook_deregister_all`; the table of optional hooks.
- HookSort.SortHook: `qsort` is not in the repository; what it leaves is a parameter, any permutation by ascending `nOrder`.  Overflow in its comparison of two orders is not modelled.
- HookSort.Tsort: pointers into the array of entries are indices; a list of no entries, where the program follows a null pointer, is excluded, and arrays of hooks are never empty.
- A hook function is a function of the state it can reach, its arguments included; all hooks of one structure share one state type.

Alignment:

- `APR_ALIGN` on signed or mixed types: sizes and boundaries are unsigned words of any width.

Stock response:

- The request, the fetched document and its XML, the writer, and the exceptions.
- Text is a sequence of UTF-16 code units; encoding to bytes is not modelled.
- The reader keeps the members of an object in order and with repetitions, and does not evaluate numbers.
- StockDetermined.AloneIff: for records with quotation marks in their strings only collisions are shown; whether such a text is one record's alone depends on every way of cutting it up.

Not modelled at all: the PHP pages, `search_stock.java`, the Android application, headers that only declare functions,
constants and configuration, and the other libraries in `PHP/httpd-2.2.22/srclib` (in `apr`: tables and hash tables,
`apr_fnmatch.c`, strings, pools, files, sockets, threads and locks; in `apr-util`: `apr_base64.c`, `apr_rmm.c`, queues and
resource lists, dates and URIs, digests, databases, XML, the hashing and the pools of `apr_memcache.c`; `pcre`).

The step functions on values (`MemStep`, `ListStep`, `Acted`, `Step`) do nothing for uses that are not allowed; this is only to make them total, and no result depends on it.
