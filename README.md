# go-queue-priority: the bounded priority queue, modelled in Dafny

The repository provides a bounded, thread-safe priority queue in Go
(`finite/priorityfinite.go`). This project models its core in three layers.

## The three layers

**The order** (`types.dfy`, module `Types`). Every admitted item is held in a
`Wrapper` with three fields: a priority, an enqueue timestamp and a payload.

The store is sorted with `sort.Sort` twice:
- first by `ByPriority`, whose `Less` means a strictly higher priority and whose `Swap` always exchanges;
- then by `ByEnqueuedAt`, whose `Less` means an earlier timestamp and whose `Swap` exchanges only entries of equal priority.

The resulting invariant, `Sorted`, is priority descending and then timestamp
ascending. Each sort is modelled as an in-place insertion sort on the backing
array, and each uses the comparator and the swap exactly as written (`ByPriorityLess`,
`ByPrioritySwap`, `ByEnqueuedAtLess`, `ByEnqueuedAtSwap`). Both are proved to
be permutations. The priority pass is proved to give non-increasing
priorities. The timestamp pass is proved to keep the priority at every index,
and to give a `Sorted` store when its input has non-increasing priorities.
The two passes in turn give a sorted permutation (`SortWrappers`).

`Insert` is the pure reference for a single admission. The lemmas show:
- Sorting after an append yields `Insert` when the store was sorted before and no two entries share both priority and timestamp.
- Such a sorted arrangement is unique.

**The slice primitives** (`internal.dfy`, module `Internal`). A Go slice is
modelled as a backing `array` plus a length. The array's length is the slice's
capacity.

`RotateLeft`, `RotateRight`, `Enqueue`, `Dequeue` and `DequeueMultiple` change
the array in place as the Go code does. This includes the writes that `append`
makes into spare capacity.

A signal channel is a `Signal` object: a buffer size and a count of pending
notifications. `SendSignal` is the non-blocking send.

**The queue** (`priorityfinite.dfy`, class `PriorityFinite.QueueFinite`). The
queue holds:
- the backing array `data`;
- the resident count `length`;
- the two signals, and a footprint `Repr`.

A closed queue has a store of capacity 0 and no signals. `Valid()` is the
invariant every method keeps. Each method is one atomic step, as under the
queue's lock. The timestamp that the original reads from the clock is a
parameter.

`scenarios.dfy` (module `Scenarios`) states and proves the outcome of the
cases in the repository's ordering and enqueue tests, on concrete values. It
does the same for the behaviours listed in the next two sections.

## Where the code departs from its own names and comments

The model follows the code in the following cases:

- A batch admission (`PriorityEnqueueMultiple`, `EnqueueMultiple`) neither
  sorts nor notifies. The deferred block that would do both tests a flag
  that is never set. A batch can therefore leave the store unsorted
  (`Scenarios.BatchLeavesStoreUnsorted`).
- A lossy admission into a store with free space appends without sorting or
  notifying (`Scenarios.LossyWithSpaceLeavesStoreUnsorted`).
- A lossy admission into a full store compares with, and evicts, the front
  entry. The code names the front entry's priority the lowest one, but after
  the sort the front entry holds the highest. The incoming item is
  rejected only when its priority is strictly lower, and `nil` is then
  returned rather than the incoming item (`Scenarios.LossyRejectsBelowHighest`,
  `Scenarios.LossyEvictsHighest`).
- `GarbageCollect` copies into a slice of length 0, so no resident survives
  (`Scenarios.GarbageCollectEmpties`).

## Behaviours worth knowing

These behaviours contradict no comment in the source, but a caller may not
expect them:

- `Resize` drops the excess residents from the front, which, in a sorted
  store, are the highest priorities (`Scenarios.ShrinkDropsHighest`). After a
  batch or a lossy admission with free space the store may be unsorted, and
  the front may then hold a low priority.
- On a closed queue, `Resize` to any size other than 0 re-creates the store
  and the signals. This reopens the queue.
- `DequeueMultiple` with a count of 0, on a non-empty store, still sends one
  removal notification (`Scenarios.NotificationsCounted`).

## Model

| member | source | states |
|---|---|---|
| Types.DefaultPriority | types.go:5 | the priority given to an item enqueued without one, 0 |
| Types.Wrapper | types.go:10-14 | one admitted item: its priority, its enqueue timestamp in nanoseconds and its payload |
| Types.ByPriorityLess | types.go:35 | ByPriority.Less: entry i goes first when its priority is strictly higher |
| Types.ByEnqueuedAtLess | types.go:45 | ByEnqueuedAt.Less: entry i goes first when it was enqueued strictly earlier |
| Types.Swapped | types.go:34 | the sequence with the entries at i and j exchanged, everything else in place |
| Types.SwappedPermutes | types.go:34 | exchanging two entries keeps the multiset |
| Types.ByPrioritySwap | types.go:34 | ByPriority.Swap exchanges the two entries in place, a permutation |
| Types.ByEnqueuedAtSwap | types.go:40-44 | ByEnqueuedAt.Swap exchanges only when the priorities are equal, otherwise changes nothing |
| Types.EnqueuedAtSwapsKeepPriorities | types.go:40-44 | any sequence of ByEnqueuedAt.Swap calls is a permutation that leaves the priority at every index unchanged |
| Types.SortedIffNoInversion | types.go:33-45 | the store is sorted exactly when no pair is inverted under ByPriority.Less, nor under ByEnqueuedAt.Less within equal priorities |
| Types.SortedHeadFirst | priority_test.go:18-112 | in a sorted store the front has the highest priority, and among those the earliest timestamp |
| Types.SortedSuffix | finite/priorityfinite.go:149-177 | removing entries from the front keeps the rest sorted |
| Types.AppendSortedIff | finite/priorityfinite.go:280-282 | appending to a sorted store keeps it sorted exactly when every resident may stand before the new entry |
| Types.SortedUnique | priority_test.go:18-112 | without complete ties, two sorted arrangements of the same entries are equal |
| Types.Insert | finite/priorityfinite.go:216-224 | the reference placement of one new entry in a sorted store, one entry longer |
| Types.InsertAdds | finite/priorityfinite.go:216-224 | Insert adds exactly the new entry to the multiset |
| Types.InsertKeepsOrder | finite/priorityfinite.go:216-224 | Insert into a sorted store gives a sorted store |
| Types.InsertAtBack | finite/priorityfinite.go:216-224 | when every resident may stand before the new entry, Insert appends it |
| Types.InsertPosition | finite/priorityfinite.go:216-224 | Insert puts the entry immediately before the first resident that may not stand before it |
| Types.LaterArrivalPosition | finite/priorityfinite.go:216-224 | given the boundary p between the residents of equal or higher priority and the first lower one, an entry later than every resident is inserted at p; in a sorted store that places it after all residents of equal or higher priority and before all lower ones |
| Types.UnambiguousPermutation | priority_test.go:18-112 | having no complete ties depends only on which entries are present |
| Types.SortedAdmission | finite/priorityfinite.go:216-224 | without complete ties, a sorted permutation of the store plus the new entry is Insert's result |
| Types.StrictChain | priority_test.go:18-112 | a store where each entry strictly precedes the next is sorted and has no complete ties |
| Types.SortByPriority | types.go:31-35 | sort.Sort(ByPriority) on the slice gives non-increasing priorities, a permutation, and leaves the spare capacity alone |
| Types.SortByEnqueuedAt | types.go:37-45 | sort.Sort(ByEnqueuedAt) keeps the priority at every index and the multiset; from non-increasing priorities it gives a sorted store |
| Types.SortWrappers | finite/priorityfinite.go:223-224 | the two sorts in turn give a sorted permutation of the slice, spare capacity untouched |
| Internal.Signal.constructor | finite/priorityfinite.go:40-41 | a signal channel with a buffer of the given size and nothing pending |
| Internal.SendSignal | internal/execution.go:88-93 | the non-blocking send succeeds exactly when the buffer has room, and then adds one pending notification; a nil channel refuses |
| Internal.RotatedLeft | internal/execution.go:11-15 | same length, entry i is the old entry (i+1) mod n |
| Internal.RotatedRight | internal/execution.go:19-24 | same length, entry i is the old entry (i+n-1) mod n |
| Internal.LeftUndoesRight | internal/execution.go:11-24 | rotating left after rotating right is the identity |
| Internal.RightUndoesLeft | internal/execution.go:11-24 | rotating right after rotating left is the identity |
| Internal.RotateLeft | internal/execution.go:11-15 | the slice becomes its left rotation; append's write into spare capacity is stated and the rest is untouched |
| Internal.RotateRight | internal/execution.go:19-24 | the slice becomes its right rotation; append's writes into spare capacity are stated and the rest is untouched |
| Internal.Enqueue | internal/execution.go:28-33 | overflow exactly when full, then nothing changes; otherwise the item is appended and the length grows by one |
| Internal.Dequeue | internal/execution.go:37-48 | underflow exactly when empty, then nothing changes; otherwise the front payload is returned and the rest keeps its order |
| Internal.Copy | finite/priorityfinite.go:113-114 | the built-in copy moves min(len(dst), len(src)) entries from the front and leaves the rest of dst alone |
| Internal.DequeueMultiple | internal/execution.go:53-74 | underflow exactly when empty; otherwise the first min(n, len) payloads front to back and the remainder in order, together the original payloads |
| PriorityFinite.PriorityOf | finite/priorityfinite.go:212-215 | the priority of a single admission: the first optional priority, or the default when none is given |
| PriorityFinite.AssignedPriorities | finite/priorityfinite.go:242-251 | one priority per item: the given list when the lengths match, otherwise the first priority (or the default) for every item |
| PriorityFinite.BroadcastPriorities | finite/priorityfinite.go:242-251 | the priority list the loop builds is AssignedPriorities |
| PriorityFinite.RetryBroadcastsFirstPriority | execution.go:75-87 | a retry passes the unadmitted item suffix with the full priority list: when the remaining count is below the length of the list, every remaining item gets the first priority; when the two are equal, the list is used as it stands |
| PriorityFinite.Wrapped | finite/priorityfinite.go:252-257 | the k-th wrapper holds the k-th priority, timestamp and item |
| PriorityFinite.QueueFinite.New | finite/priorityfinite.go:36-43 | an empty store of capacity size, or 1 below 1, and two empty signals of that size |
| PriorityFinite.QueueFinite.PriorityEnqueue | finite/priorityfinite.go:206-227 | overflow exactly when full, and then nothing changes; otherwise one more resident, the multiset plus the new wrapper with the first priority, a sorted store, one admission notification, store equal to Insert of the old one when the store was sorted before and there are no complete ties |
| PriorityFinite.QueueFinite.Place | finite/priorityfinite.go:216-224 | append then both sorts: the multiset plus the new wrapper, sorted, and Insert's result when the store was sorted before and there are no complete ties |
| PriorityFinite.QueueFinite.Enqueue | finite/priorityfinite.go:194-196 | PriorityEnqueue with the default priority |
| PriorityFinite.QueueFinite.PriorityEnqueueMultiple | finite/priorityfinite.go:229-263 | the items are appended in order with their assigned priorities until the store is full; the unadmitted suffix is returned with overflow; no sort and no notification |
| PriorityFinite.QueueFinite.AppendAll | finite/priorityfinite.go:252-261 | the wrappers are appended in order until the store is full; the count appended is min(items, free slots) |
| PriorityFinite.QueueFinite.Append | finite/priorityfinite.go:253-257 | Internal.Enqueue on the store, taking the new length |
| PriorityFinite.QueueFinite.EnqueueMultiple | finite/priorityfinite.go:198-200 | PriorityEnqueueMultiple with every item at the default priority |
| PriorityFinite.QueueFinite.EnqueueLossyWhenFull | finite/priorityfinite.go:46-58 | rejected exactly when the incoming priority is below the front entry's, and then nothing changes; otherwise the front entry is evicted and returned, the incoming one takes its place and the store is sorted |
| PriorityFinite.QueueFinite.PriorityEnqueueLossy | finite/priorityfinite.go:265-284 | with free space the item is appended with nothing discarded, no sort and no notification; with a full store as EnqueueLossyWhenFull |
| PriorityFinite.QueueFinite.EnqueueLossy | finite/priorityfinite.go:202-204 | PriorityEnqueueLossy with the default priority |
| PriorityFinite.QueueFinite.Dequeue | finite/priorityfinite.go:149-162 | underflow exactly when empty, with no notification; otherwise the front payload, the rest in order, one removal notification; sortedness kept |
| PriorityFinite.QueueFinite.DequeueMultiple | finite/priorityfinite.go:164-177 | nothing on an empty store; otherwise the first min(n, len) payloads, the rest in order, and exactly one removal notification, even for n = 0 |
| PriorityFinite.QueueFinite.Flush | finite/priorityfinite.go:179-192 | every payload front to back and an empty store; one removal notification when anything was removed |
| PriorityFinite.QueueFinite.Peek | finite/priorityfinite.go:300-309 | every payload, front to back |
| PriorityFinite.QueueFinite.PeekHead | finite/priorityfinite.go:311-319 | underflow exactly when empty; otherwise the front payload, which in a sorted store has the highest priority |
| PriorityFinite.QueueFinite.PeekFromHead | finite/priorityfinite.go:321-336 | nothing when empty; otherwise the first min(n, len) payloads |
| PriorityFinite.QueueFinite.Length | finite/priorityfinite.go:286-291 | the resident count, never above the capacity |
| PriorityFinite.QueueFinite.Capacity | finite/priorityfinite.go:293-298 | the store's capacity, 0 exactly when the queue is closed |
| PriorityFinite.QueueFinite.Close | finite/priorityfinite.go:60-80 | every payload front to back; afterwards capacity 0 and no signals |
| PriorityFinite.QueueFinite.GarbageCollect | finite/priorityfinite.go:83-93 | a new store of the same capacity that holds nothing; signals untouched |
| PriorityFinite.QueueFinite.Resize | finite/priorityfinite.go:95-133 | no-op at the current capacity; otherwise size below 1 taken as 1, the excess removed from the front and returned, the rest kept in order in a store of the new size, fresh empty signals |
| PriorityFinite.QueueFinite.Trim | finite/priorityfinite.go:110-112 | the residents beyond the new size are removed from the front and their payloads returned |
| PriorityFinite.QueueFinite.Reallocate | finite/priorityfinite.go:113-131 | the residents move into a new store of the given size; both signals are replaced by empty ones of that size |
| PriorityFinite.TrimmedFront | finite/priorityfinite.go:110-114 | the discarded payloads followed by the kept ones are the original payloads, and the kept part stays sorted |
| Scenarios.SortSamePriority | priority_test.go:25-36 | equal priorities sort oldest first |
| Scenarios.SortDifferentPrioritySameTime | priority_test.go:37-66 | equal timestamps sort highest priority first |
| Scenarios.SortDifferentPriorityDifferentTimes | priority_test.go:67-104 | priority first, then the older of two equal priorities |
| Scenarios.SamePriorityFlushesInOrder | finite/tests/tests.go:30-43 | three items of priority 1 are flushed in the order they came in |
| Scenarios.RisingPrioritiesFlushReversed | finite/tests/tests.go:44-57 | priorities 1, 2, 3 are flushed as 3, 2, 1 |
| Scenarios.NotificationsCounted | finite/priorityfinite.go:171-176 | two admissions leave two notifications; removing nothing from a non-empty store still notifies one removal |
| Scenarios.LossyRejectsBelowHighest | finite/priorityfinite.go:49-52 | with priorities [5, 3], a priority-4 lossy admission is rejected |
| Scenarios.LossyEvictsHighest | finite/priorityfinite.go:53-57 | with priorities [5, 3], a priority-6 lossy admission evicts the priority-5 resident |
| Scenarios.LossyWithSpaceLeavesStoreUnsorted | finite/priorityfinite.go:280-282 | a lossy admission with free space leaves a higher priority behind a lower one |
| Scenarios.BatchLeavesStoreUnsorted | finite/priorityfinite.go:233-241 | a batch with priorities [1, 2] leaves priority 1 at the front |
| Scenarios.BatchOverflowReturnsSuffix | finite/priorityfinite.go:258-260 | three items into two slots: the third is returned with overflow and two are stored |
| Scenarios.GarbageCollectEmpties | finite/priorityfinite.go:90-92 | after garbage collection the capacity is kept and nothing is stored |
| Scenarios.ShrinkDropsHighest | finite/priorityfinite.go:110-112 | resizing priorities [3, 2, 1] to 1 discards 3 and 2 and keeps 1 |
| Scenarios.CloseHandsBackResidents | finite/priorityfinite.go:64-80 | Close returns the residents front to back and leaves capacity 0 |
| Scenarios.ClosedQueueRefuses | finite/priorityfinite.go:79 | after Close: admission overflows, removal underflows, a second Close returns nothing, Resize(-5) reopens with capacity 1 |

## Left out

- Locking: each method is one atomic step, and the `sync.RWMutex` is not modelled.
- Channel close and drain in `Close` and `Resize`, and the receive side of the signals: these matter only to a receiver of the channels, and the model has no receive side. The original closes a channel only when nothing is pending; otherwise it takes one pending notification and leaves the channel open. The model keeps a pending-notification counter for each signal; `Close` drops the signals, and `Resize` replaces them with empty ones.
- The timeout branch of `SendSignal`: it waits on a timer, and the queue never uses it.
- `time.Now().UnixNano()`: the timestamps are parameters. In batch admissions there is one timestamp per item.
- The retry helpers in `execution.go`: they block on tickers and channels and wait for other goroutines. Only their effect on the priorities of a batch is stated, by `PriorityFinite.RetryBroadcastsFirstPriority`.
- `GetSignalIn` and `GetSignalOut`: the signals are fields that a caller can read directly.
- The `Len` methods of `ByPriority` and `ByEnqueuedAt`: the model uses the slice's length directly.
- The internals of Go's `sort.Sort`: it is not stable, and `ByEnqueuedAt.Swap` breaks its swap contract. Each sort is modelled as an insertion sort that uses the same `Less` and `Swap`. The contract covers only the outcome the tests assert: a sorted permutation. For the priority pass this outcome is a permutation with non-increasing priorities. The order of complete ties is left open; results are pinned down only when no two entries share both priority and timestamp. For up to 12 entries Go's `sort.Sort` is itself an insertion sort. Above that it uses other algorithms, and with the refusing `ByEnqueuedAt.Swap` their result need not be in timestamp order within a priority. The `Sorted` ensures of `Types.SortByEnqueuedAt`, `Types.SortWrappers`, `PriorityFinite.QueueFinite.PriorityEnqueue`, `PriorityFinite.QueueFinite.Place` and `PriorityFinite.QueueFinite.EnqueueLossyWhenFull` therefore rest on the insertion-sort model. What holds for any sequence of swaps, whatever algorithm chooses them, is `Types.EnqueuedAtSwapsKeepPriorities`: a permutation that keeps the priority at every index.
- The `nil` written into a vacated slot during Dequeue: a `Wrapper` is a value here, so the vacated slot keeps the dequeued wrapper. Slots past the length are never read.
- Wrappers are values, not pointers: no wrapper is changed after it is created, so sharing is not observable.
- `nil` versus an empty slice in results: both are the empty sequence.
- The payload type `interface{}` is a type parameter with a default value. On underflow an unspecified value of that type stands for the `nil` returned; no contract says which value.
- Internal.DequeueMultiple: for the slots past the new length it states only that the slots after the old length are untouched; the slot at the old length may take a dequeued wrapper from the first rotation. Nothing reads the vacated slots.
- Internal.DequeueMultiple, PriorityFinite.QueueFinite.DequeueMultiple and PriorityFinite.QueueFinite.PeekFromHead require a non-negative count on a non-empty store, because a negative count reaches `make` with a negative capacity and panics.
- PriorityFinite.QueueFinite.PriorityEnqueueLossy and PriorityFinite.QueueFinite.EnqueueLossy require an open queue, because on a closed one the lossy path indexes an empty slice and panics.
- The example program `finite/example.go` and the Go test harnesses are not part of this model; the cases those tests check are reproduced in `scenarios.dfy`.
