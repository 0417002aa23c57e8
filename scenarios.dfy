/** The queue on concrete values, each outcome stated and proved: the
    orderings its tests expect, and the places where the code's behaviour
    departs from what its names and comments suggest. Every method works
    on a queue or an array of its own, so its contract speaks only of its
    results. */
module Scenarios {
  import opened Types
  import opened PriorityFinite

  const Minute: int := 60_000_000_000
  const Second: int := 1_000_000_000

  // ---------------------------------------------------------------------
  // The two sorts on the cases of the ordering test

  /** Sorting a store copied from `input` gives `expected`, provided
      `expected` is a sorted arrangement of the same wrappers without
      complete ties. */
  method SortCopy(input: seq<Wrapper<int>>, ghost expected: seq<Wrapper<int>>) returns (sorted: seq<Wrapper<int>>)
    requires forall k :: 0 <= k < |expected| - 1 ==> StrictlyPrecedes(expected[k], expected[k + 1])
    requires multiset(input) == multiset(expected)
    ensures sorted == expected
  {
    var n := |input|;
    var a := new Wrapper<int>[n](i requires 0 <= i < n => input[i]);
    assert a[..n] == input;
    SortWrappers(a, n);
    StrictChain(expected);
    SortedUnique(expected, a[..n]);
    sorted := a[..n];
  }

  /** Equal priorities come out oldest first. */
  method SortSamePriority() returns (sorted: seq<Wrapper<int>>)
    ensures sorted == [Wrapper(0, Minute, 0), Wrapper(0, 2 * Minute, 0), Wrapper(0, 3 * Minute, 0)]
  {
    sorted := SortCopy(
      [Wrapper(0, 3 * Minute, 0), Wrapper(0, 2 * Minute, 0), Wrapper(0, Minute, 0)],
      [Wrapper(0, Minute, 0), Wrapper(0, 2 * Minute, 0), Wrapper(0, 3 * Minute, 0)]);
  }

  /** Equal timestamps come out highest priority first. */
  method SortDifferentPrioritySameTime() returns (sorted: seq<Wrapper<int>>)
    ensures sorted == [Wrapper(3, 0, 0), Wrapper(2, 0, 0), Wrapper(0, 0, 0)]
  {
    sorted := SortCopy(
      [Wrapper(0, 0, 0), Wrapper(2, 0, 0), Wrapper(3, 0, 0)],
      [Wrapper(3, 0, 0), Wrapper(2, 0, 0), Wrapper(0, 0, 0)]);
  }

  /** Priority first, then the older of two equal priorities. */
  method SortDifferentPriorityDifferentTimes() returns (sorted: seq<Wrapper<int>>)
    ensures sorted == [Wrapper(2, 0, 0), Wrapper(1, 2 * Second, 0), Wrapper(1, 3 * Second, 0), Wrapper(0, 4 * Second, 0)]
  {
    sorted := SortCopy(
      [Wrapper(0, 4 * Second, 0), Wrapper(1, 3 * Second, 0), Wrapper(1, 2 * Second, 0), Wrapper(2, 0, 0)],
      [Wrapper(2, 0, 0), Wrapper(1, 2 * Second, 0), Wrapper(1, 3 * Second, 0), Wrapper(0, 4 * Second, 0)]);
  }

  // ---------------------------------------------------------------------
  // The queue on the cases of the priority-enqueue test

  /** Admit `item` into q, whose residents are `before`, and conclude the
      residents are now `after`: the sorted arrangement of `before` and
      the new wrapper. */
  method Admit(q: QueueFinite<int>, item: int, priority: int, now: int,
               ghost before: seq<Wrapper<int>>, ghost after: seq<Wrapper<int>>)
    requires q.Valid() && q.Contents() == before && q.length < q.data.Length
    requires forall k :: 0 <= k < |after| - 1 ==> StrictlyPrecedes(after[k], after[k + 1])
    requires multiset(after) == multiset(before) + multiset{Wrapper(priority, now, item)}
    modifies q.Repr
    ensures q.Valid() && q.Repr == old(q.Repr) && q.data == old(q.data)
    ensures q.signalIn == old(q.signalIn) && q.signalOut == old(q.signalOut)
    ensures q.Contents() == after
  {
    var overflow := q.PriorityEnqueue(item, [priority], now);
    StrictChain(after);
    SortedUnique(after, q.Contents());
  }

  /** Three items of one priority are flushed in the order they came in. */
  method SamePriorityFlushesInOrder() returns (flushed: seq<int>)
    ensures flushed == [1, 2, 3]
  {
    var q := new QueueFinite<int>.New(3);
    var none := q.Flush();
    Admit(q, 1, 1, 10, [], [Wrapper(1, 10, 1)]);
    Admit(q, 2, 1, 20, [Wrapper(1, 10, 1)], [Wrapper(1, 10, 1), Wrapper(1, 20, 2)]);
    Admit(q, 3, 1, 30, [Wrapper(1, 10, 1), Wrapper(1, 20, 2)], [Wrapper(1, 10, 1), Wrapper(1, 20, 2), Wrapper(1, 30, 3)]);
    flushed := q.Flush();
  }

  /** Admit payloads 1, 2 and 3 with priorities 1, 2 and 3 into an empty
      store of three slots; the store then holds them highest first. */
  method FillRising(q: QueueFinite<int>)
    requires q.Valid() && q.Contents() == [] && q.data.Length == 3
    modifies q.Repr
    ensures q.Valid() && q.Repr == old(q.Repr) && q.data == old(q.data)
    ensures q.signalIn == old(q.signalIn) && q.signalOut == old(q.signalOut)
    ensures q.Contents() == [Wrapper(3, 30, 3), Wrapper(2, 20, 2), Wrapper(1, 10, 1)]
  {
    Admit(q, 1, 1, 10, [], [Wrapper(1, 10, 1)]);
    Admit(q, 2, 2, 20, [Wrapper(1, 10, 1)], [Wrapper(2, 20, 2), Wrapper(1, 10, 1)]);
    Admit(q, 3, 3, 30, [Wrapper(2, 20, 2), Wrapper(1, 10, 1)], [Wrapper(3, 30, 3), Wrapper(2, 20, 2), Wrapper(1, 10, 1)]);
  }

  /** Rising priorities are flushed highest first. */
  method RisingPrioritiesFlushReversed() returns (flushed: seq<int>)
    ensures flushed == [3, 2, 1]
  {
    var q := new QueueFinite<int>.New(3);
    var none := q.Flush();
    FillRising(q);
    flushed := q.Flush();
  }

  // ---------------------------------------------------------------------
  // Signals

  /** Two admissions leave two admission notifications; asking to remove
      nothing from a non-empty store still notifies a removal, while a
      flush of an empty queue notifies nothing. */
  method NotificationsCounted() returns (pendingIn: nat, pendingOut: nat, taken: seq<int>)
    ensures pendingIn == 2 && pendingOut == 1 && taken == []
  {
    var q := new QueueFinite<int>.New(4);
    var none := q.Flush();
    var o1 := q.Enqueue(1, 10);
    var o2 := q.Enqueue(2, 20);
    taken := q.DequeueMultiple(0);
    pendingIn, pendingOut := q.signalIn.pending, q.signalOut.pending;
  }

  // ---------------------------------------------------------------------
  // Departures from the comments and names

  /** Lossy admission into a full store compares with the front entry,
      which after the sort is the highest-priority one: with priorities
      [5, 3] a priority-4 item is rejected although it outranks the
      priority-3 resident. */
  method LossyRejectsBelowHighest() returns (discarded: Option<int>, rejected: bool, kept: seq<int>)
    ensures discarded == None && rejected && kept == [50, 30]
  {
    var q := new QueueFinite<int>.New(2);
    FillFiveThree(q);
    discarded, rejected := q.PriorityEnqueueLossy(40, [4], 3);
    kept := q.Peek();
  }

  /** Lossy admission into a full store evicts the front entry, the
      highest-priority one: with priorities [5, 3] a priority-6 item evicts
      the priority-5 resident rather than the priority-3 one. */
  method LossyEvictsHighest() returns (discarded: Option<int>, rejected: bool, kept: seq<int>)
    ensures discarded == Some(50) && !rejected && kept == [60, 30]
  {
    var q := new QueueFinite<int>.New(2);
    FillFiveThree(q);
    assert q.Contents()[1..] == [Wrapper(3, 2, 30)];
    discarded, rejected := q.PriorityEnqueueLossy(60, [6], 4);
    assert multiset(q.Contents()) == multiset([Wrapper(6, 4, 60), Wrapper(3, 2, 30)]);
    StrictChain([Wrapper(6, 4, 60), Wrapper(3, 2, 30)]);
    SortedUnique([Wrapper(6, 4, 60), Wrapper(3, 2, 30)], q.Contents());
    kept := q.Peek();
  }

  /** Admit payload 50 with priority 5 and payload 30 with priority 3
      into an empty store of two slots, filling it. */
  method FillFiveThree(q: QueueFinite<int>)
    requires q.Valid() && q.Contents() == [] && q.data.Length == 2
    modifies q.Repr
    ensures q.Valid() && q.Repr == old(q.Repr) && q.data == old(q.data)
    ensures q.signalIn == old(q.signalIn) && q.signalOut == old(q.signalOut)
    ensures q.Contents() == [Wrapper(5, 1, 50), Wrapper(3, 2, 30)]
  {
    Admit(q, 50, 5, 1, [], [Wrapper(5, 1, 50)]);
    Admit(q, 30, 3, 2, [Wrapper(5, 1, 50)], [Wrapper(5, 1, 50), Wrapper(3, 2, 30)]);
  }

  /** A batch admission appends without sorting: a lower priority admitted
      first stays in front of a higher one. */
  method BatchLeavesStoreUnsorted() returns (peeked: seq<int>, head: int)
    ensures peeked == [1, 2] && head == 1
  {
    var q := new QueueFinite<int>.New(3);
    var rest, overflow := q.PriorityEnqueueMultiple([1, 2], [1, 2], [10, 20]);
    assert q.Contents() == [Wrapper(1, 10, 1), Wrapper(2, 20, 2)];
    peeked := q.Peek();
    var underflow;
    head, underflow := q.PeekHead();
  }

  /** A lossy admission with free space appends without sorting: a higher
      priority admitted this way stays behind a lower one. */
  method LossyWithSpaceLeavesStoreUnsorted() returns (discarded: Option<int>, rejected: bool, peeked: seq<int>)
    ensures discarded == None && !rejected && peeked == [1, 2]
  {
    var q := new QueueFinite<int>.New(3);
    Admit(q, 1, 1, 10, [], [Wrapper(1, 10, 1)]);
    discarded, rejected := q.PriorityEnqueueLossy(2, [2], 20);
    peeked := q.Peek();
  }

  /** A batch that does not fit admits a prefix and hands back the rest. */
  method BatchOverflowReturnsSuffix() returns (rest: seq<int>, overflow: bool, stored: int)
    ensures rest == [3] && overflow && stored == 2
  {
    var q := new QueueFinite<int>.New(2);
    rest, overflow := q.PriorityEnqueueMultiple([1, 2, 3], [], [10, 20, 30]);
    stored := q.Length();
  }

  /** Garbage collection keeps the capacity and none of the residents. */
  method GarbageCollectEmpties() returns (size: int, capacity: int, peeked: seq<int>)
    ensures size == 0 && capacity == 2 && peeked == []
  {
    var q := new QueueFinite<int>.New(2);
    var o1 := q.Enqueue(1, 10);
    var o2 := q.Enqueue(2, 20);
    q.GarbageCollect();
    size := q.Length();
    capacity := q.Capacity();
    peeked := q.Peek();
  }

  /** Shrinking drops residents from the front, that is the highest
      priorities, and keeps the lowest. */
  method ShrinkDropsHighest() returns (dropped: seq<int>, kept: seq<int>)
    ensures dropped == [3, 2] && kept == [1]
  {
    var q := new QueueFinite<int>.New(3);
    FillRising(q);
    ghost var c := q.Contents();
    assert c[..2] == [Wrapper(3, 30, 3), Wrapper(2, 20, 2)] && c[2..] == [Wrapper(1, 10, 1)];
    dropped := q.Resize(1);
    kept := q.Peek();
  }

  // ---------------------------------------------------------------------
  // Closing

  /** Close hands back the residents, front to back. */
  method CloseHandsBackResidents() returns (remaining: seq<int>, capacity: int)
    ensures remaining == [1, 2] && capacity == 0
  {
    var q := new QueueFinite<int>.New(2);
    var o1 := q.Enqueue(1, 10);
    var o2 := q.Enqueue(2, 20);
    StrictChain([Wrapper(DefaultPriority, 10, 1), Wrapper(DefaultPriority, 20, 2)]);
    SortedUnique([Wrapper(DefaultPriority, 10, 1), Wrapper(DefaultPriority, 20, 2)], q.Contents());
    remaining := q.Close();
    capacity := q.Capacity();
  }

  /** After Close, admissions overflow, removals underflow, a second Close
      hands back nothing, and a resize reopens the queue with the requested
      size, a size below 1 taken as 1. */
  method ClosedQueueRefuses() returns (overflow: bool, underflow: bool, again: seq<int>, reopened: int)
    ensures overflow && underflow && again == [] && reopened == 1
  {
    var q := new QueueFinite<int>.New(2);
    var o1 := q.Enqueue(1, 10);
    var remaining := q.Close();
    overflow := q.Enqueue(3, 30);
    var item;
    item, underflow := q.Dequeue();
    again := q.Close();
    var discarded := q.Resize(-5);
    reopened := q.Capacity();
  }
}
