/** The bounded priority queue. Its store is a slice of wrappers whose
    capacity is the queue's size; after every single admission the store
    is re-sorted into queue order (priority descending, then timestamp
    ascending), and removals take from the front. Two buffered signals,
    each as large as the store, announce admissions and removals without
    ever blocking. Every method runs under one lock in the original, so
    each is modelled as one atomic step. */
module PriorityFinite {
  import opened Types
  import opened Internal

  datatype Option<T> = None | Some(value: T)

  /** The priority a single admission uses: the first of the optional
      priorities, or the default when none is given. */
  function PriorityOf(priorities: seq<int>): int {
    if |priorities| > 0 then priorities[0] else DefaultPriority
  }

  /** The priorities a batch admission of `count` items assigns: the given
      ones when there is one per item, and otherwise the single priority
      PriorityOf picks, broadcast to every item. */
  function AssignedPriorities(count: nat, priorities: seq<int>): (r: seq<int>)
    ensures |r| == count
    ensures |priorities| != count ==> forall k :: 0 <= k < count ==> r[k] == PriorityOf(priorities)
    ensures |priorities| == count ==> r == priorities
  {
    if |priorities| == count then priorities else seq(count, _ => PriorityOf(priorities))
  }

  /** The priorities of a batch admission, built as the original does:
      when there is not one priority per item, a new list repeating the
      priority PriorityOf picks is built item by item. */
  method BroadcastPriorities(count: nat, priorities: seq<int>) returns (ps: seq<int>)
    ensures ps == AssignedPriorities(count, priorities)
  {
    if |priorities| == count {
      return priorities;
    }
    var p := PriorityOf(priorities);
    ps := [];
    var k := 0;
    while k < count
      invariant 0 <= k <= count
      invariant |ps| == k && forall j :: 0 <= j < k ==> ps[j] == p
    {
      ps := ps + [p];
      k := k + 1;
    }
  }

  /** A retry of a batch admission passes the unadmitted suffix of the
      items with the full list of priorities. When fewer items remain than
      there are priorities, which is always so once anything was admitted
      by a call that had one priority per item, every remaining item gets
      the first priority rather than its own. When the remaining count
      happens to equal the length of the list, the list is used as it
      stands. */
  lemma RetryBroadcastsFirstPriority(priorities: seq<int>, remaining: nat)
    ensures remaining < |priorities| ==>
      forall k :: 0 <= k < remaining ==> AssignedPriorities(remaining, priorities)[k] == priorities[0]
    ensures remaining == |priorities| ==> AssignedPriorities(remaining, priorities) == priorities
  {
  }

  /** The wrappers a batch admission builds, one per item. */
  function Wrapped<T>(items: seq<T>, ps: seq<int>, times: seq<int>): (r: seq<Wrapper<T>>)
    requires |ps| == |items| == |times|
    ensures |r| == |items|
    ensures forall k :: 0 <= k < |items| ==> r[k] == Wrapper(ps[k], times[k], items[k])
  {
    if items == [] then [] else [Wrapper(ps[0], times[0], items[0])] + Wrapped(items[1..], ps[1..], times[1..])
  }

  /** The queue. `data` is the backing array of the store, its length the
      store's capacity, and `length` the number of residents; a closed
      queue has a store of capacity 0 and no signals. */
  class QueueFinite<T(0)> {
    var data: array<Wrapper<T>>
    var length: nat
    var signalIn: Signal?
    var signalOut: Signal?
    ghost var Repr: set<object>

    /** The residents fit the store; the signals are present exactly when
        the queue is open, are distinct, and are as large as the store. */
    ghost predicate Valid()
      reads this, signalIn, signalOut
    {
      && this in Repr && data in Repr
      && length <= data.Length
      && (signalIn == null <==> data.Length == 0)
      && (signalOut == null <==> data.Length == 0)
      && (signalIn != null ==> signalIn in Repr && signalIn.size == data.Length && signalIn.pending <= signalIn.size)
      && (signalOut != null ==> signalOut in Repr && signalOut.size == data.Length && signalOut.pending <= signalOut.size)
      && (signalIn != null ==> signalIn != signalOut)
    }

    /** The residents, front to back. */
    ghost function Contents(): seq<Wrapper<T>>
      reads this, data
      requires length <= data.Length
    {
      data[..length]
    }

    /** Admission notifications not yet received. */
    ghost function PendingIn(): nat
      reads this, signalIn
    {
      if signalIn == null then 0 else signalIn.pending
    }

    /** Removal notifications not yet received. */
    ghost function PendingOut(): nat
      reads this, signalOut
    {
      if signalOut == null then 0 else signalOut.pending
    }

    /** New: a size below 1 is taken as 1; the store starts empty and both
        signals are as large as the store. */
    constructor New(size: int)
      ensures Valid() && fresh(Repr)
      ensures Contents() == [] && data.Length == (if size < 1 then 1 else size)
      ensures PendingIn() == 0 && PendingOut() == 0
    {
      var n := if size < 1 then 1 else size;
      data := new Wrapper<T>[n];
      length := 0;
      var sin := new Signal(n);
      var sout := new Signal(n);
      signalIn, signalOut := sin, sout;
      Repr := {this, data, sin, sout};
    }

    /** PriorityEnqueue: admit one item stamped `now` with the first given
        priority, re-sort the store and notify one admission; a full store
        (a closed queue's among them) is an overflow that changes nothing. */
    method PriorityEnqueue(item: T, priorities: seq<int>, now: int) returns (overflow: bool)
      requires Valid()
      modifies Repr
      ensures Valid() && Repr == old(Repr)
      ensures data == old(data) && signalIn == old(signalIn) && signalOut == old(signalOut)
      ensures overflow <==> old(length) == data.Length
      ensures overflow ==> Contents() == old(Contents()) && PendingIn() == old(PendingIn())
      ensures !overflow ==> length == old(length) + 1
      ensures !overflow ==> multiset(Contents()) == multiset(old(Contents())) + multiset{Wrapper(PriorityOf(priorities), now, item)}
      ensures !overflow ==> Sorted(Contents())
      ensures !overflow ==> PendingIn() == Min(old(PendingIn()) + 1, data.Length)
      ensures !overflow && Sorted(old(Contents())) && UnambiguousKeys(Contents()) ==>
        Contents() == Insert(old(Contents()), Wrapper(PriorityOf(priorities), now, item))
      ensures PendingOut() == old(PendingOut())
    {
      overflow := Place(Wrapper(PriorityOf(priorities), now, item));
      if overflow {
        return;
      }
      var sent := SendSignal(signalIn);
    }

    /** The store half of PriorityEnqueue: Internal.Enqueue, then sorting
        with ByPriority and then ByEnqueuedAt. */
    method Place(w: Wrapper<T>) returns (overflow: bool)
      requires Valid()
      modifies this, data
      ensures Valid() && Repr == old(Repr)
      ensures data == old(data) && signalIn == old(signalIn) && signalOut == old(signalOut)
      ensures overflow <==> old(length) == data.Length
      ensures overflow ==> Contents() == old(Contents())
      ensures !overflow ==> length == old(length) + 1
      ensures !overflow ==> multiset(Contents()) == multiset(old(Contents())) + multiset{w}
      ensures !overflow ==> Sorted(Contents())
      ensures !overflow && Sorted(old(Contents())) && UnambiguousKeys(Contents()) ==> Contents() == Insert(old(Contents()), w)
    {
      var n;
      n, overflow := Internal.Enqueue(data, length, w);
      if overflow {
        return;
      }
      length := n;
      SortWrappers(data, length);
      if Sorted(old(Contents())) && UnambiguousKeys(Contents()) {
        SortedAdmission(old(Contents()), w, Contents());
      }
    }

    /** Enqueue: PriorityEnqueue with the default priority. */
    method Enqueue(item: T, now: int) returns (overflow: bool)
      requires Valid()
      modifies Repr
      ensures Valid() && Repr == old(Repr)
      ensures data == old(data) && signalIn == old(signalIn) && signalOut == old(signalOut)
      ensures overflow <==> old(length) == data.Length
      ensures overflow ==> Contents() == old(Contents()) && PendingIn() == old(PendingIn())
      ensures !overflow ==> length == old(length) + 1
      ensures !overflow ==> multiset(Contents()) == multiset(old(Contents())) + multiset{Wrapper(DefaultPriority, now, item)}
      ensures !overflow ==> Sorted(Contents())
      ensures !overflow ==> PendingIn() == Min(old(PendingIn()) + 1, data.Length)
      ensures PendingOut() == old(PendingOut())
    {
      overflow := PriorityEnqueue(item, [], now);
    }

    /** PriorityEnqueueMultiple: admit the items in order at the back, the
        k-th stamped `times[k]`, until the store is full; the unadmitted
        suffix is returned with an overflow. The store is neither re-sorted
        nor is an admission notified: the flag that would trigger both is
        never set. */
    method PriorityEnqueueMultiple(items: seq<T>, priorities: seq<int>, times: seq<int>) returns (rest: seq<T>, overflow: bool)
      requires Valid() && |times| == |items|
      modifies Repr
      ensures Valid() && Repr == old(Repr)
      ensures data == old(data) && signalIn == old(signalIn) && signalOut == old(signalOut)
      ensures overflow <==> |items| > old(data.Length - length)
      ensures var m := Min(|items|, old(data.Length - length));
        && rest == items[m..]
        && Contents() == old(Contents()) + Wrapped(items, AssignedPriorities(|items|, priorities), times)[..m]
      ensures PendingIn() == old(PendingIn()) && PendingOut() == old(PendingOut())
    {
      var ps := BroadcastPriorities(|items|, priorities);
      var admitted := AppendAll(Wrapped(items, ps, times));
      rest, overflow := items[admitted..], admitted < |items|;
    }

    /** The loop of a batch admission: append the wrappers in order until
        the store is full, and say how many were appended. */
    method AppendAll(ws: seq<Wrapper<T>>) returns (admitted: int)
      requires Valid()
      modifies this, data
      ensures Valid() && Repr == old(Repr)
      ensures data == old(data) && signalIn == old(signalIn) && signalOut == old(signalOut)
      ensures admitted == Min(|ws|, old(data.Length - length))
      ensures Contents() == old(Contents()) + ws[..admitted]
      ensures PendingIn() == old(PendingIn()) && PendingOut() == old(PendingOut())
    {
      admitted := 0;
      while admitted < |ws|
        invariant 0 <= admitted <= |ws|
        invariant Valid() && Repr == old(Repr)
        invariant data == old(data) && signalIn == old(signalIn) && signalOut == old(signalOut)
        invariant Contents() == old(Contents()) + ws[..admitted]
      {
        var full := Append(ws[admitted]);
        if full {
          return;
        }
        assert ws[..admitted + 1] == ws[..admitted] + [ws[admitted]];
        admitted := admitted + 1;
      }
    }

    /** Internal.Enqueue on the store, taking the new length: the wrapper
        goes at the back, or a full store reports overflow. */
    method Append(w: Wrapper<T>) returns (overflow: bool)
      requires Valid()
      modifies this, data
      ensures Valid() && Repr == old(Repr)
      ensures data == old(data) && signalIn == old(signalIn) && signalOut == old(signalOut)
      ensures overflow <==> old(length) == data.Length
      ensures Contents() == if overflow then old(Contents()) else old(Contents()) + [w]
    {
      var n;
      n, overflow := Internal.Enqueue(data, length, w);
      length := n;
    }

    /** EnqueueMultiple: PriorityEnqueueMultiple with no priorities, so
        every item gets the default one. */
    method EnqueueMultiple(items: seq<T>, times: seq<int>) returns (rest: seq<T>, overflow: bool)
      requires Valid() && |times| == |items|
      modifies Repr
      ensures Valid() && Repr == old(Repr)
      ensures data == old(data) && signalIn == old(signalIn) && signalOut == old(signalOut)
      ensures overflow <==> |items| > old(data.Length - length)
      ensures var m := Min(|items|, old(data.Length - length));
        && rest == items[m..]
        && Contents() == old(Contents()) + Wrapped(items, seq(|items|, _ => DefaultPriority), times)[..m]
      ensures PendingIn() == old(PendingIn()) && PendingOut() == old(PendingOut())
    {
      rest, overflow := PriorityEnqueueMultiple(items, [], times);
      assert AssignedPriorities(|items|, []) == seq(|items|, _ => DefaultPriority);
    }

    /** The lossy admission into a full store. It compares the incoming
        priority with the front entry's: a strictly lower one is rejected
        and nothing changes; otherwise the front entry is overwritten by
        the incoming one, the store re-sorted and the overwritten payload
        returned. */
    method EnqueueLossyWhenFull(w: Wrapper<T>) returns (discarded: Option<T>, rejected: bool)
      requires Valid() && 0 < length == data.Length
      modifies data
      ensures Valid() && length == old(length)
      ensures rejected <==> w.priority < old(data[0]).priority
      ensures rejected ==> discarded == None && Contents() == old(Contents())
      ensures !rejected ==> discarded == Some(old(data[0]).item)
      ensures !rejected ==> multiset(Contents()) == multiset(old(Contents())[1..]) + multiset{w}
      ensures !rejected ==> Sorted(Contents())
    {
      var lowestPriority := data[0].priority;
      if w.priority < lowestPriority {
        return None, true;
      }
      var evicted := data[0];
      ghost var before := data[..];
      data[0] := w;
      assert data[..length] == [w] + before[1..length];
      SortWrappers(data, length);
      return Some(evicted.item), false;
    }

    /** PriorityEnqueueLossy: with free space, append the item at the back
        and report nothing discarded, without sorting or notifying; with a
        full store, defer to EnqueueLossyWhenFull. A closed queue has no
        front entry to compare with, so it is excluded. */
    method PriorityEnqueueLossy(item: T, priorities: seq<int>, now: int) returns (discarded: Option<T>, rejected: bool)
      requires Valid() && data.Length > 0
      modifies Repr
      ensures Valid() && Repr == old(Repr)
      ensures data == old(data) && signalIn == old(signalIn) && signalOut == old(signalOut)
      ensures PendingIn() == old(PendingIn()) && PendingOut() == old(PendingOut())
      ensures old(length) < data.Length ==>
        discarded == None && !rejected && Contents() == old(Contents()) + [Wrapper(PriorityOf(priorities), now, item)]
      ensures old(length) == data.Length ==> length == old(length)
      ensures old(length) == data.Length && PriorityOf(priorities) < old(data[0]).priority ==>
        discarded == None && rejected && Contents() == old(Contents())
      ensures old(length) == data.Length && PriorityOf(priorities) >= old(data[0]).priority ==>
        && discarded == Some(old(data[0]).item) && !rejected
        && multiset(Contents()) == multiset(old(Contents())[1..]) + multiset{Wrapper(PriorityOf(priorities), now, item)}
        && Sorted(Contents())
    {
      var w := Wrapper(PriorityOf(priorities), now, item);
      var n, overflow := Internal.Enqueue(data, length, w);
      if !overflow {
        length := n;
        return None, false;
      }
      discarded, rejected := EnqueueLossyWhenFull(w);
    }

    /** EnqueueLossy: PriorityEnqueueLossy with the default priority. */
    method EnqueueLossy(item: T, now: int) returns (discarded: Option<T>, rejected: bool)
      requires Valid() && data.Length > 0
      modifies Repr
      ensures Valid() && Repr == old(Repr)
      ensures data == old(data) && signalIn == old(signalIn) && signalOut == old(signalOut)
      ensures PendingIn() == old(PendingIn()) && PendingOut() == old(PendingOut())
      ensures old(length) < data.Length ==>
        discarded == None && !rejected && Contents() == old(Contents()) + [Wrapper(DefaultPriority, now, item)]
      ensures old(length) == data.Length ==> length == old(length)
      ensures old(length) == data.Length && DefaultPriority < old(data[0]).priority ==>
        discarded == None && rejected && Contents() == old(Contents())
      ensures old(length) == data.Length && DefaultPriority >= old(data[0]).priority ==>
        && discarded == Some(old(data[0]).item) && !rejected
        && multiset(Contents()) == multiset(old(Contents())[1..]) + multiset{Wrapper(DefaultPriority, now, item)}
        && Sorted(Contents())
    {
      discarded, rejected := PriorityEnqueueLossy(item, [], now);
    }

    /** Dequeue: remove the front entry, return its payload and notify one
        removal; an empty store is an underflow that changes nothing. */
    method Dequeue() returns (item: T, underflow: bool)
      requires Valid()
      modifies Repr
      ensures Valid() && Repr == old(Repr)
      ensures data == old(data) && signalIn == old(signalIn) && signalOut == old(signalOut)
      ensures underflow <==> old(length) == 0
      ensures underflow ==> Contents() == old(Contents()) && PendingOut() == old(PendingOut())
      ensures !underflow ==> item == old(Contents())[0].item && Contents() == old(Contents())[1..]
      ensures !underflow ==> PendingOut() == Min(old(PendingOut()) + 1, data.Length)
      ensures PendingIn() == old(PendingIn())
      ensures Sorted(old(Contents())) ==> Sorted(Contents())
    {
      var n;
      item, n, underflow := Internal.Dequeue(data, length);
      length := n;
      if underflow {
        return;
      }
      var sent := SendSignal(signalOut);
      if Sorted(old(Contents())) {
        SortedSuffix(old(Contents()), 1);
      }
    }

    /** DequeueMultiple: remove up to `n` entries from the front and return
        their payloads, notifying one removal however many were taken, even
        none; an empty store is an underflow that changes nothing. */
    method DequeueMultiple(n: int) returns (items: seq<T>)
      requires Valid() && (n >= 0 || length == 0)
      modifies Repr
      ensures Valid() && Repr == old(Repr)
      ensures data == old(data) && signalIn == old(signalIn) && signalOut == old(signalOut)
      ensures old(length) == 0 ==> items == [] && Contents() == old(Contents()) && PendingOut() == old(PendingOut())
      ensures old(length) > 0 ==>
        && items == Payloads(old(Contents())[..Min(n, old(length))])
        && Contents() == old(Contents())[Min(n, old(length))..]
        && PendingOut() == Min(old(PendingOut()) + 1, data.Length)
      ensures items + Payloads(Contents()) == Payloads(old(Contents()))
      ensures PendingIn() == old(PendingIn())
      ensures Sorted(old(Contents())) ==> Sorted(Contents())
    {
      var len, underflow;
      items, len, underflow := Internal.DequeueMultiple(n, data, length);
      length := len;
      if underflow {
        return [];
      }
      var sent := SendSignal(signalOut);
      if Sorted(old(Contents())) {
        SortedSuffix(old(Contents()), Min(n, old(length)));
      }
    }

    /** Flush: DequeueMultiple asking for the whole capacity, so every
        resident is removed and returned. */
    method Flush() returns (items: seq<T>)
      requires Valid()
      modifies Repr
      ensures Valid() && Repr == old(Repr)
      ensures data == old(data) && signalIn == old(signalIn) && signalOut == old(signalOut)
      ensures items == Payloads(old(Contents())) && Contents() == []
      ensures PendingOut() == if old(length) > 0 then Min(old(PendingOut()) + 1, data.Length) else old(PendingOut())
      ensures PendingIn() == old(PendingIn())
    {
      var len, underflow;
      items, len, underflow := Internal.DequeueMultiple(data.Length, data, length);
      length := len;
      if underflow {
        return [];
      }
      var sent := SendSignal(signalOut);
    }

    /** Peek: every resident's payload, front to back. */
    method Peek() returns (items: seq<T>)
      requires Valid()
      ensures items == Payloads(data[..length])
    {
      items := [];
      var i := 0;
      while i < length
        invariant 0 <= i <= length
        invariant items == Payloads(data[..i])
      {
        assert data[..i + 1] == data[..i] + [data[i]];
        PayloadsAppend(data[..i], [data[i]]);
        items := items + [data[i].item];
        i := i + 1;
      }
    }

    /** PeekHead: the front payload, or an underflow on an empty store.
        On a sorted store the front has the highest priority. */
    method PeekHead() returns (item: T, underflow: bool)
      requires Valid()
      ensures underflow <==> length == 0
      ensures !underflow ==> item == data[0].item
      ensures !underflow && Sorted(data[..length]) ==> forall k :: 0 <= k < length ==> data[k].priority <= data[0].priority
    {
      if length <= 0 {
        item := *; // nil in the original
        return item, true;
      }
      if Sorted(data[..length]) {
        forall k | 0 <= k < length ensures data[k].priority <= data[0].priority {
          SortedHeadFirst(data[..length], k);
        }
      }
      return data[0].item, false;
    }

    /** PeekFromHead: the payloads of the first `n` residents, or of all of
        them when there are fewer; nothing on an empty store. A negative
        `n` on a non-empty store reaches `make` with a negative capacity
        in the original, so it is excluded. */
    method PeekFromHead(n: int) returns (items: seq<T>)
      requires Valid() && (n >= 0 || length == 0)
      ensures length == 0 ==> items == []
      ensures length > 0 ==> items == Payloads(data[..Min(n, length)])
    {
      if length == 0 {
        return [];
      }
      var m := Min(n, length);
      items := [];
      var i := 0;
      while i < m
        invariant 0 <= i <= m
        invariant items == Payloads(data[..i])
      {
        assert data[..i + 1] == data[..i] + [data[i]];
        PayloadsAppend(data[..i], [data[i]]);
        items := items + [data[i].item];
        i := i + 1;
      }
    }

    /** Length: the number of residents, never more than the capacity. */
    method Length() returns (size: int)
      requires Valid()
      ensures size == length && 0 <= size <= data.Length
    {
      return length;
    }

    /** Capacity: the size of the store; 0 once closed. */
    method Capacity() returns (capacity: int)
      requires Valid()
      ensures capacity == data.Length
      ensures capacity == 0 <==> signalIn == null
    {
      return data.Length;
    }

    /** Close: remove and return every resident, front to back, and drop
        the store and both signals; the queue is then closed, so closing it
        again returns nothing. */
    method Close() returns (items: seq<T>)
      requires Valid()
      modifies Repr
      ensures Valid() && fresh(Repr - old(Repr))
      ensures items == Payloads(old(Contents()))
      ensures data.Length == 0 && length == 0 && signalIn == null && signalOut == null
    {
      var len, underflow;
      items, len, underflow := Internal.DequeueMultiple(length, data, length);
      data := new Wrapper<T>[0];
      length := 0;
      signalIn, signalOut := null, null;
      Repr := {this, data};
    }

    /** GarbageCollect: replace the store by a new one of the same capacity.
        The residents are copied into a slice of length 0, so none survive. */
    method GarbageCollect()
      requires Valid()
      modifies Repr
      ensures Valid() && fresh(Repr - old(Repr))
      ensures fresh(data) && data.Length == old(data.Length) && Contents() == []
      ensures signalIn == old(signalIn) && signalOut == old(signalOut)
      ensures PendingIn() == old(PendingIn()) && PendingOut() == old(PendingOut())
    {
      var store := new Wrapper<T>[data.Length];
      var copied := Internal.Copy(store, 0, data, length);
      data := store;
      length := 0;
      Repr := Repr + {data};
    }

    /** Resize: nothing happens when the new size is the current capacity.
        Otherwise a size below 1 is taken as 1, residents beyond the new
        size are removed from the front and returned, the rest move to a
        store of the new size, and both signals are replaced by empty ones
        of that size. A closed queue is reopened this way. */
    method Resize(newSize: int) returns (discarded: seq<T>)
      requires Valid()
      modifies Repr
      ensures Valid() && fresh(Repr - old(Repr))
      ensures newSize == old(data.Length) ==>
        && discarded == [] && data == old(data) && Contents() == old(Contents())
        && signalIn == old(signalIn) && signalOut == old(signalOut)
        && PendingIn() == old(PendingIn()) && PendingOut() == old(PendingOut())
      ensures newSize != old(data.Length) ==>
        var size := if newSize < 1 then 1 else newSize;
        var cut := if old(length) > size then old(length) - size else 0;
        && discarded == Payloads(old(Contents())[..cut])
        && Contents() == old(Contents())[cut..]
        && fresh(data) && data.Length == size
        && fresh(signalIn) && fresh(signalOut) && PendingIn() == 0 && PendingOut() == 0
      ensures discarded + Payloads(Contents()) == Payloads(old(Contents()))
      ensures Sorted(old(Contents())) ==> Sorted(Contents())
    {
      if newSize == data.Length {
        return [];
      }
      ghost var s0 := Contents();
      var size := if newSize < 1 then 1 else newSize;
      ghost var cut := if length > size then length - size else 0;
      discarded := Trim(size);
      Reallocate(size);
      TrimmedFront(s0, cut);
    }

    /** The first half of Resize: residents beyond `size` are removed from
        the front with Internal.DequeueMultiple, sending no signal, and
        their payloads returned. */
    method Trim(size: int) returns (discarded: seq<T>)
      requires Valid() && 1 <= size
      modifies this, data
      ensures Valid() && Repr == old(Repr)
      ensures data == old(data) && signalIn == old(signalIn) && signalOut == old(signalOut)
      ensures var cut := if old(length) > size then old(length) - size else 0;
        discarded == Payloads(old(Contents())[..cut]) && Contents() == old(Contents())[cut..]
    {
      if length <= size {
        return [];
      }
      var len, underflow;
      discarded, len, underflow := Internal.DequeueMultiple(length - size, data, length);
      length := len;
    }

    /** The second half of Resize: the residents move to a new store of
        the given size, and both signals are replaced by empty ones of that
        size. */
    method Reallocate(size: int)
      requires Valid() && 1 <= size && length <= size
      modifies this
      ensures Valid() && fresh(Repr - old(Repr))
      ensures fresh(data) && data.Length == size && length == old(length) && Contents() == old(Contents())
      ensures fresh(signalIn) && fresh(signalOut) && PendingIn() == 0 && PendingOut() == 0
    {
      var store := new Wrapper<T>[size];
      var copied := Internal.Copy(store, length, data, length);
      data := store;
      var sin := new Signal(size);
      var sout := new Signal(size);
      signalIn, signalOut := sin, sout;
      Repr := {this, data, sin, sout};
    }
  }

  /** Removing a prefix loses nothing and keeps the order of the rest. */
  lemma TrimmedFront<T>(s: seq<Wrapper<T>>, cut: int)
    requires 0 <= cut <= |s|
    ensures Payloads(s[..cut]) + Payloads(s[cut..]) == Payloads(s)
    ensures Sorted(s) ==> Sorted(s[cut..])
  {
    assert s == s[..cut] + s[cut..];
    PayloadsAppend(s[..cut], s[cut..]);
    if Sorted(s) {
      SortedSuffix(s, cut);
    }
  }

}
