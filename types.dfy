/** The wrapper the queue stores for every admitted item, and the ordering
    rule the queue keeps its store in: priority descending, then enqueue
    timestamp ascending among equal priorities. */
module Types {

  /** The priority given to an item enqueued without one. */
  const DefaultPriority: int := 0

  /** One admitted item with its scheduling metadata. `enqueuedAt` is a
      nanosecond timestamp (an `int64` in the original). */
  datatype Wrapper<T> = Wrapper(priority: int, enqueuedAt: int, item: T)

  /** The payloads of a run of wrappers, front to back. */
  function Payloads<T>(ws: seq<Wrapper<T>>): (r: seq<T>)
    ensures |r| == |ws|
    ensures forall i :: 0 <= i < |ws| ==> r[i] == ws[i].item
  {
    if ws == [] then [] else [ws[0].item] + Payloads(ws[1..])
  }

  /** Payloads distributes over concatenation. */
  lemma PayloadsAppend<T>(xs: seq<Wrapper<T>>, ys: seq<Wrapper<T>>)
    ensures Payloads(xs + ys) == Payloads(xs) + Payloads(ys)
  {
    assert forall i :: 0 <= i < |xs + ys| ==> Payloads(xs + ys)[i] == (Payloads(xs) + Payloads(ys))[i];
  }

  // ---------------------------------------------------------------------
  // ByPriority

  /** ByPriority.Less: entry i goes before entry j when its priority is
      strictly higher. */
  predicate ByPriorityLess<T>(b: seq<Wrapper<T>>, i: int, j: int)
    requires 0 <= i < |b| && 0 <= j < |b|
  {
    b[i].priority > b[j].priority
  }

  /** The sequence with the entries at i and j exchanged. */
  function Swapped<T>(s: seq<T>, i: int, j: int): (r: seq<T>)
    requires 0 <= i < |s| && 0 <= j < |s|
    ensures |r| == |s| && r[i] == s[j] && r[j] == s[i]
    ensures forall k :: 0 <= k < |s| && k != i && k != j ==> r[k] == s[k]
  {
    s[i := s[j]][j := s[i]]
  }

  /** Exchanging two entries is a permutation. */
  lemma SwappedPermutes<T>(s: seq<T>, i: int, j: int)
    requires 0 <= i < |s| && 0 <= j < |s|
    ensures multiset(Swapped(s, i, j)) == multiset(s)
  {
  }

  /** ByPriority.Swap: always exchanges the two entries, in place. */
  method ByPrioritySwap<T>(b: array<Wrapper<T>>, i: int, j: int)
    requires 0 <= i < b.Length && 0 <= j < b.Length
    modifies b
    ensures b[..] == Swapped(old(b[..]), i, j)
    ensures multiset(b[..]) == multiset(old(b[..]))
  {
    b[i], b[j] := b[j], b[i];
    SwappedPermutes(old(b[..]), i, j);
  }

  // ---------------------------------------------------------------------
  // ByEnqueuedAt

  /** ByEnqueuedAt.Less: entry i goes before entry j when it was enqueued
      strictly earlier. */
  predicate ByEnqueuedAtLess<T>(b: seq<Wrapper<T>>, i: int, j: int)
    requires 0 <= i < |b| && 0 <= j < |b|
  {
    b[i].enqueuedAt < b[j].enqueuedAt
  }

  /** What ByEnqueuedAt.Swap does to a sequence: the entries are exchanged
      only when their priorities are equal; otherwise nothing changes. */
  function EnqueuedAtSwapped<T>(s: seq<Wrapper<T>>, i: int, j: int): (r: seq<Wrapper<T>>)
    requires 0 <= i < |s| && 0 <= j < |s|
    ensures |r| == |s|
  {
    if s[i].priority == s[j].priority then Swapped(s, i, j) else s
  }

  /** ByEnqueuedAt.Swap, in place. */
  method ByEnqueuedAtSwap<T>(b: array<Wrapper<T>>, i: int, j: int)
    requires 0 <= i < b.Length && 0 <= j < b.Length
    modifies b
    ensures b[..] == EnqueuedAtSwapped(old(b[..]), i, j)
  {
    if b[i].priority == b[j].priority {
      b[i], b[j] := b[j], b[i];
    }
  }

  /** Every pair names two positions of a sequence of length n. */
  predicate SwapsWithin(n: int, swaps: seq<(int, int)>) {
    forall k :: 0 <= k < |swaps| ==> 0 <= swaps[k].0 < n && 0 <= swaps[k].1 < n
  }

  /** The sequence after ByEnqueuedAt.Swap has been applied at each pair
      of `swaps`, first to last. */
  function ApplyEnqueuedAtSwaps<T>(s: seq<Wrapper<T>>, swaps: seq<(int, int)>): (r: seq<Wrapper<T>>)
    requires SwapsWithin(|s|, swaps)
    ensures |r| == |s|
    decreases |swaps|
  {
    if swaps == [] then s
    else ApplyEnqueuedAtSwaps(EnqueuedAtSwapped(s, swaps[0].0, swaps[0].1), swaps[1..])
  }

  /** Whatever pairs a sort asks ByEnqueuedAt.Swap to exchange, the result
      is a permutation of the input with the same priority at every index. */
  lemma {:induction false} EnqueuedAtSwapsKeepPriorities<T>(s: seq<Wrapper<T>>, swaps: seq<(int, int)>)
    requires SwapsWithin(|s|, swaps)
    ensures multiset(ApplyEnqueuedAtSwaps(s, swaps)) == multiset(s)
    ensures forall k :: 0 <= k < |s| ==> ApplyEnqueuedAtSwaps(s, swaps)[k].priority == s[k].priority
    decreases |swaps|
  {
    if swaps != [] {
      var (i, j) := swaps[0];
      var t := EnqueuedAtSwapped(s, i, j);
      if s[i].priority == s[j].priority {
        SwappedPermutes(s, i, j);
      }
      assert multiset(t) == multiset(s);
      assert forall k :: 0 <= k < |s| ==> t[k].priority == s[k].priority;
      assert SwapsWithin(|t|, swaps[1..]) by {
        forall k | 0 <= k < |swaps[1..]|
          ensures 0 <= swaps[1..][k].0 < |t| && 0 <= swaps[1..][k].1 < |t|
        {
          assert swaps[1..][k] == swaps[k + 1];
        }
      }
      EnqueuedAtSwapsKeepPriorities(t, swaps[1..]);
    }
  }

  // ---------------------------------------------------------------------
  // The order the queue keeps its store in

  /** `a` may stand before `b`: higher priority first, and among equal
      priorities the earlier (or equal) timestamp first. */
  predicate Precedes<T>(a: Wrapper<T>, b: Wrapper<T>) {
    a.priority > b.priority || (a.priority == b.priority && a.enqueuedAt <= b.enqueuedAt)
  }

  /** Priorities are non-increasing front to back: the outcome of sorting
      by ByPriority. */
  predicate PriorityOrdered<T>(s: seq<Wrapper<T>>) {
    forall i, j :: 0 <= i < j < |s| ==> s[i].priority >= s[j].priority
  }

  /** The store invariant: any two entries stand in queue order. */
  predicate Sorted<T>(s: seq<Wrapper<T>>) {
    forall i, j :: 0 <= i < j < |s| ==> Precedes(s[i], s[j])
  }

  /** Sorted means no pair is inverted under the two comparators: no later
      entry has a strictly higher priority, and inside an equal-priority
      run no later entry was enqueued strictly earlier. */
  lemma SortedIffNoInversion<T>(s: seq<Wrapper<T>>)
    ensures Sorted(s) <==>
      forall i, j :: 0 <= i < j < |s| ==>
        !ByPriorityLess(s, j, i) && (s[i].priority == s[j].priority ==> !ByEnqueuedAtLess(s, j, i))
  {
  }

  /** Sorted implies the queue's front is a highest-priority entry, and the
      earliest of those. */
  lemma SortedHeadFirst<T>(s: seq<Wrapper<T>>, k: int)
    requires Sorted(s) && 0 <= k < |s|
    ensures s[0].priority >= s[k].priority
    ensures s[0].priority == s[k].priority ==> s[0].enqueuedAt <= s[k].enqueuedAt
  {
    if k > 0 {
      assert Precedes(s[0], s[k]);
    }
  }

  /** Removing entries from the front keeps the order of what remains. */
  lemma SortedSuffix<T>(s: seq<Wrapper<T>>, k: int)
    requires Sorted(s) && 0 <= k <= |s|
    ensures Sorted(s[k..])
  {
    forall i, j | 0 <= i < j < |s[k..]| ensures Precedes(s[k..][i], s[k..][j]) {
      assert s[k..][i] == s[k + i] && s[k..][j] == s[k + j];
    }
  }

  /** Appending at the back keeps a sorted store sorted exactly when every
      resident may stand before the new entry. */
  lemma AppendSortedIff<T>(s: seq<Wrapper<T>>, w: Wrapper<T>)
    requires Sorted(s)
    ensures Sorted(s + [w]) <==> forall k :: 0 <= k < |s| ==> Precedes(s[k], w)
  {
    if Sorted(s + [w]) {
      forall k | 0 <= k < |s| ensures Precedes(s[k], w) {
        assert (s + [w])[k] == s[k] && (s + [w])[|s|] == w;
      }
    }
  }

  /** Two entries that may each stand before the other have the same
      priority and the same timestamp. */
  predicate SameKey<T>(a: Wrapper<T>, b: Wrapper<T>) {
    a.priority == b.priority && a.enqueuedAt == b.enqueuedAt
  }

  /** No two different entries share both priority and timestamp, so the
      queue order leaves nothing to chance. */
  ghost predicate UnambiguousKeys<T>(s: seq<Wrapper<T>>) {
    forall i, j :: 0 <= i < |s| && 0 <= j < |s| && SameKey(s[i], s[j]) ==> s[i] == s[j]
  }

  /** The fronts of two sorted arrangements of the same entries may each
      stand before the other. */
  lemma SortedFrontsTie<T>(s1: seq<Wrapper<T>>, s2: seq<Wrapper<T>>)
    requires Sorted(s1) && Sorted(s2) && |s1| > 0
    requires multiset(s1) == multiset(s2)
    ensures |s2| > 0 && SameKey(s1[0], s2[0]) && s2[0] in s1
  {
    assert s1[0] in multiset(s2);
    var k :| 0 <= k < |s2| && s2[k] == s1[0];
    assert Precedes(s2[0], s1[0]) by {
      if k > 0 { assert Precedes(s2[0], s2[k]); }
    }
    assert s2[0] in multiset(s1);
    var m :| 0 <= m < |s1| && s1[m] == s2[0];
    assert Precedes(s1[0], s2[0]) by {
      if m > 0 { assert Precedes(s1[0], s1[m]); }
    }
  }

  /** Taking equal fronts off two sequences with the same multiset leaves
      tails with the same multiset. */
  lemma MultisetTails<T>(s1: seq<T>, s2: seq<T>)
    requires |s1| > 0 && |s2| > 0 && s1[0] == s2[0]
    requires multiset(s1) == multiset(s2)
    ensures multiset(s1[1..]) == multiset(s2[1..])
  {
    assert s1 == [s1[0]] + s1[1..] && s2 == [s2[0]] + s2[1..];
    assert multiset(s1[1..]) == multiset(s1) - multiset([s1[0]]);
    assert multiset(s2[1..]) == multiset(s2) - multiset([s2[0]]);
  }

  /** Without complete ties, two sorted arrangements of the same entries
      start with the same entry. */
  lemma SortedFrontsEqual<T>(s1: seq<Wrapper<T>>, s2: seq<Wrapper<T>>)
    requires Sorted(s1) && Sorted(s2) && |s1| > 0
    requires multiset(s1) == multiset(s2)
    requires UnambiguousKeys(s1)
    ensures |s2| > 0 && s1[0] == s2[0]
  {
    SortedFrontsTie(s1, s2);
    var m :| 0 <= m < |s1| && s1[m] == s2[0];
    assert SameKey(s1[0], s1[m]);
  }

  /** Dropping the front keeps the keys unambiguous. */
  lemma UnambiguousTail<T>(s: seq<Wrapper<T>>)
    requires |s| > 0 && UnambiguousKeys(s)
    ensures UnambiguousKeys(s[1..])
  {
    forall i, j | 0 <= i < |s[1..]| && 0 <= j < |s[1..]| && SameKey(s[1..][i], s[1..][j])
      ensures s[1..][i] == s[1..][j]
    {
      assert s[1..][i] == s[i + 1] && s[1..][j] == s[j + 1];
    }
  }

  /** Without complete ties, the queue order determines the store: two
      sorted arrangements of the same entries are equal. */
  lemma {:induction false} SortedUnique<T>(s1: seq<Wrapper<T>>, s2: seq<Wrapper<T>>)
    requires Sorted(s1) && Sorted(s2)
    requires multiset(s1) == multiset(s2)
    requires UnambiguousKeys(s1)
    ensures s1 == s2
    decreases |s1|
  {
    assert |s1| == |multiset(s1)| == |multiset(s2)| == |s2|;
    if |s1| > 0 {
      SortedFrontsEqual(s1, s2);
      MultisetTails(s1, s2);
      SortedSuffix(s1, 1);
      SortedSuffix(s2, 1);
      UnambiguousTail(s1);
      SortedUnique(s1[1..], s2[1..]);
      assert s1 == [s1[0]] + s1[1..] && s2 == [s2[0]] + s2[1..];
    }
  }

  /** Where the queue order puts a new entry in a sorted store: after
      every resident that may stand before it, ahead of the rest. */
  function Insert<T>(s: seq<Wrapper<T>>, w: Wrapper<T>): (r: seq<Wrapper<T>>)
    ensures |r| == |s| + 1
    decreases |s|
  {
    if s == [] then [w]
    else if Precedes(s[0], w) then [s[0]] + Insert(s[1..], w)
    else [w] + s
  }

  /** Insert adds exactly the new entry. */
  lemma {:induction false} InsertAdds<T>(s: seq<Wrapper<T>>, w: Wrapper<T>)
    ensures multiset(Insert(s, w)) == multiset(s) + multiset{w}
    decreases |s|
  {
    if s != [] {
      assert s == [s[0]] + s[1..];
      if Precedes(s[0], w) {
        InsertAdds(s[1..], w);
      }
    }
  }

  /** Insert keeps a sorted store sorted. */
  lemma {:induction false} InsertKeepsOrder<T>(s: seq<Wrapper<T>>, w: Wrapper<T>)
    requires Sorted(s)
    ensures Sorted(Insert(s, w))
    decreases |s|
  {
    if s != [] {
      var r := Insert(s, w);
      if Precedes(s[0], w) {
        SortedSuffix(s, 1);
        InsertKeepsOrder(s[1..], w);
        InsertAdds(s[1..], w);
        var tail := Insert(s[1..], w);
        forall k | 0 <= k < |tail| ensures Precedes(s[0], tail[k]) {
          assert tail[k] in multiset(s[1..]) + multiset{w};
          if tail[k] != w {
            assert tail[k] in s[1..];
          }
        }
        forall i, j | 0 <= i < j < |r| ensures Precedes(r[i], r[j]) {
          if i > 0 {
            assert r[i] == tail[i - 1] && r[j] == tail[j - 1];
          } else {
            assert r[j] == tail[j - 1];
          }
        }
      } else {
        forall i, j | 0 <= i < j < |r| ensures Precedes(r[i], r[j]) {
          if i > 0 {
            assert r[i] == s[i - 1] && r[j] == s[j - 1];
          } else if j > 1 {
            assert Precedes(s[0], s[j - 1]);
          }
        }
      }
    }
  }

  /** When every resident may stand before the new entry, as with an equal
      priority and a later timestamp, Insert puts it at the back. */
  lemma {:induction false} InsertAtBack<T>(s: seq<Wrapper<T>>, w: Wrapper<T>)
    requires forall k :: 0 <= k < |s| ==> Precedes(s[k], w)
    ensures Insert(s, w) == s + [w]
    decreases |s|
  {
    if s != [] {
      forall k | 0 <= k < |s[1..]| ensures Precedes(s[1..][k], w) {
        assert s[1..][k] == s[k + 1];
      }
      InsertAtBack(s[1..], w);
      assert s + [w] == [s[0]] + (s[1..] + [w]);
    }
  }

  /** Insert puts the new entry immediately before the first resident
      that may not stand before it. */
  lemma {:induction false} InsertPosition<T>(s: seq<Wrapper<T>>, w: Wrapper<T>, p: int)
    requires 0 <= p <= |s|
    requires forall k :: 0 <= k < p ==> Precedes(s[k], w)
    requires p < |s| ==> !Precedes(s[p], w)
    ensures Insert(s, w) == s[..p] + [w] + s[p..]
    decreases p
  {
    if p > 0 {
      var t := s[1..];
      forall k | 0 <= k < p - 1 ensures Precedes(t[k], w) {
        assert t[k] == s[k + 1];
      }
      if p - 1 < |t| {
        assert t[p - 1] == s[p];
      }
      InsertPosition(t, w, p - 1);
      assert s[..p] == [s[0]] + t[..p - 1] && s[p..] == t[p - 1..];
    }
  }

  /** Where an entry enqueued later than every resident goes, given the
      boundary p between the residents of equal or higher priority and the
      first lower one. In a sorted store that boundary is the back of the
      residents of the entry's own priority, so the entry goes after every
      resident of equal or higher priority and before every lower one. */
  lemma LaterArrivalPosition<T>(s: seq<Wrapper<T>>, w: Wrapper<T>, p: int)
    requires forall k :: 0 <= k < |s| ==> s[k].enqueuedAt < w.enqueuedAt
    requires 0 <= p <= |s|
    requires forall k :: 0 <= k < p ==> s[k].priority >= w.priority
    requires p < |s| ==> s[p].priority < w.priority
    ensures Insert(s, w) == s[..p] + [w] + s[p..]
  {
    InsertPosition(s, w, p);
  }

  /** Unambiguous keys depend only on which entries are present. */
  lemma UnambiguousPermutation<T>(s: seq<Wrapper<T>>, t: seq<Wrapper<T>>)
    requires multiset(s) == multiset(t) && UnambiguousKeys(t)
    ensures UnambiguousKeys(s)
  {
    forall i, j | 0 <= i < |s| && 0 <= j < |s| && SameKey(s[i], s[j]) ensures s[i] == s[j] {
      assert s[i] in multiset(t) && s[j] in multiset(t);
      var p :| 0 <= p < |t| && t[p] == s[i];
      var q :| 0 <= q < |t| && t[q] == s[j];
    }
  }

  /** Without complete ties, a sorted store holding the residents of a
      sorted store and one new entry is Insert's result. */
  lemma SortedAdmission<T>(s: seq<Wrapper<T>>, w: Wrapper<T>, t: seq<Wrapper<T>>)
    requires Sorted(s) && Sorted(t)
    requires multiset(t) == multiset(s) + multiset{w}
    requires UnambiguousKeys(t)
    ensures t == Insert(s, w)
  {
    InsertAdds(s, w);
    InsertKeepsOrder(s, w);
    UnambiguousPermutation(Insert(s, w), t);
    SortedUnique(Insert(s, w), t);
  }

  /** Strict queue order: a higher priority, or an equal one enqueued
      strictly earlier. */
  predicate StrictlyPrecedes<T>(a: Wrapper<T>, b: Wrapper<T>) {
    a.priority > b.priority || (a.priority == b.priority && a.enqueuedAt < b.enqueuedAt)
  }

  /** A store in which each entry strictly precedes the next is sorted and
      has no complete ties. */
  lemma {:induction false} StrictChain<T>(s: seq<Wrapper<T>>)
    requires forall k :: 0 <= k < |s| - 1 ==> StrictlyPrecedes(s[k], s[k + 1])
    ensures forall i, j :: 0 <= i < j < |s| ==> StrictlyPrecedes(s[i], s[j])
    ensures Sorted(s) && UnambiguousKeys(s)
    decreases |s|
  {
    if |s| > 1 {
      var t := s[1..];
      forall k | 0 <= k < |t| - 1 ensures StrictlyPrecedes(t[k], t[k + 1]) {
        assert t[k] == s[k + 1] && t[k + 1] == s[k + 2];
      }
      StrictChain(t);
      forall i, j | 0 <= i < j < |s| ensures StrictlyPrecedes(s[i], s[j]) {
        if i > 0 {
          assert s[i] == t[i - 1] && s[j] == t[j - 1];
        } else if j > 1 {
          assert StrictlyPrecedes(t[0], t[j - 1]);
        }
      }
    }
  }

  // ---------------------------------------------------------------------
  // The two sorts the queue runs after a change

  /** Both sequences have the same length and the same priority at every
      index. */
  predicate SamePriorities<T>(s: seq<Wrapper<T>>, t: seq<Wrapper<T>>) {
    |s| == |t| && forall k :: 0 <= k < |s| ==> s[k].priority == t[k].priority
  }

  /** The inner-loop state of the timestamp pass: the same shape, for the
      queue order. */
  predicate OrderInsertionState<T>(s: seq<Wrapper<T>>, i: int, j: int)
    requires 0 <= j <= i < |s|
  {
    && (forall k, l :: 0 <= k < l <= i && k != j && l != j ==> Precedes(s[k], s[l]))
    && (forall l :: j < l <= i ==> Precedes(s[j], s[l]))
  }

  /** sort.Sort(ByPriority(a[:n])): run as insertion sort by adjacent
      swaps, comparing with ByPriority.Less and exchanging with
      ByPriority.Swap. The result has non-increasing priorities and is a
      permutation of the input; the array beyond n is not touched. */
  method SortByPriority<T>(a: array<Wrapper<T>>, n: int)
    requires 0 <= n <= a.Length
    modifies a
    ensures PriorityOrdered(a[..n])
    ensures multiset(a[..n]) == multiset(old(a[..n]))
    ensures forall k :: n <= k < a.Length ==> a[k] == old(a[k])
  {
    ghost var a0 := a[..];
    var i := 0;
    while i < n
      invariant 0 <= i <= n
      invariant PriorityOrdered(a[..i])
      invariant multiset(a[..]) == multiset(a0)
      invariant forall k :: n <= k < a.Length ==> a[k] == a0[k]
    {
      InsertByPriority(a, n, i);
      i := i + 1;
    }
    KeepPrefixMultiset(a0, a[..], n);
  }

  /** One outer step of the priority pass: the entry at i moves left past
      every entry of strictly lower priority. */
  method InsertByPriority<T>(a: array<Wrapper<T>>, n: int, i: int)
    requires 0 <= i < n <= a.Length
    requires PriorityOrdered(a[..i])
    modifies a
    ensures PriorityOrdered(a[..i + 1])
    ensures multiset(a[..]) == multiset(old(a[..]))
    ensures forall k :: i < k < a.Length ==> a[k] == old(a[k])
  {
    ghost var a0 := a[..];
    var j := i;
    while j > 0 && ByPriorityLess(a[..n], j, j - 1)
      invariant 0 <= j <= i
      invariant PriorityPass(a0, a[..], i, j)
    {
      SwapByPriority(a, a0, n, i, j);
      j := j - 1;
    }
    PriorityInsertionDone(a0, a[..], i, j);
  }

  /** One exchange of the priority pass: ByPriority.Swap at j and j-1
      after Less found j of strictly higher priority. */
  method SwapByPriority<T>(a: array<Wrapper<T>>, ghost a0: seq<Wrapper<T>>, n: int, i: int, j: int)
    requires PriorityPass(a0, a[..], i, j) && 0 < j && i < n <= a.Length
    requires ByPriorityLess(a[..n], j, j - 1)
    modifies a
    ensures PriorityPass(a0, a[..], i, j - 1)
  {
    ghost var s := a[..];
    assert s[j] == a[..n][j] && s[j - 1] == a[..n][j - 1];
    ByPrioritySwap(a, j, j - 1);
    PriorityInsertionStep(a0, s, a[..], i, j);
  }

  /** The state of the priority pass's inner loop: a rearrangement of a0
      that leaves everything after i alone and whose prefix up to i is
      ordered apart from the moving entry at j, which has a priority at
      least that of every entry after it. */
  ghost predicate PriorityPass<T>(a0: seq<Wrapper<T>>, s: seq<Wrapper<T>>, i: int, j: int) {
    && 0 <= j <= i < |s| == |a0|
    && multiset(s) == multiset(a0)
    && s[i + 1..] == a0[i + 1..]
    && (forall k, l :: 0 <= k < l <= i && k != j && l != j ==> s[k].priority >= s[l].priority)
    && (forall l :: j < l <= i ==> s[j].priority >= s[l].priority)
  }

  /** One exchange of the priority pass keeps the inner-loop state. */
  lemma PriorityInsertionStep<T>(a0: seq<Wrapper<T>>, s: seq<Wrapper<T>>, t: seq<Wrapper<T>>, i: int, j: int)
    requires 0 < j <= i < |s|
    requires t == Swapped(s, j, j - 1)
    requires s[j].priority > s[j - 1].priority
    requires PriorityPass(a0, s, i, j)
    ensures PriorityPass(a0, t, i, j - 1)
  {
    SwappedPermutes(s, j, j - 1);
    assert t[i + 1..] == s[i + 1..];
    forall k, l | 0 <= k < l <= i && k != j - 1 && l != j - 1 ensures t[k].priority >= t[l].priority {
      if l == j {
        assert t[l] == s[j - 1];
      } else if k == j {
        assert t[k] == s[j - 1];
      }
    }
  }

  /** When the inner loop of the priority pass stops, the prefix up to i
      has non-increasing priorities. */
  lemma PriorityInsertionDone<T>(a0: seq<Wrapper<T>>, s: seq<Wrapper<T>>, i: int, j: int)
    requires PriorityPass(a0, s, i, j)
    requires j > 0 ==> !ByPriorityLess(s, j, j - 1)
    ensures PriorityOrdered(s[..i + 1])
    ensures multiset(s) == multiset(a0)
    ensures forall k :: i < k < |s| ==> s[k] == a0[k]
  {
    if j > 0 {
      forall k | 0 <= k < j - 1 ensures s[k].priority >= s[j].priority {
        assert s[k].priority >= s[j - 1].priority;
      }
    }
    forall k | i < k < |s| ensures s[k] == a0[k] {
      assert s[k] == s[i + 1..][k - i - 1];
    }
  }

  /** sort.Sort(ByEnqueuedAt(a[:n])): insertion sort by adjacent swaps,
      comparing with ByEnqueuedAt.Less and exchanging with the conditional
      ByEnqueuedAt.Swap, which refuses to move an entry across a priority
      boundary. Whatever the input, the result is a permutation with the
      same priority at every index; when the input's priorities were
      non-increasing, the result is in queue order. */
  method SortByEnqueuedAt<T>(a: array<Wrapper<T>>, n: int)
    requires 0 <= n <= a.Length
    modifies a
    ensures PriorityOrdered(old(a[..n])) ==> Sorted(a[..n])
    ensures multiset(a[..n]) == multiset(old(a[..n]))
    ensures SamePriorities(a[..], old(a[..]))
    ensures forall k :: n <= k < a.Length ==> a[k] == old(a[k])
  {
    ghost var a0 := a[..];
    ghost var ordered := PriorityOrdered(a[..n]);
    var i := 0;
    while i < n
      invariant 0 <= i <= n
      invariant OrderSorting(a0, a[..], n, i, ordered)
    {
      ghost var s := a[..];
      InsertByEnqueuedAt(a, n, i, ordered);
      OrderSortingStep(a0, s, a[..], n, i, ordered);
      i := i + 1;
    }
    OrderSortingDone(a0, a[..], n, ordered);
  }

  /** The state of the timestamp pass's outer loop: a rearrangement of a0
      with the same priority at every index that leaves everything from n
      on alone; when a0 had non-increasing priorities, so does the current
      store, and its first i entries are in queue order. */
  ghost predicate OrderSorting<T>(a0: seq<Wrapper<T>>, s: seq<Wrapper<T>>, n: int, i: int, ordered: bool) {
    && 0 <= i <= n <= |s| == |a0|
    && multiset(s) == multiset(a0)
    && SamePriorities(s, a0)
    && s[n..] == a0[n..]
    && (ordered ==> PriorityOrdered(s[..n]) && Sorted(s[..i]))
  }

  /** One outer step of the timestamp pass keeps the outer-loop state. */
  lemma OrderSortingStep<T>(a0: seq<Wrapper<T>>, s: seq<Wrapper<T>>, t: seq<Wrapper<T>>, n: int, i: int, ordered: bool)
    requires OrderSorting(a0, s, n, i, ordered) && i < n
    requires |t| == |s| && multiset(t) == multiset(s) && SamePriorities(t, s)
    requires forall k :: i < k < |s| ==> t[k] == s[k]
    requires ordered ==> Sorted(t[..i + 1])
    ensures OrderSorting(a0, t, n, i + 1, ordered)
  {
    assert t[n..] == s[n..];
    if ordered {
      SamePrioritiesKeepOrder(s, t, n);
    }
  }

  /** When the outer loop of the timestamp pass ends, the sort's
      postconditions hold. */
  lemma OrderSortingDone<T>(a0: seq<Wrapper<T>>, s: seq<Wrapper<T>>, n: int, ordered: bool)
    requires OrderSorting(a0, s, n, n, ordered)
    ensures ordered ==> Sorted(s[..n])
    ensures multiset(s[..n]) == multiset(a0[..n])
    ensures SamePriorities(s, a0)
    ensures forall k :: n <= k < |s| ==> s[k] == a0[k]
  {
    forall k | n <= k < |s| ensures s[k] == a0[k] {
      assert s[k] == s[n..][k - n];
    }
    KeepPrefixMultiset(a0, s, n);
  }

  /** With the same priority at every index, non-increasing priorities
      stay non-increasing. */
  lemma SamePrioritiesKeepOrder<T>(s: seq<Wrapper<T>>, t: seq<Wrapper<T>>, n: int)
    requires 0 <= n <= |s| && SamePriorities(t, s) && PriorityOrdered(s[..n])
    ensures PriorityOrdered(t[..n])
  {
    forall i, j | 0 <= i < j < n ensures t[..n][i].priority >= t[..n][j].priority {
      assert s[..n][i] == s[i] && s[..n][j] == s[j];
    }
  }

  /** One outer step of the timestamp pass: the entry at i moves left past
      every entry enqueued strictly later, for as long as ByEnqueuedAt.Swap
      agrees to exchange; comparisons go on after a refused exchange, as
      the sort's loop does. */
  method InsertByEnqueuedAt<T>(a: array<Wrapper<T>>, n: int, i: int, ghost ordered: bool)
    requires 0 <= i < n <= a.Length
    requires ordered ==> PriorityOrdered(a[..n]) && Sorted(a[..i])
    modifies a
    ensures ordered ==> Sorted(a[..i + 1])
    ensures SamePriorities(a[..], old(a[..]))
    ensures multiset(a[..]) == multiset(old(a[..]))
    ensures forall k :: i < k < a.Length ==> a[k] == old(a[k])
  {
    ghost var a0 := a[..];
    var j := i;
    while j > 0 && ByEnqueuedAtLess(a[..n], j, j - 1)
      invariant 0 <= j <= i
      invariant OrderPass(a0, a[..], n, i, j, ordered)
    {
      SwapByEnqueuedAt(a, a0, n, i, j, ordered);
      j := j - 1;
    }
    OrderPassDone(a0, a[..], n, i, j, ordered);
  }

  /** One exchange of the timestamp pass: ByEnqueuedAt.Swap at j and j-1
      after Less found j enqueued strictly earlier. */
  method SwapByEnqueuedAt<T>(a: array<Wrapper<T>>, ghost a0: seq<Wrapper<T>>, n: int, i: int, j: int, ghost ordered: bool)
    requires OrderPass(a0, a[..], n, i, j, ordered) && 0 < j
    requires ByEnqueuedAtLess(a[..n], j, j - 1)
    modifies a
    ensures OrderPass(a0, a[..], n, i, j - 1, ordered)
  {
    ghost var s := a[..];
    assert s[j] == a[..n][j] && s[j - 1] == a[..n][j - 1];
    ByEnqueuedAtSwap(a, j, j - 1);
    OrderPassStep(a0, s, a[..], n, i, j, ordered);
  }

  /** The state of the timestamp pass's inner loop: a rearrangement of a0
      with the same priority at every index that leaves everything after i
      alone; when the pass started from ordered input, the prefix up to i
      is in queue order apart from the moving entry at j. */
  ghost predicate OrderPass<T>(a0: seq<Wrapper<T>>, s: seq<Wrapper<T>>, n: int, i: int, j: int, ordered: bool) {
    && 0 <= j <= i < n <= |s| == |a0|
    && multiset(s) == multiset(a0)
    && SamePriorities(s, a0)
    && s[i + 1..] == a0[i + 1..]
    && (ordered ==> PriorityOrdered(a0[..n]) && OrderInsertionState(s, i, j))
  }

  /** One step of the timestamp pass keeps the inner-loop state. */
  lemma OrderPassStep<T>(a0: seq<Wrapper<T>>, s: seq<Wrapper<T>>, t: seq<Wrapper<T>>, n: int, i: int, j: int, ordered: bool)
    requires OrderPass(a0, s, n, i, j, ordered) && 0 < j
    requires t == EnqueuedAtSwapped(s, j, j - 1)
    requires s[j].enqueuedAt < s[j - 1].enqueuedAt
    ensures OrderPass(a0, t, n, i, j - 1, ordered)
  {
    EnqueuedAtSwapKeeps(s, j, j - 1);
    assert t[i + 1..] == s[i + 1..];
    if ordered {
      OrderedNeighbours(a0, s, n, j);
      InsertionStep(s, t, i, j);
    }
  }

  /** When the inner loop of the timestamp pass stops, the step's
      postconditions hold. */
  lemma OrderPassDone<T>(a0: seq<Wrapper<T>>, s: seq<Wrapper<T>>, n: int, i: int, j: int, ordered: bool)
    requires OrderPass(a0, s, n, i, j, ordered)
    requires j > 0 ==> !ByEnqueuedAtLess(s[..n], j, j - 1)
    ensures ordered ==> Sorted(s[..i + 1])
    ensures multiset(s) == multiset(a0)
    ensures SamePriorities(s, a0)
    ensures forall k :: i < k < |s| ==> s[k] == a0[k]
  {
    if ordered {
      if j > 0 {
        OrderedNeighbours(a0, s, n, j);
        assert s[..n][j] == s[j] && s[..n][j - 1] == s[j - 1];
      }
      InsertionDone(s, i, j);
    }
    forall k | i < k < |s| ensures s[k] == a0[k] {
      assert s[k] == s[i + 1..][k - i - 1];
    }
  }

  /** ByEnqueuedAt.Swap is a permutation that keeps the priority at every
      index. */
  lemma EnqueuedAtSwapKeeps<T>(s: seq<Wrapper<T>>, i: int, j: int)
    requires 0 <= i < |s| && 0 <= j < |s|
    ensures multiset(EnqueuedAtSwapped(s, i, j)) == multiset(s)
    ensures SamePriorities(EnqueuedAtSwapped(s, i, j), s)
  {
    if s[i].priority == s[j].priority {
      SwappedPermutes(s, i, j);
    }
  }

  /** The timestamp pass never changes the priority at an index, so when
      it started from non-increasing priorities, neighbours stay so. */
  lemma OrderedNeighbours<T>(a0: seq<Wrapper<T>>, s: seq<Wrapper<T>>, n: int, j: int)
    requires 0 < j < n <= |a0|
    requires PriorityOrdered(a0[..n]) && SamePriorities(s, a0)
    ensures s[j - 1].priority >= s[j].priority
  {
    assert a0[..n][j - 1] == a0[j - 1] && a0[..n][j] == a0[j];
  }

  /** One step of the timestamp pass keeps the inner-loop state, both when
      the exchange happens and when ByEnqueuedAt.Swap refuses it. */
  lemma InsertionStep<T>(s: seq<Wrapper<T>>, t: seq<Wrapper<T>>, i: int, j: int)
    requires 0 < j <= i < |s|
    requires t == EnqueuedAtSwapped(s, j, j - 1)
    requires s[j].enqueuedAt < s[j - 1].enqueuedAt
    requires s[j - 1].priority >= s[j].priority
    requires OrderInsertionState(s, i, j)
    ensures OrderInsertionState(t, i, j - 1)
  {
    if s[j].priority != s[j - 1].priority {
      assert t == s;
      forall k | 0 <= k < j - 1 ensures Precedes(s[k], s[j]) {
        assert Precedes(s[k], s[j - 1]);
      }
    } else {
      forall k, l | 0 <= k < l <= i && k != j - 1 && l != j - 1 ensures Precedes(t[k], t[l]) {
        if l == j {
          assert t[l] == s[j - 1];
        } else if k == j {
          assert t[k] == s[j - 1];
        }
      }
    }
  }

  /** When the inner loop of the timestamp pass stops, the prefix up to i
      is in queue order. */
  lemma InsertionDone<T>(s: seq<Wrapper<T>>, i: int, j: int)
    requires 0 <= j <= i < |s|
    requires j > 0 ==> !(s[j].enqueuedAt < s[j - 1].enqueuedAt) && s[j - 1].priority >= s[j].priority
    requires OrderInsertionState(s, i, j)
    ensures Sorted(s[..i + 1])
  {
    if j > 0 {
      assert Precedes(s[j - 1], s[j]);
      forall k | 0 <= k < j - 1 ensures Precedes(s[k], s[j]) {
        assert Precedes(s[k], s[j - 1]);
      }
    }
  }

  /** A change that keeps the multiset of the whole array and leaves
      everything from n on alone keeps the multiset of the first n. */
  lemma KeepPrefixMultiset<T>(s: seq<T>, t: seq<T>, n: int)
    requires 0 <= n <= |s| == |t|
    requires multiset(t) == multiset(s)
    requires forall k :: n <= k < |s| ==> t[k] == s[k]
    ensures multiset(t[..n]) == multiset(s[..n])
  {
    assert t[n..] == s[n..];
    assert s == s[..n] + s[n..] && t == t[..n] + t[n..];
    assert multiset(s) == multiset(s[..n]) + multiset(s[n..]);
    assert multiset(t) == multiset(t[..n]) + multiset(t[n..]);
    assert multiset(t[..n]) == multiset(t) - multiset(t[n..]);
    assert multiset(s[..n]) == multiset(s) - multiset(s[n..]);
  }

  /** The queue's sort: by priority, then by timestamp. The store comes out
      in queue order and holds the same entries. */
  method SortWrappers<T>(a: array<Wrapper<T>>, n: int)
    requires 0 <= n <= a.Length
    modifies a
    ensures Sorted(a[..n])
    ensures multiset(a[..n]) == multiset(old(a[..n]))
    ensures forall k :: n <= k < a.Length ==> a[k] == old(a[k])
  {
    SortByPriority(a, n);
    SortByEnqueuedAt(a, n);
  }
}
