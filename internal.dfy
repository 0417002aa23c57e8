/** The slice primitives the queue is built from. A Go slice of wrappers
    is modelled as a backing array, whose length is the slice's capacity,
    together with the slice's length `n`: the slice is `a[..n]`. Appending
    within capacity writes into the spare part `a[n..]` of the same array. */
module Internal {
  import opened Types

  // ---------------------------------------------------------------------
  // Signals

  /** A buffered `chan struct{}`: `size` is its buffer capacity and
      `pending` the number of notifications sent and not yet received. */
  class Signal {
    const size: nat
    var pending: nat

    constructor (size: nat)
      ensures this.size == size && pending == 0
    {
      this.size := size;
      pending := 0;
    }
  }

  /** SendSignal without a timeout: a non-blocking send. It succeeds when
      the buffer has room; a full buffer, or a nil channel, makes it give
      up at once. */
  method SendSignal(signal: Signal?) returns (sent: bool)
    modifies signal
    ensures signal == null ==> !sent
    ensures signal != null ==> (sent <==> old(signal.pending) < signal.size)
    ensures signal != null ==> signal.pending == if sent then old(signal.pending) + 1 else old(signal.pending)
  {
    if signal == null {
      return false;
    }
    if signal.pending < signal.size {
      signal.pending := signal.pending + 1;
      return true;
    }
    return false;
  }

  // ---------------------------------------------------------------------
  // Rotations

  /** The successor of index i in a ring of n slots, (i + 1) mod n. */
  function Next(i: int, n: int): int {
    if i == n - 1 then 0 else i + 1
  }

  /** The predecessor of index i in a ring of n slots, (i + n - 1) mod n. */
  function Prev(i: int, n: int): int {
    if i == 0 then n - 1 else i - 1
  }

  /** The slice rotated one place to the left: the front goes to the back. */
  function RotatedLeft<T>(s: seq<T>): (r: seq<T>)
    ensures |r| == |s|
    ensures forall i :: 0 <= i < |s| ==> r[i] == s[Next(i, |s|)]
  {
    if |s| <= 1 then s else s[1..] + [s[0]]
  }

  /** The slice rotated one place to the right: the back goes to the front. */
  function RotatedRight<T>(s: seq<T>): (r: seq<T>)
    ensures |r| == |s|
    ensures forall i :: 0 <= i < |s| ==> r[i] == s[Prev(i, |s|)]
  {
    if |s| < 1 then s else [s[|s| - 1]] + s[..|s| - 1]
  }

  /** Rotating left undoes rotating right. */
  lemma LeftUndoesRight<T>(s: seq<T>)
    ensures RotatedLeft(RotatedRight(s)) == s
  {
    if |s| > 1 {
      var n := |s|;
      assert RotatedRight(s)[1..] == s[..n - 1];
      assert s == s[..n - 1] + [s[n - 1]];
    }
  }

  /** Rotating right undoes rotating left. */
  lemma RightUndoesLeft<T>(s: seq<T>)
    ensures RotatedRight(RotatedLeft(s)) == s
  {
    if |s| > 1 {
      var n := |s|;
      assert RotatedLeft(s)[..n - 1] == s[1..];
      assert s == [s[0]] + s[1..];
    }
  }

  /** RotateLeft on the slice `a[..n]`. It rebuilds the rotated slice by
      appending the front to `a[1..n]`; when the array has room past `n`
      that append writes the front into `a[n]`, and the copy back then
      fills `a[..n]`. */
  method RotateLeft<T>(a: array<T>, n: int)
    requires 0 <= n <= a.Length
    modifies a
    ensures a[..n] == RotatedLeft(old(a[..n]))
    ensures 1 < n < a.Length ==> a[n] == old(a[0])
    ensures forall k :: n <= k < a.Length && !(k == n && 1 < n) ==> a[k] == old(a[k])
  {
    if n > 1 {
      var front := a[0];
      if n < a.Length {
        a[n] := front;
      }
      forall k | 0 <= k < n - 1 {
        a[k] := a[k + 1];
      }
      a[n - 1] := front;
      assert a[..n] == old(a[..n])[1..] + [old(a[..n])[0]];
    }
  }

  /** RotateRight on the slice `a[..n]`. It appends `a[..n-1]` to the
      one-entry slice `a[n-1..n]`; when the array holds at least `2n-1`
      entries that append writes `a[..n-1]` into `a[n..2n-1]`, and the copy
      back then fills `a[..n]`. */
  method RotateRight<T>(a: array<T>, n: int)
    requires 0 <= n <= a.Length
    modifies a
    ensures a[..n] == RotatedRight(old(a[..n]))
    ensures 2 * n - 1 <= a.Length ==> forall k :: n <= k < 2 * n - 1 ==> a[k] == old(a[k - n])
    ensures forall k :: n <= k < a.Length && !(k < 2 * n - 1 <= a.Length) ==> a[k] == old(a[k])
  {
    if n < 1 {
      return;
    }
    var back := a[n - 1];
    if 2 * n - 1 <= a.Length {
      forall k | n <= k < 2 * n - 1 {
        a[k] := a[k - n];
      }
    }
    forall k | 1 <= k < n {
      a[k] := a[k - 1];
    }
    a[0] := back;
    assert a[..n] == [old(a[..n])[n - 1]] + old(a[..n])[..n - 1];
  }

  // ---------------------------------------------------------------------
  // Adding and removing

  /** Enqueue: append within capacity, or report overflow when the slice
      is full and leave it as it is. */
  method Enqueue<T>(a: array<T>, n: int, item: T) returns (n': int, overflow: bool)
    requires 0 <= n <= a.Length
    modifies a
    ensures overflow <==> n == a.Length
    ensures overflow ==> n' == n && a[..] == old(a[..])
    ensures !overflow ==> n' == n + 1 && a[..n'] == old(a[..n]) + [item]
    ensures forall k :: n' <= k < a.Length ==> a[k] == old(a[k])
  {
    if n >= a.Length {
      return n, true;
    }
    a[n] := item;
    return n + 1, false;
  }

  /** Dequeue: take the front, rotate it to the back and cut it off. The
      slot it is rotated into, and the spill slot `a[n]` of the rotation,
      keep the dequeued wrapper (the original writes nil there first). */
  method Dequeue<T(0)>(a: array<Wrapper<T>>, n: int) returns (item: T, n': int, underflow: bool)
    requires 0 <= n <= a.Length
    modifies a
    ensures underflow <==> n == 0
    ensures underflow ==> n' == 0 && a[..] == old(a[..])
    ensures !underflow ==> n' == n - 1 && item == old(a[0]).item && a[..n'] == old(a[1..n]) && a[n'] == old(a[0])
    ensures !underflow && n < a.Length ==> a[n] == (if n > 1 then old(a[0]) else old(a[n]))
    ensures forall k :: n < k < a.Length ==> a[k] == old(a[k])
  {
    if n <= 0 {
      item := *; // nil in the original
      return item, n, true;
    }
    var front := a[0];
    RotateLeft(a, n);
    assert a[..n] == old(a[..n])[1..] + [front] by {
      if n == 1 {
        assert a[..n] == old(a[..n]);
      }
    }
    assert a[..n - 1] == a[..n][..n - 1];
    return front.item, n - 1, false;
  }

  /** The built-in copy from the slice `src[..srcLen]` into the slice
      `dst[..dstLen]` of another array: as many entries as the shorter of
      the two holds are copied, and their number is returned. */
  method Copy<T>(dst: array<T>, dstLen: int, src: array<T>, srcLen: int) returns (copied: int)
    requires 0 <= dstLen <= dst.Length && 0 <= srcLen <= src.Length && dst != src
    modifies dst
    ensures copied == Min(dstLen, srcLen)
    ensures dst[..copied] == src[..copied]
    ensures forall k :: copied <= k < dst.Length ==> dst[k] == old(dst[k])
  {
    copied := Min(dstLen, srcLen);
    forall k | 0 <= k < copied {
      dst[k] := src[k];
    }
  }

  /** The smaller of two integers. */
  function Min(x: int, y: int): int {
    if x <= y then x else y
  }

  /** DequeueMultiple: remove up to `count` wrappers from the front, one
      Dequeue at a time, and return their payloads front to back. An empty
      slice is an underflow. A negative count on a non-empty slice reaches
      `make` with a negative capacity in the original, so it is excluded. */
  method DequeueMultiple<T(0)>(count: int, a: array<Wrapper<T>>, n: int) returns (items: seq<T>, n': int, underflow: bool)
    requires 0 <= n <= a.Length
    requires count >= 0 || n == 0
    modifies a
    ensures underflow <==> n == 0
    ensures underflow ==> items == [] && n' == 0 && a[..] == old(a[..])
    ensures !underflow ==> n' == n - Min(count, n) && items == Payloads(old(a[..Min(count, n)])) && a[..n'] == old(a[Min(count, n)..n])
    ensures items + Payloads(a[..n']) == Payloads(old(a[..n]))
    ensures forall k :: n < k < a.Length ==> a[k] == old(a[k])
  {
    if n <= 0 {
      return [], n, true;
    }
    var m := Min(count, n);
    ghost var a0 := a[..];
    items := [];
    n' := n;
    var i := 0;
    while i < m
      invariant 0 <= i <= m
      invariant DequeuedSoFar(a0, a[..], n, i, n', items)
    {
      var item;
      item, n' := DequeueNext(a, a0, n, i, n', items);
      items := items + [item];
      i := i + 1;
    }
    DequeuedAll(a0, a[..], n, m, items);
    underflow := false;
  }

  /** One Dequeue of DequeueMultiple's loop, after i removals. */
  method DequeueNext<T(0)>(a: array<Wrapper<T>>, ghost a0: seq<Wrapper<T>>, n: int, i: int, len: int, ghost items: seq<T>) returns (item: T, len': int)
    requires DequeuedSoFar(a0, a[..], n, i, len, items) && i < n
    modifies a
    ensures DequeuedSoFar(a0, a[..], n, i + 1, len', items + [item])
  {
    ghost var before := a[..];
    var empty;
    item, len', empty := Dequeue(a, len);
    DequeuedOneMore(a0, before, a[..], n, i, item, items);
  }

  /** The state of DequeueMultiple's loop after i removals from `a0[..n]`. */
  ghost predicate DequeuedSoFar<T>(a0: seq<Wrapper<T>>, s: seq<Wrapper<T>>, n: int, i: int, len: int, items: seq<T>) {
    && 0 <= i <= n <= |s| == |a0|
    && len == n - i
    && s[..len] == a0[i..n]
    && items == Payloads(a0[..i])
    && (forall k :: n < k < |s| ==> s[k] == a0[k])
  }

  /** One more Dequeue keeps the loop state. */
  lemma DequeuedOneMore<T>(a0: seq<Wrapper<T>>, s: seq<Wrapper<T>>, t: seq<Wrapper<T>>, n: int, i: int, item: T, items: seq<T>)
    requires DequeuedSoFar(a0, s, n, i, n - i, items) && i < n
    requires |t| == |s| && item == s[0].item && t[..n - i - 1] == s[1..n - i]
    requires forall k :: n - i < k < |s| ==> t[k] == s[k]
    ensures DequeuedSoFar(a0, t, n, i + 1, n - i - 1, items + [item])
  {
    assert s[0] == a0[i];
    assert a0[..i + 1] == a0[..i] + [a0[i]];
    PayloadsAppend(a0[..i], [a0[i]]);
  }

  /** When the loop ends, DequeueMultiple's postconditions hold. */
  lemma DequeuedAll<T>(a0: seq<Wrapper<T>>, s: seq<Wrapper<T>>, n: int, m: int, items: seq<T>)
    requires DequeuedSoFar(a0, s, n, m, n - m, items)
    ensures items == Payloads(a0[..m]) && s[..n - m] == a0[m..n]
    ensures items + Payloads(s[..n - m]) == Payloads(a0[..n])
    ensures forall k :: n < k < |s| ==> s[k] == a0[k]
  {
    assert a0[..n] == a0[..m] + a0[m..n];
    PayloadsAppend(a0[..m], a0[m..n]);
  }
}
