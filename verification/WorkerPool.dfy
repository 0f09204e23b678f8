/** The balancer's pool of workers: container/heap over the pool of balance.go.

The heap operations are those of src/pkg/container/heap/heap.go; they reach the pool only
through Less, Swap, Push and Pop.  Every worker knows its own position in the pool.
*/
module WorkerPool {

  function Parent(j: nat): nat {
    if j == 0 then 0 else (j - 1) / 2
  }

  /** Everyone in the pool is known, once, and knows its slot. */
  ghost predicate Placed(slots: seq<nat>, index: map<nat, int>, pending: map<nat, int>) {
    forall k :: 0 <= k < |slots| ==> slots[k] in index && index[slots[k]] == k && slots[k] in pending
  }

  /** Slot `k` is not smaller than its parent. */
  ghost predicate Ordered(slots: seq<nat>, pending: map<nat, int>, k: nat)
    requires k < |slots| && slots[k] in pending && slots[Parent(k)] in pending
  {
    pending[slots[Parent(k)]] <= pending[slots[k]]
  }

  ghost predicate Known(slots: seq<nat>, pending: map<nat, int>) {
    forall k :: 0 <= k < |slots| ==> slots[k] in pending
  }

  /** All of the first `n` slots are in heap order, except possibly slot `j` against its
      parent; the children of `j` are not smaller than the parent of `j`. */
  ghost predicate HeapButUp(slots: seq<nat>, pending: map<nat, int>, n: nat, j: nat)
    requires Known(slots, pending) && n <= |slots|
  {
    && (forall k: nat :: k < n && k != j ==> Ordered(slots, pending, k))
    && (forall k: nat :: 0 < k < n && Parent(k) == j && 0 < j ==> pending[slots[Parent(j)]] <= pending[slots[k]])
  }

  /** As `HeapButUp`, with slot `j` out of order against its children too. */
  ghost predicate HeapBut(slots: seq<nat>, pending: map<nat, int>, n: nat, j: nat)
    requires Known(slots, pending) && n <= |slots|
  {
    && (forall k: nat :: k < n && k != j && Parent(k) != j ==> Ordered(slots, pending, k))
    && (forall k: nat :: 0 < k < n && Parent(k) == j && 0 < j < n ==> pending[slots[Parent(j)]] <= pending[slots[k]])
  }

  ghost predicate Heap(slots: seq<nat>, pending: map<nat, int>, n: nat)
    requires Known(slots, pending) && n <= |slots|
  {
    forall k: nat :: k < n ==> Ordered(slots, pending, k)
  }

  /** The root of a heap is a least element. */
  lemma {:induction false} RootIsLeast(slots: seq<nat>, pending: map<nat, int>, k: nat)
    requires Known(slots, pending) && Heap(slots, pending, |slots|) && k < |slots|
    ensures pending[slots[0]] <= pending[slots[k]]
    decreases k
  {
    if k > 0 {
      assert Ordered(slots, pending, k);
      RootIsLeast(slots, pending, Parent(k));
    }
  }

  lemma RootIsLeastOfAll(slots: seq<nat>, pending: map<nat, int>)
    requires Known(slots, pending) && Heap(slots, pending, |slots|) && slots != []
    ensures forall v :: v in slots ==> v in pending && pending[slots[0]] <= pending[v]
  {
    forall v | v in slots ensures v in pending && pending[slots[0]] <= pending[v] {
      var k :| 0 <= k < |slots| && slots[k] == v;
      RootIsLeast(slots, pending, k);
    }
  }

  /** Exchanging slot `j` with its larger parent moves the disorder up to the parent. */
  lemma SwapUp(s: seq<nat>, s': seq<nat>, pending: map<nat, int>, n: nat, j: nat)
    requires Known(s, pending) && 0 < j < n <= |s| && HeapButUp(s, pending, n, j)
    requires pending[s[Parent(j)]] >= pending[s[j]]
    requires s' == s[Parent(j) := s[j]][j := s[Parent(j)]]
    ensures Known(s', pending) && HeapButUp(s', pending, n, Parent(j))
  {
    var i := Parent(j);
    forall k: nat | k < n && k != i ensures Ordered(s', pending, k) {
      if k != j {
        assert Ordered(s, pending, k);
      }
    }
    forall k: nat | 0 < k < n && Parent(k) == i && 0 < i ensures pending[s'[Parent(i)]] <= pending[s'[k]] {
      assert Ordered(s, pending, i);
      if k != j {
        assert Ordered(s, pending, k);
      }
    }
  }

  /** Exchanging slot `i` with its smallest child, when the child is not larger, moves the
      disorder down to the child. */
  lemma SwapDown(s: seq<nat>, s': seq<nat>, pending: map<nat, int>, n: nat, i: nat, j: nat)
    requires Known(s, pending) && 0 < j < n <= |s| && Parent(j) == i && HeapBut(s, pending, n, i)
    requires pending[s[j]] <= pending[s[i]]
    requires forall k: nat :: 0 < k < n && Parent(k) == i ==> pending[s[j]] <= pending[s[k]]
    requires s' == s[i := s[j]][j := s[i]]
    ensures Known(s', pending) && HeapBut(s', pending, n, j) && Ordered(s', pending, j)
  {
    forall k: nat | k < n && k != j && Parent(k) != j ensures Ordered(s', pending, k) {
      if k != i && Parent(k) != i {
        assert Ordered(s, pending, k);
      }
    }
    forall k: nat | 0 < k < n && Parent(k) == j ensures pending[s'[Parent(j)]] <= pending[s'[k]] {
      assert Ordered(s, pending, k);
    }
  }

  /** A slot that is in order with its children after sifting down leaves at most the start
      out of order, against its parent only. */
  lemma SettledDown(s: seq<nat>, pending: map<nat, int>, n: nat, i0: nat, i: nat)
    requires Known(s, pending) && i0 <= i < n <= |s| && HeapBut(s, pending, n, i)
    requires forall k: nat :: 0 < k < n && Parent(k) == i ==> pending[s[i]] <= pending[s[k]]
    requires i > i0 ==> Ordered(s, pending, i)
    ensures HeapButUp(s, pending, n, i0)
  {
    forall k: nat | k < n && k != i0 ensures Ordered(s, pending, k) {
    }
    if i > i0 {
      forall k: nat | 0 < k < n && Parent(k) == i0 ensures pending[s[Parent(i0)]] <= pending[s[k]] {
        assert Ordered(s, pending, i0);
        assert Ordered(s, pending, k);
      }
    }
  }

  class Pool {
    var slots: seq<nat>
    var index: map<nat, int>
    var pending: map<nat, int>

    ghost predicate Valid()
      reads this
    {
      Placed(slots, index, pending)
    }

    predicate Less(i: nat, j: nat)
      requires i < |slots| && j < |slots| && slots[i] in pending && slots[j] in pending
      reads this
    {
      pending[slots[i]] < pending[slots[j]]
    }

    method Swap(i: nat, j: nat)
      requires Valid() && i < |slots| && j < |slots|
      modifies this`slots, this`index
      ensures Valid()
      ensures slots == old(slots)[i := old(slots)[j]][j := old(slots)[i]]
      ensures multiset(slots) == old(multiset(slots))
    {
      var a, b := slots[i], slots[j];
      slots := slots[i := b][j := a];
      index := index[b := i];
      index := index[a := j];
    }

    /** Sift slot `j0` up; only the first `n` slots are in heap order. */
    method Up(j0: nat, ghost n: nat)
      requires Valid() && j0 < n <= |slots| && HeapButUp(slots, pending, n, j0)
      modifies this`slots, this`index
      ensures Valid() && |slots| == old(|slots|) && multiset(slots) == old(multiset(slots))
      ensures slots[n..] == old(slots)[n..] && Heap(slots, pending, n)
    {
      var j: nat := j0;
      while true
        invariant Valid() && |slots| == old(|slots|) && multiset(slots) == old(multiset(slots))
        invariant slots[n..] == old(slots)[n..]
        invariant j < n && HeapButUp(slots, pending, n, j)
        decreases j
      {
        var i := Parent(j);
        if i == j || Less(i, j) {
          break;
        }
        ghost var before := slots;
        Swap(i, j);
        SwapUp(before, slots, pending, n, j);
        j := i;
      }
    }

    /** The smaller of the one or two children of `i` among the first `n` slots. */
    method SmallerChild(i: nat, n: nat) returns (j: nat)
      requires Valid() && 2 * i + 1 < n <= |slots|
      ensures 0 < j < n && Parent(j) == i
      ensures forall k: nat :: 0 < k < n && Parent(k) == i ==> pending[slots[j]] <= pending[slots[k]]
    {
      var j1 := 2 * i + 1;
      j := j1;
      if j1 + 1 < n && !Less(j1, j1 + 1) {
        j := j1 + 1;
      }
      assert forall k: nat :: 0 < k && Parent(k) == i ==> k == j1 || k == j1 + 1;
    }

    /** Sift slot `i0` down among the first `n` slots. */
    method Down(i0: nat, n: nat)
      requires Valid() && i0 <= n <= |slots| && HeapBut(slots, pending, n, i0)
      modifies this`slots, this`index
      ensures Valid() && |slots| == old(|slots|) && multiset(slots) == old(multiset(slots))
      ensures slots[n..] == old(slots)[n..]
      ensures i0 < n ==> HeapButUp(slots, pending, n, i0)
      ensures i0 == n ==> slots == old(slots)
    {
      var i: nat := i0;
      while true
        invariant Valid() && |slots| == old(|slots|) && multiset(slots) == old(multiset(slots))
        invariant slots[n..] == old(slots)[n..]
        invariant i0 <= i <= n && HeapBut(slots, pending, n, i)
        invariant i0 == n ==> slots == old(slots)
        invariant i > i0 ==> i < n && Ordered(slots, pending, i)
        decreases n - i
      {
        if 2 * i + 1 >= n {
          break;
        }
        var j := SmallerChild(i, n);
        if Less(i, j) {
          break;
        }
        ghost var before := slots;
        Swap(i, j);
        SwapDown(before, slots, pending, n, i, j);
        i := j;
      }
      if i0 < n {
        SettledDown(slots, pending, n, i0, i);
      }
    }

    method PoolPush(w: nat)
      requires Valid() && w in pending && w !in slots
      modifies this`slots, this`index
      ensures Valid() && slots == old(slots) + [w]
    {
      index := index[w := |slots|];
      slots := slots + [w];
    }

    method PoolPop() returns (w: nat)
      requires Valid() && slots != []
      modifies this`slots, this`index
      ensures Valid() && slots == old(slots)[..|old(slots)| - 1] && w == old(slots)[|old(slots)| - 1]
      ensures w !in slots
    {
      w := slots[|slots| - 1];
      slots := slots[..|slots| - 1];
      index := index[w := -1];
    }

    /** heap.Push */
    method Push(w: nat)
      requires Valid() && Heap(slots, pending, |slots|) && w in pending && w !in slots
      modifies this`slots, this`index
      ensures Valid() && Heap(slots, pending, |slots|)
      ensures multiset(slots) == old(multiset(slots)) + multiset{w}
    {
      ghost var before := slots;
      PoolPush(w);
      assert forall k: nat :: k < |before| ==> Ordered(before, pending, k) ==> Ordered(slots, pending, k);
      Up(|slots| - 1, |slots|);
    }

    /** heap.Pop: the worker with the fewest pending requests. */
    method Pop() returns (w: nat)
      requires Valid() && Heap(slots, pending, |slots|) && slots != []
      modifies this`slots, this`index
      ensures Valid() && Heap(slots, pending, |slots|)
      ensures old(multiset(slots)) == multiset(slots) + multiset{w} && w !in slots
      ensures w in pending && forall v :: v in old(slots) ==> v in pending && pending[w] <= pending[v]
    {
      RootIsLeastOfAll(slots, pending);
      var n := |slots| - 1;
      ghost var before := slots;
      Swap(0, n);
      if n > 0 {
        LastSwapped(before, slots, pending, 0);
      }
      Down(0, n);
      assert slots[n..] == [before[0]];
      w := TakeLast(before[0]);
    }

    /** heap.Remove: takes out the worker in slot `i`, even when that worker's count has just
        changed. */
    method Remove(i: nat) returns (w: nat)
      requires Valid() && i < |slots| && HeapBut(slots, pending, |slots|, i)
      modifies this`slots, this`index
      ensures Valid() && Heap(slots, pending, |slots|)
      ensures w == old(slots)[i] && w !in slots
      ensures old(multiset(slots)) == multiset(slots) + multiset{w}
    {
      ghost var before := slots;
      PutLast(i);
      w := TakeLast(before[i]);
    }

    /** Exchange slot `i` with the last one and restore the order of the rest. */
    method PutLast(i: nat)
      requires Valid() && i < |slots| && HeapBut(slots, pending, |slots|, i)
      modifies this`slots, this`index
      ensures Valid() && |slots| == old(|slots|) && multiset(slots) == old(multiset(slots))
      ensures slots[|slots| - 1..] == [old(slots)[i]] && Heap(slots, pending, |slots| - 1)
    {
      var n := |slots| - 1;
      if n != i {
        SwapLast(i, n);
        Down(i, n);
        Up(i, n);
      } else {
        OthersInOrder(slots, pending, n);
      }
    }

    method SwapLast(i: nat, n: nat)
      requires Valid() && i < n == |slots| - 1 && HeapBut(slots, pending, n + 1, i)
      modifies this`slots, this`index
      ensures Valid() && |slots| == n + 1 && multiset(slots) == old(multiset(slots))
      ensures slots[n..] == [old(slots)[i]] && HeapBut(slots, pending, n, i)
    {
      ghost var before := slots;
      Swap(i, n);
      LastSwapped(before, slots, pending, i);
    }

    /** The interface's Pop, when the rest is in order and the last slot holds `last`. */
    method TakeLast(ghost last: nat) returns (w: nat)
      requires Valid() && slots != [] && slots[|slots| - 1..] == [last] && Heap(slots, pending, |slots| - 1)
      modifies this`slots, this`index
      ensures Valid() && Heap(slots, pending, |slots|)
      ensures w == last && w !in slots && old(multiset(slots)) == multiset(slots) + multiset{w}
    {
      ghost var before := slots;
      w := PoolPop();
      assert before == slots + [w];
      forall k: nat | k < |slots| ensures Ordered(slots, pending, k) {
        assert Ordered(before, pending, k);
      }
    }

    // -------------------------------------------------------------- the balancer's use of it

    /** dispatch: a least-loaded worker is charged with one more request and stays in the
        pool. */
    method Dispatch() returns (w: nat)
      requires Valid() && Heap(slots, pending, |slots|) && slots != []
      modifies this
      ensures Valid() && Heap(slots, pending, |slots|)
      ensures w in old(slots) && forall v :: v in old(slots) ==> v in old(pending) && old(pending)[w] <= old(pending)[v]
      ensures multiset(slots) == old(multiset(slots))
      ensures w in old(pending) && pending == old(pending)[w := old(pending)[w] + 1]
    {
      w := Pop();
      assert w in old(multiset(slots));
      Recount(w, pending[w] + 1);
      Push(w);
    }

    /** completed: the worker itself, wherever it is in the pool, is relieved of one. */
    method Completed(w: nat)
      requires Valid() && Heap(slots, pending, |slots|) && w in slots
      modifies this
      ensures Valid() && Heap(slots, pending, |slots|)
      ensures multiset(slots) == old(multiset(slots))
      ensures w in old(pending) && pending == old(pending)[w := old(pending)[w] - 1]
    {
      ghost var before := pending;
      pending := pending[w := pending[w] - 1];
      var i := index[w];
      CountChanged(slots, before, pending, i);
      var v := Remove(i);
      Push(v);
    }

    /** Change the count of a worker that is not in the pool. */
    method Recount(w: nat, count: int)
      requires Valid() && Heap(slots, pending, |slots|) && w !in slots
      modifies this`pending
      ensures Valid() && Heap(slots, pending, |slots|)
      ensures pending == old(pending)[w := count]
    {
      ghost var before := pending;
      pending := pending[w := count];
      forall k: nat | k < |slots| ensures Ordered(slots, pending, k) {
        assert Ordered(slots, before, k);
        assert slots[k] in slots && slots[Parent(k)] in slots;
      }
    }
  }

  /** Exchanging slot `i` with the last one puts slot `i` of the rest out of order at most. */
  lemma LastSwapped(s: seq<nat>, s': seq<nat>, pending: map<nat, int>, i: nat)
    requires Known(s, pending) && i < |s| - 1 && HeapBut(s, pending, |s|, i)
    requires s' == s[i := s[|s| - 1]][|s| - 1 := s[i]]
    ensures Known(s', pending) && HeapBut(s', pending, |s| - 1, i)
  {
    var n := |s| - 1;
    forall k: nat | k < n && k != i && Parent(k) != i ensures Ordered(s', pending, k) {
      assert Ordered(s, pending, k);
    }
  }

  /** Where only the last slot may be out of order, the others are in order. */
  lemma OthersInOrder(s: seq<nat>, pending: map<nat, int>, n: nat)
    requires Known(s, pending) && n < |s| && HeapBut(s, pending, n + 1, n)
    ensures Heap(s, pending, n)
  {
    assert forall k: nat :: k < n ==> Parent(k) < n;
  }

  /** Changing one worker's count puts its slot out of order at most. */
  lemma CountChanged(s: seq<nat>, pending: map<nat, int>, pending': map<nat, int>, i: nat)
    requires Known(s, pending) && Heap(s, pending, |s|) && i < |s|
    requires forall k :: 0 <= k < |s| && k != i ==> s[k] != s[i]
    requires pending'.Keys == pending.Keys && forall w :: w in pending && w != s[i] ==> pending'[w] == pending[w]
    ensures Known(s, pending') && HeapBut(s, pending', |s|, i)
  {
    forall k: nat | k < |s| && k != i && Parent(k) != i ensures Ordered(s, pending', k) {
      assert Ordered(s, pending, k);
    }
    forall k: nat | 0 < k < |s| && Parent(k) == i ensures 0 < i ==> pending'[s[Parent(i)]] <= pending'[s[k]] {
      assert Ordered(s, pending, k) && Ordered(s, pending, i);
    }
  }
}
