/** The timers' array heap, ordered by deadline and then by id. */
module TimerHeap {
  /** num: fires left; 0 is forever. */
  datatype Timer = Timer(id: nat, tic: int, exp: int, num: int, fn: nat)

  predicate Less(a: Timer, b: Timer) {
    a.exp < b.exp || (a.exp == b.exp && a.id < b.id)
  }

  function Parent(i: nat): nat
    requires i > 0
  {
    (i - 1) / 2
  }

  function Swap(h: seq<Timer>, i: nat, j: nat): (g: seq<Timer>)
    requires i < |h| && j < |h|
    ensures |g| == |h| && multiset(g) == multiset(h)
  {
    assert multiset(h[i := h[j]][j := h[i]]) == multiset(h) by { SwapBag(h, i, j); }
    h[i := h[j]][j := h[i]]
  }

  lemma SwapBag(h: seq<Timer>, i: nat, j: nat)
    requires i < |h| && j < |h|
    ensures multiset(h[i := h[j]][j := h[i]]) == multiset(h)
  {
  }

  function SiftUp(h: seq<Timer>, i: nat): (g: seq<Timer>)
    requires i < |h|
    ensures |g| == |h| && multiset(g) == multiset(h)
    decreases i
  {
    if i > 0 && Less(h[i], h[Parent(i)]) then SiftUp(Swap(h, i, Parent(i)), Parent(i)) else h
  }

  /** The least of i and its children. */
  function Best(h: seq<Timer>, i: nat): (b: nat)
    requires i < |h|
    ensures b < |h| && (b == i || (b > 0 && Parent(b) == i))
    ensures b != i ==> Less(h[b], h[i])
    ensures forall k :: 0 < k < |h| && Parent(k) == i ==> !Less(h[k], h[b])
  {
    var l, r := 2 * i + 1, 2 * i + 2;
    var b := if l < |h| && Less(h[l], h[i]) then l else i;
    if r < |h| && Less(h[r], h[b]) then r else b
  }

  function SiftDown(h: seq<Timer>, i: nat): (g: seq<Timer>)
    requires i < |h|
    ensures |g| == |h| && multiset(g) == multiset(h)
    decreases |h| - i
  {
    var b := Best(h, i);
    if b == i then h else SiftDown(Swap(h, i, b), b)
  }

  // ---------- heap order ----------

  /** The entry at k is not before its parent. */
  predicate Under(h: seq<Timer>, k: nat)
    requires 0 < k < |h|
  {
    !Less(h[k], h[Parent(k)])
  }

  ghost predicate Heap(h: seq<Timer>) {
    forall k: nat :: 0 < k < |h| ==> Under(h, k)
  }

  /** A heap but for the entry at i, which may be too early for its place. */
  ghost predicate Rising(h: seq<Timer>, i: nat)
    requires i < |h|
  {
    && (forall k: nat :: 0 < k < |h| && k != i ==> Under(h, k))
    && (i > 0 ==> forall k: nat :: 0 < k < |h| && Parent(k) == i ==> !Less(h[k], h[Parent(i)]))
  }

  /** A heap but for the entry at i, which may be too late for its place. */
  ghost predicate Sinking(h: seq<Timer>, i: nat)
    requires i < |h|
  {
    && (forall k: nat :: 0 < k < |h| && Parent(k) != i ==> Under(h, k))
    && (i > 0 ==> forall k: nat :: 0 < k < |h| && Parent(k) == i ==> !Less(h[k], h[Parent(i)]))
  }

  lemma {:induction false} SiftUpHeap(h: seq<Timer>, i: nat)
    requires i < |h| && Rising(h, i)
    ensures Heap(SiftUp(h, i))
    decreases i
  {
    if i > 0 && Less(h[i], h[Parent(i)]) {
      var p := Parent(i);
      var g := Swap(h, i, p);
      forall k: nat | 0 < k < |g| && k != p ensures Under(g, k) {
        assert k != i ==> Under(h, k);
      }
      forall k: nat | p > 0 && 0 < k < |g| && Parent(k) == p ensures !Less(g[k], g[Parent(p)]) {
        assert Under(h, p) && (k != i ==> Under(h, k));
      }
      SiftUpHeap(g, p);
    }
  }

  lemma {:induction false} SiftDownHeap(h: seq<Timer>, i: nat)
    requires i < |h| && Sinking(h, i)
    ensures Heap(SiftDown(h, i))
    decreases |h| - i
  {
    var b := Best(h, i);
    if b == i {
      forall k: nat | 0 < k < |h| ensures Under(h, k) { }
    } else {
      var g := Swap(h, i, b);
      forall k: nat | 0 < k < |g| && Parent(k) != b ensures Under(g, k) {
        if Parent(k) != i && k != i { assert Under(h, k); }
      }
      forall k: nat | 0 < k < |g| && Parent(k) == b ensures !Less(g[k], g[Parent(b)]) {
        assert Under(h, k);
      }
      SiftDownHeap(g, b);
    }
  }

  lemma {:induction false} SiftUpStays(h: seq<Timer>, i: nat)
    requires i < |h| && (i > 0 ==> Under(h, i))
    ensures SiftUp(h, i) == h
  {
  }

  /** In a heap the root is the least entry. */
  lemma {:induction false} RootLeast(h: seq<Timer>, k: nat)
    requires Heap(h) && k < |h|
    ensures !Less(h[k], h[0])
    decreases k
  {
    if k > 0 {
      assert Under(h, k);
      RootLeast(h, Parent(k));
    }
  }

  // ---------- removal anywhere ----------

  /** The tail moved into the gap at i. */
  function Moved(h: seq<Timer>, i: nat): (g: seq<Timer>)
    requires i < |h| - 1
    ensures |g| == |h| - 1 && forall k :: 0 <= k < |g| ==> g[k] == if k == i then h[|h| - 1] else h[k]
  {
    h[..|h| - 1][i := h[|h| - 1]]
  }

  /** The gap is closed by the tail, sifted down and up. */
  function Removed(h: seq<Timer>, i: nat): (g: seq<Timer>)
    requires i < |h|
    ensures |g| == |h| - 1
  {
    if i == |h| - 1 then h[..|h| - 1] else SiftUp(SiftDown(Moved(h, i), i), i)
  }

  /** The entry moved in can be too late or too early, not both. */
  lemma {:induction false} FillGap(h: seq<Timer>, i: nat, x: Timer)
    requires Heap(h) && i < |h|
    ensures var g := h[i := x]; Heap(SiftUp(SiftDown(g, i), i))
  {
    var g := h[i := x];
    forall k: nat | 0 < k < |h| ensures Under(h, k) { }
    if i > 0 && Less(x, h[Parent(i)]) {
      forall k: nat | 0 < k < |g| && Parent(k) == i ensures !Less(g[k], g[Parent(i)]) {
        assert Under(h, k) && Under(h, i);
      }
      assert Best(g, i) == i;
      assert Rising(g, i) by {
        forall k: nat | 0 < k < |g| && k != i ensures Under(g, k) { assert Under(h, k); }
      }
      SiftUpHeap(g, i);
    } else {
      assert Sinking(g, i) by {
        forall k: nat | 0 < k < |g| && Parent(k) != i ensures Under(g, k) { assert Under(h, k); }
        forall k: nat | i > 0 && 0 < k < |g| && Parent(k) == i ensures !Less(g[k], g[Parent(i)]) {
          assert Under(h, k) && Under(h, i);
        }
      }
      SiftDownHeap(g, i);
      assert i > 0 ==> Under(SiftDown(g, i), i);
      SiftUpStays(SiftDown(g, i), i);
    }
  }

  /** Removing the entry at any index restores heap order and leaves exactly the others. */
  lemma RemovedHeap(h: seq<Timer>, i: nat)
    requires Heap(h) && i < |h|
    ensures Heap(Removed(h, i)) && multiset(Removed(h, i)) == multiset(h) - multiset{h[i]}
  {
    hide SiftUp, SiftDown;
    var n := |h| - 1;
    var r := h[..n];
    assert h == r + [h[n]];
    assert Heap(r) by { forall k: nat | 0 < k < n ensures Under(r, k) { assert Under(h, k); } }
    if i < n {
      FillGap(r, i, h[n]);
      ReplaceBag(r, i, h[n]);
    }
  }

  lemma ReplaceBag(r: seq<Timer>, i: nat, t: Timer)
    requires i < |r|
    ensures multiset(r[i := t]) == multiset(r) - multiset{r[i]} + multiset{t}
  {
  }

  lemma PushedHeap(h: seq<Timer>, x: Timer)
    requires Heap(h)
    ensures Heap(SiftUp(h + [x], |h|)) && multiset(SiftUp(h + [x], |h|)) == multiset(h) + multiset{x}
  {
    var g := h + [x];
    assert Rising(g, |h|) by {
      forall k: nat | 0 < k < |g| && k != |h| ensures Under(g, k) { assert Under(h, k); }
    }
    SiftUpHeap(g, |h|);
  }

  /** At the root sifting down suffices. */
  lemma PoppedHeap(h: seq<Timer>)
    requires Heap(h) && |h| > 1
    ensures var g := SiftDown(Moved(h, 0), 0); Heap(g) && multiset(g) == multiset(h) - multiset{h[0]}
  {
    RemovedHeap(h, 0);
    SiftUpStays(SiftDown(Moved(h, 0), 0), 0);
  }

  // ---------- in place ----------

  method HeapSwap(heap: array<Timer>, i: nat, j: nat)
    requires i < heap.Length && j < heap.Length
    modifies heap
    ensures heap[i] == old(heap[j]) && heap[j] == old(heap[i])
    ensures forall k :: 0 <= k < heap.Length && k != i && k != j ==> heap[k] == old(heap[k])
  {
    var tmp := heap[i];
    heap[i] := heap[j];
    heap[j] := tmp;
  }

  /** The first entries are h. */
  predicate Stores(heap: array<Timer>, h: seq<Timer>)
    reads heap
  {
    |h| <= heap.Length && forall k :: 0 <= k < |h| ==> heap[k] == h[k]
  }

  method HeapUp(heap: array<Timer>, start: nat, ghost h: seq<Timer>)
    requires Stores(heap, h) && start < |h|
    modifies heap
    ensures Stores(heap, SiftUp(h, start))
  {
    var i: nat := start;
    ghost var g := h;
    while i > 0
      invariant i < |g| == |h| && Stores(heap, g) && SiftUp(g, i) == SiftUp(h, start)
    {
      var parent := (i - 1) / 2;
      if !Less(heap[i], heap[parent]) { break; }
      HeapSwap(heap, i, parent);
      g := Swap(g, i, parent);
      i := parent;
    }
  }

  method HeapBest(heap: array<Timer>, n: nat, i: nat, ghost h: seq<Timer>) returns (best: nat)
    requires Stores(heap, h) && n == |h| && i < n
    ensures best == Best(h, i)
  {
    var l, r := 2 * i + 1, 2 * i + 2;
    best := i;
    if l < n && Less(heap[l], heap[best]) { best := l; }
    if r < n && Less(heap[r], heap[best]) { best := r; }
  }

  /** Sifting g down from i is what sifting h down from j comes to. */
  ghost predicate SameDown(g: seq<Timer>, i: nat, h: seq<Timer>, j: nat) {
    i < |g| && j < |h| && SiftDown(g, i) == SiftDown(h, j)
  }

  method HeapDown(heap: array<Timer>, n: nat, start: nat, ghost h: seq<Timer>)
    requires Stores(heap, h) && n == |h| && start < n
    modifies heap
    ensures Stores(heap, SiftDown(h, start))
  {
    var i := start;
    ghost var g := h;
    while true
      invariant i < |g| == n && Stores(heap, g) && SameDown(g, i, h, start)
      decreases n - i
    {
      var best := HeapBest(heap, n, i, g);
      if best == i { break; }
      HeapSwap(heap, i, best);
      g := Swap(g, i, best);
      i := best;
    }
  }

  /** Closes the gap left by the entry at i. */
  method HeapRemove(heap: array<Timer>, n: nat, i: nat, ghost h: seq<Timer>)
    requires Stores(heap, h) && n == |h| - 1 && i <= n
    modifies heap
    ensures Stores(heap, Removed(h, i))
  {
    if i < n {
      heap[i] := heap[n];
      assert Stores(heap, Moved(h, i));
      HeapDown(heap, n, i, Moved(h, i));
      HeapUp(heap, i, SiftDown(Moved(h, i), i));
    }
  }

  /** Replaces the root by the tail. */
  method HeapPop(heap: array<Timer>, n: nat, ghost h: seq<Timer>)
    requires Stores(heap, h) && n == |h| - 1 && n > 0
    modifies heap
    ensures Stores(heap, SiftDown(Moved(h, 0), 0))
  {
    heap[0] := heap[n];
    assert Stores(heap, Moved(h, 0));
    HeapDown(heap, n, 0, Moved(h, 0));
  }
}
