/** What the timers do: a queue in firing order, and whole runs of it. */
module TimerQueue {
  import opened Arithmetic
  import opened Wrappers
  import opened TimerHeap

  function Insert(q: seq<Timer>, t: Timer): (r: seq<Timer>)
    ensures |r| == |q| + 1
  {
    if q == [] || Less(t, q[0]) then [t] + q else [q[0]] + Insert(q[1..], t)
  }

  function Delete(q: seq<Timer>, id: nat): (r: seq<Timer>)
    ensures |r| <= |q|
  {
    if q == [] then [] else if q[0].id == id then q[1..] else [q[0]] + Delete(q[1..], id)
  }

  predicate Has(q: seq<Timer>, id: nat) { exists t :: t in q && t.id == id }

  /** What firing leaves of a timer. */
  function Next(t: Timer): Option<Timer> {
    if t.num == 0 then Some(t.(exp := t.exp + t.tic))
    else if t.num > 1 then Some(t.(exp := t.exp + t.tic, num := t.num - 1))
    else None
  }

  /** The head fires. */
  function Fire(q: seq<Timer>): seq<Timer>
    requires q != []
  {
    match Next(q[0])
    case None => q[1..]
    case Some(t) => Insert(q[1..], t)
  }

  predicate Due(q: seq<Timer>, now: int) { q != [] && q[0].exp <= now }

  /** Firing what is due, with one reading of the clock per fire: the queue left, the
      timers fired, and whether nothing is due at the last reading. */
  datatype Fired = Fired(queue: seq<Timer>, log: seq<Timer>, done: bool)

  function FireAll(q: seq<Timer>, clock: seq<int>): Fired
    decreases |clock|
  {
    if clock == [] then Fired(q, [], false)
    else if !Due(q, clock[0]) then Fired(q, [], true)
    else
      var r := FireAll(Fire(q), clock[1..]);
      Fired(r.queue, [q[0]] + r.log, r.done)
  }

  // ---------- the queue stays sorted, without repeated ids ----------

  /** t comes before all of q and shares its id with none. */
  ghost predicate Before(t: Timer, q: seq<Timer>) {
    forall u :: u in q ==> Less(t, u) && u.id != t.id
  }

  ghost predicate Good(q: seq<Timer>, next: nat)
    decreases |q|
  {
    q == [] || (q[0].id < next && Before(q[0], q[1..]) && Good(q[1..], next))
  }

  lemma {:induction false} InsertBag(q: seq<Timer>, t: Timer)
    ensures multiset(Insert(q, t)) == multiset(q) + multiset{t}
    ensures forall u :: u in Insert(q, t) <==> u in q || u == t
    decreases |q|
  {
    if q != [] {
      assert q == [q[0]] + q[1..];
      InsertBag(q[1..], t);
    }
  }

  lemma {:induction false} BeforeAll(t: Timer, q: seq<Timer>, next: nat)
    requires Good(q, next) && (q != [] ==> Less(t, q[0])) && forall u :: u in q ==> u.id != t.id
    ensures Before(t, q)
  {
    if q != [] { assert q == [q[0]] + q[1..]; }
  }

  lemma {:induction false} InsertGood(q: seq<Timer>, t: Timer, next: nat)
    requires Good(q, next) && t.id < next && !Has(q, t.id)
    ensures Good(Insert(q, t), next)
    decreases |q|
  {
    if q == [] || Less(t, q[0]) {
      BeforeAll(t, q, next);
      assert ([t] + q)[1..] == q;
    } else {
      assert q == [q[0]] + q[1..] && q[0] in q;
      assert forall u :: u in q[1..] ==> u in q;
      InsertGood(q[1..], t, next);
      InsertBag(q[1..], t);
      assert Insert(q, t)[1..] == Insert(q[1..], t);
    }
  }

  lemma {:induction false} DeleteBag(q: seq<Timer>, t: Timer, next: nat)
    requires Good(q, next) && t in q
    ensures multiset(Delete(q, t.id)) == multiset(q) - multiset{t}
    decreases |q|
  {
    assert q == [q[0]] + q[1..];
    if q[0].id != t.id { DeleteBag(q[1..], t, next); }
  }

  lemma {:induction false} DeleteGood(q: seq<Timer>, id: nat, next: nat)
    requires Good(q, next)
    ensures Good(Delete(q, id), next)
    ensures forall u :: u in Delete(q, id) <==> u in q && u.id != id
    decreases |q|
  {
    if q != [] {
      assert q == [q[0]] + q[1..];
      DeleteGood(q[1..], id, next);
      if q[0].id != id { assert Delete(q, id)[1..] == Delete(q[1..], id); }
    }
  }

  lemma FireGood(q: seq<Timer>, next: nat)
    requires Good(q, next) && q != []
    ensures Good(Fire(q), next)
  {
    if Next(q[0]).Some? { InsertGood(q[1..], Next(q[0]).value, next); }
  }

  /** Timers with one id are one timer. */
  lemma {:induction false} SameTimer(q: seq<Timer>, next: nat, t: Timer, u: Timer)
    requires Good(q, next) && t in q && u in q && t.id == u.id
    ensures t == u
    decreases |q|
  {
    assert q == [q[0]] + q[1..];
    if t != q[0] && u != q[0] { SameTimer(q[1..], next, t, u); }
  }

  // ---------- the heap's root is the queue's head ----------

  lemma BagMember(h: seq<Timer>, q: seq<Timer>, t: Timer)
    requires multiset(h) == multiset(q)
    ensures t in h <==> t in q
  {
    assert t in h <==> t in multiset(h);
    assert t in q <==> t in multiset(q);
  }

  lemma RootIsHead(h: seq<Timer>, q: seq<Timer>, next: nat)
    requires Heap(h) && Good(q, next) && multiset(h) == multiset(q) && h != []
    ensures q != [] && h[0] == q[0]
  {
    BagMember(h, q, h[0]);
    assert h[0] in q && q == [q[0]] + q[1..];
    BagMember(h, q, q[0]);
    var i :| 0 <= i < |h| && h[i] == q[0];
    RootLeast(h, i);
  }

  // ---------- the timers object ----------

  const NO_DEADLINE: int := INT64_MAX

  class Timers {
    var heap: array<Timer>
    var n: nat
    var nextId: nat
    ghost var h: seq<Timer>                   // heap[..n]
    ghost var queue: seq<Timer>               // the same timers in firing order

    ghost predicate Valid()
      reads this, heap
    {
      && n == |h| && heap.Length > 0 && Stores(heap, h) && Heap(h)
      && Good(queue, nextId) && multiset(h) == multiset(queue)
    }

    constructor (initialCap: int)
      ensures Valid() && queue == [] && nextId == 0 && fresh(heap)
    {
      heap := new Timer[if initialCap < 1 then 1 else initialCap];
      n, nextId, h, queue := 0, 0, [], [];
    }

    method Grow()
      requires Valid()
      modifies this`heap
      ensures Valid() && fresh(heap) && heap.Length == 2 * old(heap.Length)
    {
      var bigger := new Timer[2 * heap.Length];
      forall k | 0 <= k < n { bigger[k] := heap[k]; }
      heap := bigger;
    }

    /** Appends and sifts up; the capacity suffices. */
    method Push(t: Timer)
      requires n == |h| && n < heap.Length && Stores(heap, h) && Heap(h)
      modifies this`n, this`h, heap
      ensures n == |h| == old(n) + 1 && Stores(heap, h) && Heap(h) && multiset(h) == multiset(old(h)) + multiset{t}
    {
      heap[n] := t;
      PushedHeap(h, t);
      HeapUp(heap, n, h + [t]);
      h := SiftUp(h + [t], n);
      n := n + 1;
    }

    method Add(now: int, tic: int, num: int, fn: nat) returns (id: nat)
      requires Valid()
      modifies this, heap
      ensures Valid() && id == old(nextId) && nextId == id + 1 && (heap == old(heap) || fresh(heap))
      ensures queue == Insert(old(queue), Timer(id, tic, now + tic, num, fn))
    {
      if n >= heap.Length { Grow(); }
      id := nextId;
      var t := Timer(id, tic, now + tic, num, fn);
      nextId := nextId + 1;
      Push(t);
      GoodNext(queue, id, id + 1);
      InsertGood(queue, t, nextId);
      InsertBag(queue, t);
      queue := Insert(queue, t);
    }

    /** The first entry with the id, or n. */
    method Search(id: nat) returns (i: nat)
      requires Valid()
      ensures i <= n && (i < n ==> h[i].id == id)
      ensures i == n ==> !Has(queue, id) && Delete(queue, id) == queue
    {
      i := 0;
      while i < n
        invariant i <= n && forall k :: 0 <= k < i ==> h[k].id != id
      {
        if heap[i].id == id { return; }
        i := i + 1;
      }
      NotThere(h, queue, id);
    }

    method Del(id: nat) returns (found: bool)
      requires Valid()
      modifies this`n, this`h, this`queue, heap
      ensures Valid() && nextId == old(nextId) && found == Has(old(queue), id)
      ensures queue == Delete(old(queue), id) && (!found ==> queue == old(queue))
    {
      var i := Search(id);
      if i == n { return false; }
      BagMember(h, queue, h[i]);
      DeleteBag(queue, h[i], nextId);
      DeleteGood(queue, id, nextId);
      RemoveAt(i);
      queue := Delete(queue, id);
      return true;
    }

    /** The tail moves into the gap and is sifted down, then up. */
    method RemoveAt(i: nat)
      requires n == |h| && i < n && Stores(heap, h) && Heap(h)
      modifies this`n, this`h, heap
      ensures n == |h| == old(n) - 1 && Stores(heap, h) && h == Removed(old(h), i) && Heap(h)
      ensures multiset(h) == multiset(old(h)) - multiset{old(h)[i]}
    {
      n := n - 1;
      HeapRemove(heap, n, i, h);
      RemovedHeap(h, i);
      h := Removed(h, i);
    }

    method NextDeadline() returns (exp: int)
      requires Valid()
      ensures exp == if queue == [] then NO_DEADLINE else queue[0].exp
    {
      EmptyBag(h, queue);
      if n == 0 { return NO_DEADLINE; }
      RootIsHead(h, queue, nextId);
      return heap[0].exp;
    }

    /** Takes the root out: the tail replaces it and is sifted down. */
    method PopRoot() returns (t: Timer)
      requires n == |h| && n > 0 && Stores(heap, h) && Heap(h)
      modifies this`n, this`h, heap
      ensures t == old(h)[0] && n == |h| == old(n) - 1 && Stores(heap, h) && Heap(h) && multiset(h) == multiset(old(h)) - multiset{t}
    {
      t := heap[0];
      n := n - 1;
      if n > 0 {
        HeapPop(heap, n, h);
        PoppedHeap(h);
        h := SiftDown(Moved(h, 0), 0);
      } else {
        assert h == [t];
        h := [];
      }
    }

    method Pop() returns (t: Timer)
      requires Valid() && n > 0
      modifies this`n, this`h, this`queue, heap
      ensures Valid() && old(queue) != [] && t == old(queue)[0] && queue == old(queue)[1..]
      ensures nextId == old(nextId) && n == old(n) - 1 && heap == old(heap)
      ensures t.id < nextId && !Has(queue, t.id)
    {
      RootIsHead(h, queue, nextId);
      t := PopRoot();
      assert queue == [queue[0]] + queue[1..];
      queue := queue[1..];
    }

    /** One fire: the head is taken out and, if it has fires left, put back later. */
    method FireOnce() returns (t: Timer)
      requires Valid() && n > 0
      modifies this`n, this`h, this`queue, heap
      ensures Valid() && old(queue) != [] && t == old(queue)[0] && queue == Fire(old(queue))
      ensures nextId == old(nextId) && heap == old(heap)
    {
      t := Pop();
      ghost var rest := queue;
      // the callback runs here, and does not touch the timers
      if t.num == 0 {
        Reschedule(t.(exp := t.exp + t.tic));
      } else if t.num > 1 {
        Reschedule(t.(exp := t.exp + t.tic, num := t.num - 1));
      }
      assert queue == match Next(t) case None => rest case Some(u) => Insert(rest, u);
    }

    method Reschedule(t: Timer)
      requires Valid() && n < heap.Length && t.id < nextId && !Has(queue, t.id)
      modifies this`n, this`h, this`queue, heap
      ensures Valid() && queue == Insert(old(queue), t)
    {
      Push(t);
      InsertGood(queue, t, nextId);
      InsertBag(queue, t);
      queue := Insert(queue, t);
    }

    /** Fires what is due; `clock` holds the successive readings of the clock, and the
        method stops early when they run out. */
    method FireExpired(clock: seq<int>) returns (log: seq<Timer>, done: bool)
      requires Valid()
      modifies this`n, this`h, this`queue, heap
      ensures Valid() && nextId == old(nextId) && heap == old(heap)
      ensures FireAll(old(queue), clock) == Fired(queue, log, done)
    {
      log := [];
      ghost var whole := FireAll(queue, clock);
      assert clock[0..] == clock && [] + whole.log == whole.log;
      for k := 0 to |clock|
        invariant Valid() && nextId == old(nextId) && heap == old(heap)
        invariant Leads(log, queue, clock[k..], whole)
      {
        EmptyBag(h, queue);
        if n > 0 { RootIsHead(h, queue, nextId); }
        if n == 0 || heap[0].exp > clock[k] {
          assert log + [] == log;
          return log, true;
        }
        LeadsOn(log, queue, clock[k..], whole);
        var t := FireOnce();
        log := log + [t];
        assert clock[k..][1..] == clock[k + 1..];
      }
      assert log + [] == log;
      return log, false;
    }
  }

  /** After `log`, firing from q on comes to what firing all did. */
  ghost predicate Leads(log: seq<Timer>, q: seq<Timer>, clock: seq<int>, whole: Fired) {
    var r := FireAll(q, clock);
    whole == Fired(r.queue, log + r.log, r.done)
  }

  lemma LeadsOn(log: seq<Timer>, q: seq<Timer>, clock: seq<int>, whole: Fired)
    requires clock != [] && Due(q, clock[0]) && Leads(log, q, clock, whole)
    ensures Leads(log + [q[0]], Fire(q), clock[1..], whole)
  {
    var r := FireAll(Fire(q), clock[1..]);
    assert log + ([q[0]] + r.log) == log + [q[0]] + r.log;
  }

  lemma {:induction false} GoodNext(q: seq<Timer>, a: nat, b: nat)
    requires Good(q, a) && a <= b
    ensures Good(q, b) && forall u :: u in q ==> u.id < a
    decreases |q|
  {
    if q != [] {
      assert q == [q[0]] + q[1..];
      GoodNext(q[1..], a, b);
    }
  }

  lemma EmptyBag(h: seq<Timer>, q: seq<Timer>)
    requires multiset(h) == multiset(q)
    ensures h == [] <==> q == []
  {
    assert |multiset(h)| == |h| && |multiset(q)| == |q|;
  }

  lemma NotThere(h: seq<Timer>, q: seq<Timer>, id: nat)
    requires multiset(h) == multiset(q) && forall k :: 0 <= k < |h| ==> h[k].id != id
    ensures !Has(q, id) && Delete(q, id) == q
  {
    forall u | u in q ensures u.id != id { BagMember(h, q, u); }
    DeleteNothing(q, id);
  }

  lemma {:induction false} DeleteNothing(q: seq<Timer>, id: nat)
    requires forall u :: u in q ==> u.id != id
    ensures Delete(q, id) == q
    decreases |q|
  {
    if q != [] {
      assert q[0] in q && q == [q[0]] + q[1..];
      DeleteNothing(q[1..], id);
    }
  }
}
