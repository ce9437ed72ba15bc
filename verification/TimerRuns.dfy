/** Whole runs of the timers: additions, deletions and fires under a clock that never
    goes back, with intervals that are not negative. */
module TimerRuns {
  import opened Arithmetic
  import opened Wrappers
  import opened TimerHeap
  import opened TimerQueue

  datatype Op = Add(now: int, tic: int, num: int, fn: nat) | Del(id: nat) | Tick(now: int)

  /** The queue, the timers ever added (by id), those deleted, the clock last read and
      the timers fired, as they were when they fired. */
  datatype State = State(queue: seq<Timer>, made: seq<Timer>, deleted: set<nat>, clock: int, log: seq<Timer>)

  predicate Enabled(s: State, op: Op) {
    match op
    case Add(now, tic, _, _) => now >= s.clock && tic >= 0
    case Del(_) => true
    case Tick(now) => now >= s.clock && Due(s.queue, now)
  }

  function Apply(s: State, op: Op): State
    requires Enabled(s, op)
  {
    match op
    case Add(now, tic, num, fn) =>
      var t := Timer(|s.made|, tic, now + tic, num, fn);
      s.(queue := Insert(s.queue, t), made := s.made + [t], clock := now)
    case Del(id) => s.(queue := Delete(s.queue, id), deleted := if Has(s.queue, id) then s.deleted + {id} else s.deleted)
    case Tick(now) => s.(queue := Fire(s.queue), clock := now, log := s.log + [s.queue[0]])
  }

  predicate Possible(s: State, ops: seq<Op>)
    decreases |ops|
  {
    ops == [] || (Enabled(s, ops[0]) && Possible(Apply(s, ops[0]), ops[1..]))
  }

  function After(s: State, ops: seq<Op>): State
    requires Possible(s, ops)
    decreases |ops|
  {
    if ops == [] then s else After(Apply(s, ops[0]), ops[1..])
  }

  ghost predicate Init(s: State) { s.queue == [] && s.made == [] && s.deleted == {} && s.log == [] }

  /** How often a timer has fired. */
  function Fires(log: seq<Timer>, id: nat): nat {
    if log == [] then 0 else Fires(log[..|log| - 1], id) + (if log[|log| - 1].id == id then 1 else 0)
  }

  lemma FiresOne(log: seq<Timer>, t: Timer, id: nat)
    ensures Fires(log + [t], id) == Fires(log, id) + (if t.id == id then 1 else 0)
  {
    assert (log + [t])[..|log|] == log;
  }

  // ---------- what every step keeps ----------

  /** m after k fires. */
  function Aged(m: Timer, k: nat): Timer {
    m.(exp := m.exp + k * m.tic, num := if m.num > 0 then m.num - k else m.num)
  }

  /** The timer has no fires left after k. */
  predicate Spent(m: Timer, k: nat) { if m.num > 0 then k == m.num else m.num < 0 && k == 1 }

  /** A pending timer is what it was made as, aged by its fires, and not spent; one that
      is not pending was deleted or is spent. */
  ghost predicate Accounted(s: State, id: nat)
    requires id < |s.made|
  {
    var m, k := s.made[id], Fires(s.log, id);
    && m.id == id && m.tic >= 0 && (m.num > 0 ==> k <= m.num)
    && (Has(s.queue, id) ==> Aged(m, k) in s.queue && id !in s.deleted && (m.num > 0 ==> k < m.num) && (m.num < 0 ==> k == 0))
    && (!Has(s.queue, id) ==> id in s.deleted || Spent(m, k))
  }

  /** Nothing pending is due before the last fire. */
  ghost predicate Forward(s: State) {
    s.log != [] ==>
      var last := s.log[|s.log| - 1];
      last.exp <= s.clock && forall t :: t in s.queue ==> t.exp >= last.exp
  }

  ghost predicate InOrder(log: seq<Timer>) {
    forall i, j :: 0 <= i < j < |log| ==> log[i].exp <= log[j].exp
  }

  /** Each entry of the log is its timer, aged by its earlier fires. */
  ghost predicate OnSchedule(s: State) {
    forall i: nat :: i < |s.log| ==> s.log[i].id < |s.made| && s.log[i] == Aged(s.made[s.log[i].id], Fires(s.log[..i], s.log[i].id))
  }

  /** Ids not handed out yet have no history. */
  ghost predicate Blank(s: State) {
    forall id: nat :: id >= |s.made| ==> Fires(s.log, id) == 0 && id !in s.deleted
  }

  ghost predicate Inv(s: State) {
    && Good(s.queue, |s.made|) && (forall id: nat :: id < |s.made| ==> Accounted(s, id))
    && Forward(s) && InOrder(s.log) && OnSchedule(s) && Blank(s)
  }

  lemma InQueue(s: State, t: Timer)
    requires Inv(s) && t in s.queue
    ensures t.id < |s.made| && t == Aged(s.made[t.id], Fires(s.log, t.id)) && t.tic >= 0 && t.id !in s.deleted
  {
    GoodNext(s.queue, |s.made|, |s.made|);
    assert Has(s.queue, t.id);
    assert Accounted(s, t.id);
    SameTimer(s.queue, |s.made|, t, Aged(s.made[t.id], Fires(s.log, t.id)));
  }

  /** A step that leaves a timer's fires, its pending entry and its deletion alone. */
  lemma SameAccount(s: State, s': State, id: nat)
    requires id < |s.made| <= |s'.made| && s'.made[id] == s.made[id] && Accounted(s, id)
    requires Fires(s'.log, id) == Fires(s.log, id) && (id in s'.deleted <==> id in s.deleted)
    requires forall t: Timer :: t.id == id ==> (t in s'.queue <==> t in s.queue)
    ensures Accounted(s', id)
  {
    assert Has(s'.queue, id) <==> Has(s.queue, id);
    assert Aged(s.made[id], Fires(s.log, id)).id == id;
  }

  lemma AddKeeps(s: State, op: Op)
    requires Inv(s) && op.Add? && Enabled(s, op)
    ensures Inv(Apply(s, op))
  {
    var s' := Apply(s, op);
    var id := |s.made|;
    var t := Timer(id, op.tic, op.now + op.tic, op.num, op.fn);
    GoodNext(s.queue, id, id + 1);
    InsertGood(s.queue, t, id + 1);
    InsertBag(s.queue, t);
    forall k: nat | k < |s'.made| ensures Accounted(s', k) {
      if k < id {
        SameAccount(s, s', k);
      } else {
        assert t in s'.queue && Aged(t, 0) == t && Fires(s.log, id) == 0;
      }
    }
  }

  lemma DelKeeps(s: State, id: nat)
    requires Inv(s)
    ensures Inv(Apply(s, Del(id)))
  {
    var s' := Apply(s, Del(id));
    GoodNext(s.queue, |s.made|, |s.made|);
    DeleteGood(s.queue, id, |s.made|);
    forall k: nat | k < |s.made| ensures Accounted(s', k) {
      if k != id { SameAccount(s, s', k); } else { assert Accounted(s, k) && !Has(s'.queue, k); }
    }
  }

  /** The timer that fires is due first, and the log goes on in order. */
  lemma TickInOrder(s: State, now: int)
    requires Inv(s) && Enabled(s, Tick(now))
    ensures InOrder(Apply(s, Tick(now)).log)
  {
    var s', t := Apply(s, Tick(now)), s.queue[0];
    assert s.queue == [t] + s.queue[1..] && t in s.queue;
    assert s'.log[..|s.log|] == s.log;
  }

  lemma TickOnSchedule(s: State, now: int)
    requires Inv(s) && Enabled(s, Tick(now))
    ensures OnSchedule(Apply(s, Tick(now)))
  {
    var s', t := Apply(s, Tick(now)), s.queue[0];
    assert s.queue == [t] + s.queue[1..] && t in s.queue;
    InQueue(s, t);
    assert s'.log[..|s.log|] == s.log;
    forall i: nat | i < |s'.log| ensures s'.log[i].id < |s.made| && s'.log[i] == Aged(s.made[s'.log[i].id],
        Fires(s'.log[..i], s'.log[i].id)) {
      if i < |s.log| { assert s'.log[..i] == s.log[..i]; }
    }
  }

  lemma TickForward(s: State, now: int)
    requires Inv(s) && Enabled(s, Tick(now))
    ensures Forward(Apply(s, Tick(now)))
  {
    var s', t := Apply(s, Tick(now)), s.queue[0];
    assert s.queue == [t] + s.queue[1..] && t in s.queue;
    InQueue(s, t);
    if Next(t).Some? { InsertBag(s.queue[1..], Next(t).value); }
    forall u | u in s'.queue ensures u.exp >= t.exp {
      assert u in s.queue[1..] || Next(t) == Some(u);
    }
  }

  lemma TickLog(s: State, now: int)
    requires Inv(s) && Enabled(s, Tick(now))
    ensures var s' := Apply(s, Tick(now)); InOrder(s'.log) && OnSchedule(s') && Forward(s')
  {
    hide InOrder, OnSchedule, Forward;
    TickInOrder(s, now);
    TickOnSchedule(s, now);
    TickForward(s, now);
  }

  lemma FireElements(q: seq<Timer>)
    requires q != []
    ensures forall u :: u in q <==> u == q[0] || u in q[1..]
    ensures forall u :: u in Fire(q) <==> u in q[1..] || Next(q[0]) == Some(u)
  {
    assert q == [q[0]] + q[1..];
    if Next(q[0]).Some? { InsertBag(q[1..], Next(q[0]).value); }
  }

  lemma TickOther(s: State, now: int, id: nat)
    requires Inv(s) && Enabled(s, Tick(now)) && id < |s.made| && id != s.queue[0].id
    ensures Accounted(Apply(s, Tick(now)), id)
  {
    FiresOne(s.log, s.queue[0], id);
    FireElements(s.queue);
    SameAccount(s, Apply(s, Tick(now)), id);
  }

  lemma TickSelf(s: State, now: int)
    requires Inv(s) && Enabled(s, Tick(now)) && s.queue[0].id < |s.made|
    ensures Accounted(Apply(s, Tick(now)), s.queue[0].id)
  {
    hide InOrder, OnSchedule, Forward;
    var s', t := Apply(s, Tick(now)), s.queue[0];
    var id := t.id;
    var k := Fires(s.log, id);
    assert t in s.queue && Before(t, s.queue[1..]);
    FireElements(s.queue);
    FiresOne(s.log, t, id);
    InQueue(s, t);
    assert Accounted(s, id) && Has(s.queue, id);
    AgedOnce(s.made[id], k);
    if Next(t).Some? {
      assert Next(t).value in s'.queue && Next(t).value.id == id;
    } else {
      assert !Has(s'.queue, id);
    }
  }

  lemma AgedOnce(m: Timer, k: nat)
    requires m.num > 0 ==> k < m.num
    ensures Next(Aged(m, k)).Some? ==> Next(Aged(m, k)).value == Aged(m, k + 1)
    ensures Next(Aged(m, k)).None? <==> (m.num > 0 && k + 1 == m.num) || m.num < 0
  {
    assert (k + 1) * m.tic == k * m.tic + m.tic;
  }

  lemma TickKeeps(s: State, now: int)
    requires Inv(s) && Enabled(s, Tick(now))
    ensures Inv(Apply(s, Tick(now)))
  {
    var s', t := Apply(s, Tick(now)), s.queue[0];
    assert t in s.queue;
    InQueue(s, t);
    FireGood(s.queue, |s.made|);
    TickLog(s, now);
    forall id: nat | id < |s.made| ensures Accounted(s', id) {
      if id == t.id { TickSelf(s, now); } else { TickOther(s, now, id); }
    }
    forall id: nat | id >= |s.made| ensures Fires(s'.log, id) == 0 { FiresOne(s.log, t, id); }
  }

  lemma StepKeeps(s: State, op: Op)
    requires Inv(s) && Enabled(s, op)
    ensures Inv(Apply(s, op))
  {
    match op
    case Add(_, _, _, _) => AddKeeps(s, op);
    case Del(id) => DelKeeps(s, id);
    case Tick(now) => TickKeeps(s, now);
  }

  lemma {:induction false} RunKeeps(s: State, ops: seq<Op>)
    requires Inv(s) && Possible(s, ops)
    ensures Inv(After(s, ops))
    decreases |ops|
  {
    if ops != [] {
      StepKeeps(s, ops[0]);
      RunKeeps(Apply(s, ops[0]), ops[1..]);
    }
  }

  // ---------- additions and deletions ----------

  /** The additions of a run, in order. */
  function Additions(ops: seq<Op>): (r: seq<Op>)
    ensures forall i :: 0 <= i < |r| ==> r[i].Add?
  {
    if ops == [] then [] else (if ops[0].Add? then [ops[0]] else []) + Additions(ops[1..])
  }

  /** The timers of a run are the additions, numbered in order, each due its interval after the
      clock at the time. */
  lemma {:induction false} TimersAreAdditions(s: State, ops: seq<Op>)
    requires Possible(s, ops)
    ensures var made, adds := After(s, ops).made, Additions(ops);
      && |made| == |s.made| + |adds| && s.made <= made
      && forall i, j :: 0 <= i < |adds| && j == |s.made| + i ==>
           made[j] == Timer(j, adds[i].tic, adds[i].now + adds[i].tic, adds[i].num, adds[i].fn)
    decreases |ops|
  {
    if ops != [] { TimersAreAdditions(Apply(s, ops[0]), ops[1..]); }
  }

  /** Deleting a pending timer makes it the last time it is heard of; deleting another id
      changes nothing that is pending. */
  lemma DeletedIsGone(s: State, id: nat, rest: seq<Op>)
    requires Inv(s) && Possible(Apply(s, Del(id)), rest)
    ensures Has(s.queue, id) ==> Fires(After(Apply(s, Del(id)), rest).log, id) == Fires(s.log, id)
    ensures forall t :: t in Apply(s, Del(id)).queue <==> t in s.queue && t.id != id
  {
    DelKeeps(s, id);
    DeleteGood(s.queue, id, |s.made|);
    if Has(s.queue, id) { NeverAgain(Apply(s, Del(id)), id, rest); }
  }

  lemma {:induction false} NeverAgain(s: State, id: nat, ops: seq<Op>)
    requires Inv(s) && id in s.deleted && Possible(s, ops)
    ensures Fires(After(s, ops).log, id) == Fires(s.log, id)
    decreases |ops|
  {
    if ops != [] {
      var s' := Apply(s, ops[0]);
      StepKeeps(s, ops[0]);
      if ops[0].Tick? {
        InQueue(s, s.queue[0]);
        FiresOne(s.log, s.queue[0], id);
      }
      NeverAgain(s', id, ops[1..]);
    }
  }

  /** One call fires what is due and nothing else: at each fire the timer was due at the clock
      read before it, and at the end nothing is. */
  lemma {:induction false} FiresWhatIsDue(q: seq<Timer>, next: nat, clock: seq<int>)
    requires Good(q, next)
    ensures var r := FireAll(q, clock); var k := |r.log|;
      && k <= |clock| && (forall i :: 0 <= i < k ==> r.log[i].exp <= clock[i])
      && (r.done <==> k < |clock|) && (r.done ==> forall t :: t in r.queue ==> t.exp > clock[k])
    decreases |clock|
  {
    if clock != [] && Due(q, clock[0]) {
      FireGood(q, next);
      FiresWhatIsDue(Fire(q), next, clock[1..]);
    } else if clock != [] && q != [] {
      assert q == [q[0]] + q[1..];
    }
  }

  // ---------- the guarantees ----------

  /** Every fire takes the pending timer with the least deadline and id. */
  lemma FiresLeast(s: State, now: int)
    requires Inv(s) && Enabled(s, Tick(now))
    ensures forall t :: t in s.queue ==> t == s.queue[0] || Less(s.queue[0], t)
  {
    assert s.queue == [s.queue[0]] + s.queue[1..];
  }

  /** In every run: fired deadlines never decrease; the k-th fire of a timer is due at its
      first deadline plus k - 1 intervals; a timer with num >= 1 fires at most num times,
      and one that was not deleted is gone exactly when it has fired num times. */
  lemma RunGuarantee(s: State, ops: seq<Op>, id: nat)
    requires Init(s) && Possible(s, ops) && id < |After(s, ops).made|
    ensures var r := After(s, ops); var m := r.made[id]; var k := Fires(r.log, id);
      && InOrder(r.log)
      && (forall i: nat :: i < |r.log| && r.log[i].id == id ==> r.log[i].exp == m.exp + Fires(r.log[..i], id) * m.tic)
      && (m.num >= 1 ==> k <= m.num && (id !in r.deleted ==> (Has(r.queue, id) <==> k < m.num)))
      && (m.num == 0 && id !in r.deleted ==> Has(r.queue, id))
  {
    assert Inv(s);
    RunKeeps(s, ops);
    assert Accounted(After(s, ops), id);
  }

  lemma ConsRun(s: State, op: Op, rest: seq<Op>)
    requires Enabled(s, op) && Possible(Apply(s, op), rest)
    ensures Possible(s, [op] + rest) && After(s, [op] + rest) == After(Apply(s, op), rest)
  {
    assert ([op] + rest)[1..] == rest;
  }

  /** u is what s becomes by firing everything due. */
  ghost predicate Outcome(s: State, f: Fired, u: State) {
    u.queue == f.queue && u.log == s.log + f.log && u.made == s.made
  }

  lemma OutcomeStep(s: State, now: int, f: Fired, u: State)
    requires Enabled(s, Tick(now)) && Outcome(Apply(s, Tick(now)), f, u)
    ensures Outcome(s, Fired(f.queue, [s.queue[0]] + f.log, f.done), u)
  {
    assert s.log + ([s.queue[0]] + f.log) == s.log + [s.queue[0]] + f.log;
  }

  /** One call of the firing loop is a run of ticks. */
  lemma {:induction false} BatchIsRun(s: State, clock: seq<int>) returns (ops: seq<Op>)
    requires Inv(s) && (forall i :: 0 <= i < |clock| ==> clock[i] >= s.clock)
    requires forall i, j :: 0 <= i < j < |clock| ==> clock[i] <= clock[j]
    ensures Possible(s, ops) && Outcome(s, FireAll(s.queue, clock), After(s, ops))
    decreases |clock|
  {
    if clock == [] || !Due(s.queue, clock[0]) {
      ops := [];
      assert s.log + [] == s.log;
    } else {
      var s1 := Apply(s, Tick(clock[0]));
      StepKeeps(s, Tick(clock[0]));
      var rest := BatchIsRun(s1, clock[1..]);
      ops := [Tick(clock[0])] + rest;
      ConsRun(s, Tick(clock[0]), rest);
      OutcomeStep(s, clock[0], FireAll(s1.queue, clock[1..]), After(s1, rest));
    }
  }

  // ---------- a clock that stands still ----------

  /** How many fires are due by now. */
  function Overdue(t: Timer, now: int): nat
    requires t.tic > 0
  {
    if t.exp > now then 0
    else
      var m := (now - t.exp) / t.tic + 1;
      if t.num == 0 || t.num > m then m else if t.num > 0 then t.num else 1
  }

  predicate Ticking(q: seq<Timer>) { forall t :: t in q ==> t.tic > 0 }

  function Work(q: seq<Timer>, now: int): nat
    requires Ticking(q)
  {
    if q == [] then 0
    else
      assert q[0] in q && Ticking(q[1..]);
      Overdue(q[0], now) + Work(q[1..], now)
  }

  lemma {:induction false} WorkInsert(q: seq<Timer>, t: Timer, now: int)
    requires Ticking(q) && t.tic > 0
    ensures Ticking(Insert(q, t)) && Work(Insert(q, t), now) == Work(q, now) + Overdue(t, now)
    decreases |q|
  {
    InsertBag(q, t);
    if q == [] || Less(t, q[0]) {
      assert ([t] + q)[1..] == q;
    } else {
      assert q[0] in q && Ticking(q[1..]);
      WorkInsert(q[1..], t, now);
      assert Insert(q, t)[1..] == Insert(q[1..], t);
    }
  }

  /** Intervals of m in d, when one has passed. */
  lemma OneLess(d: int, m: int)
    requires m > 0 && d >= 0
    ensures if d < m then d / m == 0 else d / m >= 1 && (d - m) / m == d / m - 1
  {
    if d < m {
      RemainderIs(d, m, 0, d);
    } else {
      var q, r := d / m, d % m;
      assert d - m == (q - 1) * m + r;
      RemainderIs(d - m, m, q - 1, r);
      Times(q, 0, m);
    }
  }

  /** A due fire uses up one. */
  lemma OverdueLess(t: Timer, now: int)
    requires t.tic > 0 && t.exp <= now
    ensures Overdue(t, now) == 1 + (if Next(t).Some? then Overdue(Next(t).value, now) else 0)
  {
    var d := now - t.exp;
    OneLess(d, t.tic);
    if Next(t).Some? {
      var u := Next(t).value;
      assert now - u.exp == d - t.tic && u.tic == t.tic;
    }
  }

  lemma {:induction false} NothingDue(q: seq<Timer>, now: int, next: nat)
    requires Good(q, next) && Ticking(q) && !Due(q, now)
    ensures Work(q, now) == 0
    decreases |q|
  {
    if q != [] {
      assert q == [q[0]] + q[1..];
      NothingDue(q[1..], now, next);
    }
  }

  /** With a frozen clock and positive intervals the firing loop ends, after exactly as
      many fires as intervals are overdue. */
  lemma {:induction false} FrozenClockEnds(q: seq<Timer>, now: int, next: nat, clock: seq<int>)
    requires Good(q, next) && Ticking(q) && |clock| > Work(q, now) && forall i :: 0 <= i < |clock| ==> clock[i] == now
    ensures var r := FireAll(q, clock); r.done && |r.log| == Work(q, now) && !Due(r.queue, now)
    decreases |clock|
  {
    if Due(q, now) {
      var t := q[0];
      assert q == [t] + q[1..] && t in q && Ticking(q[1..]);
      OverdueLess(t, now);
      if Next(t).Some? { WorkInsert(q[1..], Next(t).value, now); }
      FireGood(q, next);
      FrozenClockEnds(Fire(q), now, next, clock[1..]);
    } else {
      NothingDue(q, now, next);
    }
  }
}
