/** The thread pool's dispatch protocol: one dispatcher, any number of claimers, a
    ring of tasks indexed by two cursors that only grow, and a completion barrier.
    Each load, store, swap or decrement of a cursor, of the barrier or of a slot of the
    ring is one step; the ring's address and capacity, which only the dispatcher changes,
    are read and written as one.  Steps of different threads interleave freely, and a
    sleeping worker may wake at any time. */
module Pool {
  import opened Arithmetic
  import opened PoolRange

  /** A slot of the ring: which dispatch it belongs to, and its rows. */
  datatype Task = Task(job: nat, start: int, end: int)

  /** Where a thread is in claiming and running tasks. */
  datatype Pc =
    | Asleep
    | Looking                                   // awake, about to read task_claim
    | LoadedClaim(cur: nat)                     // task_claim read
    | LoadedLimit(cur: nat, lim: nat)           // task_limit read
    | Claimed(ticket: nat)
    | Approved(ticket: nat)                     // not cancelled
    | Located(ticket: nat, gen: nat, slot: nat) // tasks and task_cap read
    | Running(ticket: nat, task: Task)          // slot read
    | Finishing(ticket: nat)                    // about to decrement pending

  /** The window of tickets [base, base + split.n) of one dispatch. */
  datatype Window = Window(job: nat, request: Request, base: nat, split: Split)

  /** Where the dispatcher is. */
  datatype Phase =
    | Rest
    | Growing(job: nat, request: Request)
    | Filling(w: Window, i: nat)
    | Opening(w: Window)                        // pending stored, window not published
    | Claiming(w: Window)
    | Spinning(w: Window)

  /** Shared memory, program counters (thread 0 is the dispatcher), and a history:
      who claimed each ticket, the task written for it, the task run for it, and the
      tickets of the window that are not finished.  `gen` counts ring allocations. */
  datatype State = State(
    ring: seq<Task>, gen: nat, claim: nat, limit: nat, pending: int, cancelled: bool,
    threads: seq<Pc>, phase: Phase,
    owner: seq<nat>, plan: seq<Task>, ran: map<nat, Task>, open: set<nat>, sawCancel: bool)

  datatype Action =
    | Wake(t: nat) | ReadClaim(t: nat) | ReadLimit(t: nat) | GiveUp(t: nat) | Swap(t: nat) | Miss(t: nat)
    | Poll(t: nat) | Locate(t: nat) | Enter(t: nat, read: Task) | Leave(t: nat) | Finish(t: nat)
    | Begin(job: nat, request: Request) | Keep | Grow(bigger: seq<Task>) | Fill | Arm | Publish | Return | SetCancel(b: bool)

  function TaskOf(w: Window, i: nat): Task {
    Task(w.job, w.split.Start(i), w.split.End(i))
  }

  /** The slot of a ticket.  The source masks with cap - 1, which is this remainder
      because the capacity stays a power of two (MaskedSlot). */
  function Slot(ticket: nat, cap: nat): (slot: nat)
    requires cap > 0
    ensures slot < cap
  {
    ticket % cap
  }

  lemma MaskedSlot(s: State, ticket: nat)
    requires Inv(s)
    ensures Slot(ticket, |s.ring|) == And(ticket, |s.ring| - 1)
  {
    var k: nat :| |s.ring| == Pow2(k);
    MaskIsRemainder(ticket, k);
  }

  predicate Holds(pc: Pc, k: nat) {
    (pc.Claimed? || pc.Approved? || pc.Located? || pc.Running? || pc.Finishing?) && pc.ticket == k
  }

  predicate Active(p: Phase) { p.Claiming? || p.Spinning? }

  /** The tickets [base, base + n). */
  function Tickets(base: nat, n: nat): (r: set<nat>)
    ensures |r| == n && forall k: nat :: k in r <==> base <= k < base + n
  {
    if n == 0 then {} else Tickets(base, n - 1) + {base + n - 1}
  }

  // ---------- steps ----------

  ghost predicate Enabled(s: State, a: Action) {
    match a
    case Wake(t) => t < |s.threads| && s.threads[t].Asleep? && (t == 0 ==> s.phase.Claiming?)
    case ReadClaim(t) => t < |s.threads| && s.threads[t].Looking?
    case ReadLimit(t) => t < |s.threads| && s.threads[t].LoadedClaim?
    case GiveUp(t) => t < |s.threads| && s.threads[t].LoadedLimit? && s.threads[t].cur >= s.threads[t].lim
    case Swap(t) => t < |s.threads| && s.threads[t].LoadedLimit? && s.threads[t].cur < s.threads[t].lim && s.claim == s.threads[t].cur
    case Miss(t) => t < |s.threads| && s.threads[t].LoadedLimit? && s.threads[t].cur < s.threads[t].lim
    case Poll(t) => t < |s.threads| && s.threads[t].Claimed?
    case Locate(t) => t < |s.threads| && s.threads[t].Approved? && |s.ring| > 0
    case Enter(t, read) =>
      // a slot of the present allocation is read as it is; of an older one, anything
      t < |s.threads| && s.threads[t].Located? &&
      (s.threads[t].gen == s.gen && s.threads[t].slot < |s.ring| ==> read == s.ring[s.threads[t].slot])
    case Leave(t) => t < |s.threads| && s.threads[t].Running?
    case Finish(t) => t < |s.threads| && s.threads[t].Finishing?
    case Begin(_, request) => s.phase.Rest? && Asked(request)
    case Keep => s.phase.Growing? && |s.ring| > 0
    case Grow(bigger) =>
      s.phase.Growing? && |s.ring| > 0 && |bigger| == Grown(|s.ring|, Wanted(s.phase.request)) > |s.ring| && s.ring <= bigger
    case Fill => s.phase.Filling? && s.phase.i < s.phase.w.split.n && |s.ring| > 0
    case Arm => s.phase.Filling? && s.phase.i == s.phase.w.split.n
    case Publish => s.phase.Opening?
    case Return => s.phase.Spinning? && s.pending == 0
    case SetCancel(_) => true
  }

  function Carve(s: State): Phase
    requires s.phase.Growing? && |s.ring| > 0
  {
    Filling(Window(s.phase.job, s.phase.request, s.limit, SplitFor(s.phase.request, |s.ring|)), 0)
  }

  ghost function Apply(s: State, a: Action): State
    requires Enabled(s, a)
  {
    match a
    case Wake(t) => s.(threads := s.threads[t := Looking])
    case ReadClaim(t) => s.(threads := s.threads[t := LoadedClaim(s.claim)])
    case ReadLimit(t) => s.(threads := s.threads[t := LoadedLimit(s.threads[t].cur, s.limit)])
    case GiveUp(t) => s.(threads := s.threads[t := Asleep], phase := if t == 0 && s.phase.Claiming? then Spinning(s.phase.w) else s.phase)
    case Swap(t) => s.(claim := s.claim + 1, threads := s.threads[t := Claimed(s.claim)], owner := s.owner + [t])
    case Miss(t) => s.(threads := s.threads[t := LoadedClaim(s.claim)])
    case Poll(t) =>
      var k := s.threads[t].ticket;
      s.(threads := s.threads[t := if s.cancelled then Finishing(k) else Approved(k)])
    case Locate(t) =>
      var k := s.threads[t].ticket;
      s.(threads := s.threads[t := Located(k, s.gen, Slot(k, |s.ring|))])
    case Enter(t, read) =>
      var k := s.threads[t].ticket;
      s.(threads := s.threads[t := Running(k, read)], ran := s.ran[k := read])
    case Leave(t) => s.(threads := s.threads[t := Finishing(s.threads[t].ticket)])
    case Finish(t) =>
      s.(threads := s.threads[t := Looking], pending := s.pending - 1, open := s.open - {s.threads[t].ticket})
    case Begin(job, request) => s.(phase := Growing(job, request), sawCancel := s.cancelled)
    case Keep => s.(phase := Carve(s))
    case Grow(bigger) =>
      var s1 := s.(ring := bigger, gen := s.gen + 1);
      s1.(phase := Carve(s1))
    case Fill =>
      var k := s.phase.w.base + s.phase.i;
      var task := TaskOf(s.phase.w, s.phase.i);
      s.(ring := s.ring[Slot(k, |s.ring|) := task], plan := s.plan + [task], phase := s.phase.(i := s.phase.i + 1))
    case Arm => s.(pending := s.phase.w.split.n, phase := Opening(s.phase.w))
    case Publish =>
      s.(limit := s.phase.w.base + s.phase.w.split.n, open := Tickets(s.phase.w.base, s.phase.w.split.n), phase := Claiming(s.phase.w))
    case Return => s.(phase := Rest)
    case SetCancel(b) => s.(cancelled := b, sawCancel := s.sawCancel || b)
  }

  ghost predicate Init(s: State) {
    && |s.ring| == INIT_TASKS && s.gen == 0 && s.claim == 0 && s.limit == 0 && s.pending == 0 && !s.cancelled
    && |s.threads| > 0 && (forall t :: 0 <= t < |s.threads| ==> s.threads[t].Asleep?) && s.phase.Rest?
    && s.owner == [] && s.plan == [] && s.ran == map[] && s.open == {} && !s.sawCancel
  }

  // ---------- what every step keeps ----------

  /** A thread's registers agree with shared memory, and a ticket in its hands is its own,
      unfinished, and of the window the ring now holds. */
  ghost predicate ThreadOK(s: State, t: nat)
    requires t < |s.threads|
  {
    var pc := s.threads[t];
    && (pc.LoadedClaim? || pc.LoadedLimit? ==> pc.cur <= s.claim)
    && (pc.LoadedLimit? ==> pc.lim <= s.limit && (t == 0 ==> pc.lim == s.limit))
    && (t == 0 && !pc.Asleep? ==> s.phase.Claiming?)
    && (forall k: nat :: Holds(pc, k) ==> k in s.open && k < |s.owner| && s.owner[k] == t)
    && (pc.Claimed? || pc.Approved? || pc.Located? ==> pc.ticket !in s.ran)
    && (pc.Located? ==> pc.gen == s.gen && |s.ring| > 0 && pc.slot == Slot(pc.ticket, |s.ring|))
    && (pc.Running? || (pc.Finishing? && !s.sawCancel) ==> pc.ticket in s.ran)
    && (pc.Running? ==> pc.ticket < |s.plan| && pc.task == s.plan[pc.ticket])
  }

  /** Slots [0, n) of the window hold their tasks. */
  ghost predicate Filled(s: State, w: Window, n: nat)
    requires |s.ring| > 0
  {
    forall k: nat :: w.base <= k < w.base + n ==>
      k < |s.plan| && s.plan[k] == TaskOf(w, k - w.base) && s.ring[Slot(k, |s.ring|)] == s.plan[k]
  }

  /** The window was cut for the ring as it is, and fits it. */
  ghost predicate Cut(s: State, w: Window)
    requires |s.ring| > 0
  {
    Asked(w.request) && w.split == SplitFor(w.request, |s.ring|)
  }

  predicate Asked(r: Request) {
    match r case Rows(total) => total > 0 case Parts(n) => 0 < n < TWO32
  }

  ghost predicate Quiet(s: State) { s.claim == s.limit && s.open == {} }

  ghost predicate PhaseOK(s: State)
    requires |s.ring| > 0
  {
    match s.phase
    case Rest => Quiet(s) && s.pending == 0
    case Growing(_, request) => Quiet(s) && s.pending == 0 && Asked(request)
    case Filling(w, i) => Quiet(s) && s.pending == 0 && w.base == s.limit && Cut(s, w) && i <= w.split.n && Filled(s, w, i)
    case Opening(w) => Quiet(s) && s.pending == w.split.n && w.base == s.limit && Cut(s, w) && Filled(s, w, w.split.n)
    case Claiming(w) => WindowOK(s, w)
    case Spinning(w) => WindowOK(s, w) && s.claim == s.limit
  }

  ghost predicate WindowOK(s: State, w: Window)
    requires |s.ring| > 0
  {
    && s.pending == |s.open| && w.base <= s.claim && s.limit == w.base + w.split.n && Cut(s, w) && Filled(s, w, w.split.n)
    && (forall k: nat :: k in s.open ==> w.base <= k < s.limit)
    && (forall k: nat :: s.claim <= k < s.limit ==> k in s.open)
    && (!s.sawCancel ==> forall k: nat :: w.base <= k < s.claim && k !in s.open ==> k in s.ran)
  }

  /** Tickets planned so far. */
  function Planned(s: State): nat {
    match s.phase
    case Filling(w, i) => w.base + i
    case Opening(w) => w.base + w.split.n
    case _ => s.limit
  }

  ghost predicate HistoryOK(s: State) {
    && |s.owner| == s.claim && |s.plan| == Planned(s)
    && (forall k: nat :: k < |s.owner| ==> s.owner[k] < |s.threads|)
    && (forall k: nat :: k < |s.owner| && k in s.open ==> Holds(s.threads[s.owner[k]], k))
    && (forall k: nat :: k in s.ran ==> k < s.claim && k < |s.plan| && s.ran[k] == s.plan[k])
  }

  ghost predicate Inv(s: State) {
    && PowerCap(|s.ring|) && |s.ring| <= MAX_TASKS && |s.threads| > 0 && s.claim <= s.limit && (s.cancelled ==> s.sawCancel)
    && (forall t: nat :: t < |s.threads| ==> ThreadOK(s, t))
    && PhaseOK(s) && HistoryOK(s)
  }

  lemma InitInv(s: State)
    requires Init(s)
    ensures Inv(s)
  {
    assert INIT_TASKS == Pow2(10) by {
      assert Pow2(5) == 32;
      assert Pow2(10) == 32 * Pow2(5);
    }
  }

  /** A step that changes one thread's registers, and not the ticket it holds. */
  lemma RegistersKeep(s: State, t: nat, pc: Pc)
    requires Inv(s) && t < |s.threads| && (forall k: nat :: Holds(pc, k) <==> Holds(s.threads[t], k))
    requires ThreadOK(s.(threads := s.threads[t := pc]), t)
    ensures Inv(s.(threads := s.threads[t := pc]))
  {
    var s' := s.(threads := s.threads[t := pc]);
    forall u: nat | u < |s.threads| ensures ThreadOK(s', u) {
      assert ThreadOK(s, u);
    }
    assert PhaseOK(s') && HistoryOK(s');
  }

  lemma GiveUpKeeps(s: State, t: nat)
    requires Inv(s) && Enabled(s, GiveUp(t))
    ensures Inv(Apply(s, GiveUp(t)))
  {
    assert ThreadOK(s, t);
    RegistersKeep(s, t, Asleep);
    if t == 0 && s.phase.Claiming? { DrainedKeeps(s.(threads := s.threads[t := Asleep])); }
  }

  /** The dispatcher found the window drained and goes on to the barrier. */
  lemma DrainedKeeps(s: State)
    requires Inv(s) && s.phase.Claiming? && s.threads[0].Asleep? && s.claim == s.limit
    ensures Inv(s.(phase := Spinning(s.phase.w)))
  {
    var s' := s.(phase := Spinning(s.phase.w));
    forall u: nat | u < |s.threads| ensures ThreadOK(s', u) {
      assert ThreadOK(s, u);
    }
  }

  /** Loads and failed swaps. */
  lemma LoadKeeps(s: State, a: Action)
    requires Inv(s) && Enabled(s, a) && (a.Wake? || a.ReadClaim? || a.ReadLimit? || a.Miss?)
    ensures Inv(Apply(s, a))
  {
    assert ThreadOK(s, a.t);
    if a.Wake? { RegistersKeep(s, a.t, Looking); }
    else if a.ReadLimit? { RegistersKeep(s, a.t, LoadedLimit(s.threads[a.t].cur, s.limit)); }
    else { RegistersKeep(s, a.t, LoadedClaim(s.claim)); }
  }

  lemma PollKeeps(s: State, t: nat)
    requires Inv(s) && Enabled(s, Poll(t))
    ensures Inv(Apply(s, Poll(t)))
  {
    assert ThreadOK(s, t);
    var k := s.threads[t].ticket;
    assert Holds(s.threads[t], k);
    RegistersKeep(s, t, if s.cancelled then Finishing(k) else Approved(k));
  }

  lemma LocateKeeps(s: State, t: nat)
    requires Inv(s) && Enabled(s, Locate(t))
    ensures Inv(Apply(s, Locate(t)))
  {
    assert ThreadOK(s, t);
    var k := s.threads[t].ticket;
    assert Holds(s.threads[t], k);
    RegistersKeep(s, t, Located(k, s.gen, Slot(k, |s.ring|)));
  }

  lemma LeaveKeeps(s: State, t: nat)
    requires Inv(s) && Enabled(s, Leave(t))
    ensures Inv(Apply(s, Leave(t)))
  {
    assert ThreadOK(s, t);
    assert Holds(s.threads[t], s.threads[t].ticket);
    RegistersKeep(s, t, Finishing(s.threads[t].ticket));
  }

  lemma SwapThreads(s: State, t: nat)
    requires Inv(s) && Enabled(s, Swap(t))
    ensures forall u: nat :: u < |s.threads| ==> ThreadOK(Apply(s, Swap(t)), u)
  {
    var s' := Apply(s, Swap(t));
    assert ThreadOK(s, t);
    forall u: nat | u < |s.threads| ensures ThreadOK(s', u) {
      assert ThreadOK(s, u);
    }
  }

  lemma SwapKeeps(s: State, t: nat)
    requires Inv(s) && Enabled(s, Swap(t))
    ensures Inv(Apply(s, Swap(t)))
  {
    var s' := Apply(s, Swap(t));
    assert ThreadOK(s, t);
    SwapThreads(s, t);
    assert PhaseOK(s');
    assert HistoryOK(s');
  }

  /** A ticket in a thread's hands belongs to the window in the ring. */
  lemma HeldInWindow(s: State, t: nat, k: nat)
    requires Inv(s) && t < |s.threads| && Holds(s.threads[t], k)
    ensures Active(s.phase) && s.phase.w.base <= k < s.claim
    ensures k < |s.plan| && s.plan[k] == TaskOf(s.phase.w, k - s.phase.w.base) && s.ring[Slot(k, |s.ring|)] == s.plan[k]
  {
    assert ThreadOK(s, t) && k in s.open;
    assert Filled(s, s.phase.w, s.phase.w.split.n);
  }

  lemma EnterThreads(s: State, t: nat, read: Task)
    requires Inv(s) && Enabled(s, Enter(t, read)) && s.threads[t].ticket < |s.plan| && read == s.plan[s.threads[t].ticket]
    ensures forall u: nat :: u < |s.threads| ==> ThreadOK(Apply(s, Enter(t, read)), u)
  {
    var s' := Apply(s, Enter(t, read));
    assert ThreadOK(s, t) && Holds(s.threads[t], s.threads[t].ticket);
    forall u: nat | u < |s.threads| ensures ThreadOK(s', u) {
      assert ThreadOK(s, u);
    }
  }

  lemma EnterWindow(s: State, t: nat, read: Task)
    requires Inv(s) && Enabled(s, Enter(t, read))
    ensures PhaseOK(Apply(s, Enter(t, read)))
  {
    assert ThreadOK(s, t);
    HeldInWindow(s, t, s.threads[t].ticket);
    assert WindowOK(Apply(s, Enter(t, read)), s.phase.w);
  }

  lemma EnterHistory(s: State, t: nat, read: Task)
    requires Inv(s) && Enabled(s, Enter(t, read)) && s.threads[t].ticket < |s.plan| && read == s.plan[s.threads[t].ticket]
    ensures HistoryOK(Apply(s, Enter(t, read)))
  {
    assert ThreadOK(s, t) && Holds(s.threads[t], s.threads[t].ticket);
  }

  lemma EnterKeeps(s: State, t: nat, read: Task)
    requires Inv(s) && Enabled(s, Enter(t, read))
    ensures Inv(Apply(s, Enter(t, read)))
  {
    hide PhaseOK, HistoryOK;
    assert ThreadOK(s, t);
    HeldInWindow(s, t, s.threads[t].ticket);
    EnterThreads(s, t, read);
    EnterWindow(s, t, read);
    EnterHistory(s, t, read);
  }

  lemma FinishThreads(s: State, t: nat)
    requires Inv(s) && Enabled(s, Finish(t))
    ensures forall u: nat :: u < |s.threads| ==> ThreadOK(Apply(s, Finish(t)), u)
  {
    var s' := Apply(s, Finish(t));
    assert ThreadOK(s, t);
    forall u: nat | u < |s.threads| ensures ThreadOK(s', u) {
      assert ThreadOK(s, u);
    }
  }

  lemma FinishHistory(s: State, t: nat)
    requires Inv(s) && Enabled(s, Finish(t))
    ensures HistoryOK(Apply(s, Finish(t)))
  {
    var s' := Apply(s, Finish(t));
    assert ThreadOK(s, t);
    forall k: nat | k in s'.open && k < |s'.owner| ensures Holds(s'.threads[s'.owner[k]], k) {
      assert Holds(s.threads[s.owner[k]], k);
    }
  }

  lemma FinishWindow(s: State, t: nat)
    requires Inv(s) && Enabled(s, Finish(t))
    ensures PhaseOK(Apply(s, Finish(t)))
  {
    var s', k := Apply(s, Finish(t)), s.threads[t].ticket;
    assert ThreadOK(s, t) && Holds(s.threads[t], k);
    HeldInWindow(s, t, k);
    var w := s.phase.w;
    assert WindowOK(s, w);
    assert |s'.open| == |s.open| - 1;
    assert Filled(s', w, w.split.n);
    forall j: nat | w.base <= j < s'.claim && j !in s'.open && !s.sawCancel ensures j in s'.ran {
      assert j == k || j !in s.open;
    }
    assert WindowOK(s', w);
  }

  lemma FinishKeeps(s: State, t: nat)
    requires Inv(s) && Enabled(s, Finish(t))
    ensures Inv(Apply(s, Finish(t)))
  {
    FinishThreads(s, t);
    FinishHistory(s, t);
    FinishWindow(s, t);
  }

  /** Outside the active phases no thread holds a ticket, nor can one be claimed. */
  lemma QuietNoHolders(s: State, t: nat)
    requires Inv(s) && !Active(s.phase) && t < |s.threads|
    ensures (forall k: nat :: !Holds(s.threads[t], k)) && !Enabled(s, Swap(t)) && (t == 0 ==> s.threads[t].Asleep?)
    ensures s.threads[t].Asleep? || s.threads[t].Looking? || s.threads[t].LoadedClaim? || s.threads[t].LoadedLimit?
  {
    var pc := s.threads[t];
    assert ThreadOK(s, t);
    assert s.open == {};
    assert pc.Asleep? || pc.Looking? || pc.LoadedClaim? || pc.LoadedLimit? || Holds(pc, pc.ticket);
  }

  /** The dispatcher's own steps, which leave the threads' registers alone. */
  predicate Dispatcher(a: Action) {
    a.Begin? || a.Keep? || a.Grow? || a.Fill? || a.Arm? || a.Publish? || a.Return? || a.SetCancel?
  }

  lemma DispatcherThreads(s: State, a: Action)
    requires Inv(s) && Enabled(s, a) && Dispatcher(a)
    ensures forall t: nat :: t < |s.threads| ==> ThreadOK(Apply(s, a), t)
  {
    var s' := Apply(s, a);
    forall t: nat | t < |s.threads| ensures ThreadOK(s', t) {
      assert ThreadOK(s, t);
      if !Active(s.phase) { QuietNoHolders(s, t); }
    }
  }

  /** Writing the next slot spoils none of the window's earlier ones. */
  lemma FillAdds(s: State)
    requires Inv(s) && Enabled(s, Fill)
    ensures Filled(Apply(s, Fill), s.phase.w, s.phase.i + 1)
  {
    var w, k := s.phase.w, s.phase.w.base + s.phase.i;
    var s' := Apply(s, Fill);
    forall j: nat | w.base <= j < k + 1
      ensures j < |s'.plan| && s'.plan[j] == TaskOf(w, j - w.base) && s'.ring[Slot(j, |s'.ring|)] == s'.plan[j]
    {
      if j < k { SlotsDiffer(j, k, |s.ring|); }
    }
  }

  lemma FillKeeps(s: State)
    requires Inv(s) && Enabled(s, Fill)
    ensures Inv(Apply(s, Fill))
  {
    DispatcherThreads(s, Fill);
    FillAdds(s);
    var s' := Apply(s, Fill);
    var k := s.phase.w.base + s.phase.i;
    assert k !in s.ran;
    assert PhaseOK(s');
    assert HistoryOK(s');
  }

  lemma GrowKeeps(s: State, a: Action)
    requires Inv(s) && Enabled(s, a) && (a.Keep? || a.Grow?)
    ensures Inv(Apply(s, a))
  {
    DispatcherThreads(s, a);
    if a.Grow? {
      GrownPower(|s.ring|, Wanted(s.phase.request));
      GrownEnough(|s.ring|, Wanted(s.phase.request));
    }
  }

  lemma PublishKeeps(s: State)
    requires Inv(s) && Enabled(s, Publish)
    ensures Inv(Apply(s, Publish))
  {
    DispatcherThreads(s, Publish);
  }

  lemma BeginKeeps(s: State, a: Action)
    requires Inv(s) && Enabled(s, a) && a.Begin?
    ensures Inv(Apply(s, a))
  {
    DispatcherThreads(s, a);
    assert HistoryOK(Apply(s, a));
  }

  lemma CancelKeeps(s: State, b: bool)
    requires Inv(s)
    ensures Inv(Apply(s, SetCancel(b)))
  {
    var s' := Apply(s, SetCancel(b));
    DispatcherThreads(s, SetCancel(b));
    if Active(s.phase) {
      assert WindowOK(s', s.phase.w);
    }
    assert PhaseOK(s');
    assert HistoryOK(s');
  }

  lemma ArmKeeps(s: State, a: Action)
    requires Inv(s) && Enabled(s, a) && (a.Arm? || a.Return?)
    ensures Inv(Apply(s, a))
  {
    DispatcherThreads(s, a);
    assert a.Return? ==> s.open == {};
    assert HistoryOK(Apply(s, a));
  }

  /** Every step of every thread keeps the invariant. */
  lemma StepKeeps(s: State, a: Action)
    requires Inv(s) && Enabled(s, a)
    ensures Inv(Apply(s, a))
  {
    hide ThreadOK, PhaseOK, HistoryOK;
    match a
    case Swap(t) => SwapKeeps(s, t);
    case GiveUp(t) => GiveUpKeeps(s, t);
    case Enter(t, read) => EnterKeeps(s, t, read);
    case Finish(t) => FinishKeeps(s, t);
    case Fill => FillKeeps(s);
    case Keep => GrowKeeps(s, a);
    case Grow(_) => GrowKeeps(s, a);
    case Publish => PublishKeeps(s);
    case Begin(_, _) => BeginKeeps(s, a);
    case SetCancel(b) => CancelKeeps(s, b);
    case Arm => ArmKeeps(s, a);
    case Return => ArmKeeps(s, a);
    case Poll(t) => PollKeeps(s, t);
    case Locate(t) => LocateKeeps(s, t);
    case Leave(t) => LeaveKeeps(s, t);
    case _ => LoadKeeps(s, a);
  }

  // ---------- safety of single steps ----------

  /** task_claim never passes task_limit, and a successful swap claims a published ticket
      nobody claimed before. */
  lemma SwapClaimsFresh(s: State, t: nat)
    requires Inv(s) && Enabled(s, Swap(t))
    ensures s.claim < s.limit && s.claim == |s.owner| && Active(s.phase) && s.phase.w.base <= s.claim
  {
    assert ThreadOK(s, t);
    if !Active(s.phase) { QuietNoHolders(s, t); }
  }

  /** A claimer reads the live ring, and there the very task written for its ticket, which
      no thread has run yet. */
  lemma EnterReadsOwnTask(s: State, t: nat, read: Task)
    requires Inv(s) && Enabled(s, Enter(t, read))
    ensures var k := s.threads[t].ticket;
      && s.threads[t].gen == s.gen && s.threads[t].slot < |s.ring|
      && k < |s.plan| && read == s.plan[k] && k !in s.ran && k < |s.owner| && s.owner[k] == t
  {
    assert ThreadOK(s, t);
    HeldInWindow(s, t, s.threads[t].ticket);
  }

  /** Slots are written, and the ring is moved, only while every ticket ever published is
      claimed and finished. */
  lemma RingChangesOnlyWhenIdle(s: State, a: Action)
    requires Inv(s) && Enabled(s, a) && (a.Fill? || a.Grow?)
    ensures s.claim == s.limit && forall t: nat, k: nat :: t < |s.threads| ==> !Holds(s.threads[t], k)
  {
    forall t: nat, k: nat | t < |s.threads| ensures !Holds(s.threads[t], k) { QuietNoHolders(s, t); }
  }

  predicate Moves(a: Action, t: nat) {
    match a
    case Wake(u) => u == t
    case ReadClaim(u) => u == t
    case ReadLimit(u) => u == t
    case GiveUp(u) => u == t
    case Swap(u) => u == t
    case Miss(_) => false
    case Poll(u) => u == t
    case Locate(u) => u == t
    case Enter(u, _) => u == t
    case Leave(u) => u == t
    case Finish(u) => u == t
    case Begin(_, _) => false
    case SetCancel(_) => false
    case _ => t == 0
  }

  /** A thread that can take a step other than retrying. */
  ghost predicate CanMove(s: State, t: nat) {
    exists a: Action :: Moves(a, t) && Enabled(s, a)
  }

  lemma HolderMoves(s: State, t: nat, k: nat)
    requires Inv(s) && t < |s.threads| && Holds(s.threads[t], k)
    ensures CanMove(s, t)
  {
    assert ThreadOK(s, t);
    match s.threads[t]
    case Claimed(_) => assert Moves(Poll(t), t) && Enabled(s, Poll(t));
    case Approved(_) => assert Moves(Locate(t), t) && Enabled(s, Locate(t));
    case Located(_, _, slot) => assert Moves(Enter(t, s.ring[slot]), t) && Enabled(s, Enter(t, s.ring[slot]));
    case Running(_, _) => assert Moves(Leave(t), t) && Enabled(s, Leave(t));
    case Finishing(_) => assert Moves(Finish(t), t) && Enabled(s, Finish(t));
  }

  /** The barrier never waits for a task nobody has: while the dispatcher spins, each
      unfinished ticket is in the hands of a thread that can go on. */
  lemma BarrierProgress(s: State)
    requires Inv(s) && s.phase.Spinning? && s.pending != 0
    ensures s.pending > 0
    ensures exists t: nat, k: nat :: t != 0 && t < |s.threads| && k in s.open && Holds(s.threads[t], k) && CanMove(s, t)
  {
    assert s.open != {};
    var k: nat :| k in s.open;
    var t := s.owner[k];
    assert Holds(s.threads[t], k);
    assert ThreadOK(s, 0);
    HolderMoves(s, t, k);
  }

  /** A step of a dispatch, and not the start of one, a surplus wake-up or a retry. */
  predicate Advances(a: Action) { !a.Begin? && !a.SetCancel? && !a.Miss? && (a.Wake? ==> a.t == 0) }

  /** No deadlock: a dispatch under way can always go on, by a step of the dispatcher's own or, at
      the barrier, of a worker that holds a ticket; it only has to try a claim again if another
      thread claimed in between. */
  lemma NeverStuck(s: State)
    requires Inv(s) && !s.phase.Rest?
    ensures (exists a: Action :: Advances(a) && Enabled(s, a))
      || (s.phase.Claiming? && s.threads[0].LoadedLimit? && s.threads[0].cur < s.claim)
  {
    assert ThreadOK(s, 0);
    match s.phase
    case Growing(_, _) => assert Advances(Keep) && Enabled(s, Keep);
    case Filling(w, i) =>
      if i < w.split.n { assert Advances(Fill) && Enabled(s, Fill); } else { assert Advances(Arm) && Enabled(s, Arm); }
    case Opening(_) => assert Advances(Publish) && Enabled(s, Publish);
    case Claiming(_) => ClaimingGoesOn(s);
    case Spinning(_) =>
      if s.pending == 0 { assert Advances(Return) && Enabled(s, Return); } else { SpinningGoesOn(s); }
  }

  lemma SpinningGoesOn(s: State)
    requires Inv(s) && s.phase.Spinning? && s.pending != 0
    ensures exists a: Action :: Advances(a) && Enabled(s, a)
  {
    hide Inv;
    BarrierProgress(s);
    var t: nat, k: nat :| t != 0 && t < |s.threads| && k in s.open && Holds(s.threads[t], k) && CanMove(s, t);
    HolderAdvances(s, t, k);
  }

  /** The step of a thread that holds a ticket is not a wake-up. */
  lemma HolderAdvances(s: State, t: nat, k: nat)
    requires t < |s.threads| && Holds(s.threads[t], k) && CanMove(s, t)
    ensures exists a: Action :: Advances(a) && Enabled(s, a)
  {
    var a: Action :| Moves(a, t) && Enabled(s, a);
    assert !a.Wake?;
    assert Advances(a);
  }

  lemma ClaimingGoesOn(s: State)
    requires Inv(s) && s.phase.Claiming? && ThreadOK(s, 0)
    ensures (exists a: Action :: Advances(a) && Enabled(s, a)) || (s.threads[0].LoadedLimit? && s.threads[0].cur < s.claim)
  {
    match s.threads[0]
    case Asleep => assert Advances(Wake(0)) && Enabled(s, Wake(0));
    case Looking => assert Advances(ReadClaim(0)) && Enabled(s, ReadClaim(0));
    case LoadedClaim(_) => assert Advances(ReadLimit(0)) && Enabled(s, ReadLimit(0));
    case LoadedLimit(cur, lim) =>
      if cur >= lim { assert Advances(GiveUp(0)) && Enabled(s, GiveUp(0)); }
      else if s.claim == cur { assert Advances(Swap(0)) && Enabled(s, Swap(0)); }
    case _ =>
      var k := s.threads[0].ticket;
      assert Holds(s.threads[0], k);
      HolderMoves(s, 0, k);
      HolderAdvances(s, 0, k);
  }

  // ---------- whole runs ----------

  ghost predicate Possible(s: State, acts: seq<Action>)
    decreases |acts|
  {
    acts == [] || (Enabled(s, acts[0]) && Possible(Apply(s, acts[0]), acts[1..]))
  }

  ghost function After(s: State, acts: seq<Action>): State
    requires Possible(s, acts)
    decreases |acts|
  {
    if acts == [] then s else After(Apply(s, acts[0]), acts[1..])
  }

  /** What is on record stays on record: claims, planned tasks and executions. */
  ghost predicate Extends(s: State, u: State) {
    && s.claim <= u.claim && s.limit <= u.limit && s.gen <= u.gen
    && s.owner <= u.owner && s.plan <= u.plan
    && (forall k: nat :: k in s.ran ==> k in u.ran && u.ran[k] == s.ran[k])
  }

  lemma ThreadStepExtends(s: State, a: Action)
    requires Inv(s) && Enabled(s, a) && !Dispatcher(a)
    ensures Extends(s, Apply(s, a))
  {
    if a.Enter? { EnterReadsOwnTask(s, a.t, a.read); }
  }

  lemma DispatcherStepExtends(s: State, a: Action)
    requires Inv(s) && Enabled(s, a) && Dispatcher(a)
    ensures Extends(s, Apply(s, a))
  {
    var s' := Apply(s, a);
    assert s'.owner == s.owner && s'.ran == s.ran && s'.claim == s.claim;
    if a.Publish? {
      assert s'.plan == s.plan && s.phase.w.base == s.limit;
    } else if a.Fill? {
      assert s'.plan == s.plan + [TaskOf(s.phase.w, s.phase.i)];
    }
  }

  lemma StepExtends(s: State, a: Action)
    requires Inv(s) && Enabled(s, a)
    ensures Extends(s, Apply(s, a))
  {
    if Dispatcher(a) { DispatcherStepExtends(s, a); } else { ThreadStepExtends(s, a); }
  }

  /** Over any number of dispatches and surplus wake-ups, in every interleaving. */
  lemma {:induction false} RunKeeps(s: State, acts: seq<Action>)
    requires Inv(s) && Possible(s, acts)
    ensures Inv(After(s, acts)) && Extends(s, After(s, acts))
    decreases |acts|
  {
    if acts != [] {
      StepKeeps(s, acts[0]);
      StepExtends(s, acts[0]);
      RunKeeps(Apply(s, acts[0]), acts[1..]);
    }
  }

  /** Every reachable state: the cursor is within the limit, and each ticket below it has
      exactly one owner and ran, if at all, with its own task. */
  lemma ReachableSafe(s: State, acts: seq<Action>)
    requires Init(s) && Possible(s, acts)
    ensures var u := After(s, acts);
      && Inv(u) && u.claim <= u.limit
      && |u.owner| == u.claim && |u.plan| >= u.limit
      && (forall k: nat :: k in u.ran ==> k < u.claim && u.ran[k] == u.plan[k])
  {
    InitInv(s);
    RunKeeps(s, acts);
  }

  /** No ticket is claimed twice, and none is run twice, however far apart in the run. */
  lemma NothingTwice(s: State, a: Action, acts: seq<Action>, b: Action)
    requires Inv(s) && Enabled(s, a) && Possible(Apply(s, a), acts) && Enabled(After(Apply(s, a), acts), b)
    ensures var u := After(Apply(s, a), acts);
      && (a.Swap? && b.Swap? ==> s.claim < u.claim)
      && (a.Enter? && b.Enter? ==> s.threads[a.t].ticket != u.threads[b.t].ticket)
  {
    StepKeeps(s, a);
    RunKeeps(Apply(s, a), acts);
    if b.Enter? { EnterReadsOwnTask(After(Apply(s, a), acts), b.t, b.read); }
  }

  // ---------- when a dispatch returns ----------

  /** Ticket k of the window ran a task that holds the row. */
  ghost predicate RanRow(s: State, w: Window, k: nat, row: int) {
    w.base <= k < w.base + w.split.n && k in s.ran && s.ran[k].job == w.job && s.ran[k].start <= row < s.ran[k].end
  }

  ghost predicate RowDone(s: State, w: Window, row: int) {
    exists k: nat :: RanRow(s, w, k, row)
  }

  /** Exactly the rows [0, total) were processed, each by one executed task. */
  ghost predicate EachRowOnce(s: State, w: Window, total: int) {
    && (forall row :: 0 <= row < total ==> RowDone(s, w, row))
    && (forall row, j: nat, k: nat :: RanRow(s, w, j, row) && RanRow(s, w, k, row) ==> j == k)
    && (forall row, k: nat :: RanRow(s, w, k, row) ==> 0 <= row < total)
  }

  /** The barrier opens only when the window is claimed and finished to the last ticket
      and, unless the query was cancelled meanwhile, each ticket has run its task. */
  lemma ReturnMeansDone(s: State)
    requires Inv(s) && Enabled(s, Return)
    ensures var w := s.phase.w;
      && s.claim == s.limit == w.base + w.split.n && (forall t: nat, k: nat :: t < |s.threads| ==> !Holds(s.threads[t], k))
      && (!s.sawCancel ==> forall k: nat :: w.base <= k < w.base + w.split.n ==> k in s.ran && s.ran[k] == TaskOf(w, k - w.base))
  {
    assert s.open == {};
    forall t: nat, k: nat | t < |s.threads| ensures !Holds(s.threads[t], k) { assert ThreadOK(s, t); }
  }

  lemma RanIsIn(s: State, k: nat, row: int)
    requires Inv(s) && Enabled(s, Return) && !s.sawCancel && k >= s.phase.w.base
    ensures RanRow(s, s.phase.w, k, row) <==> In(s.phase.w.split, k - s.phase.w.base, row)
  {
    ReturnMeansDone(s);
  }

  lemma OnceIffPartitions(s: State, total: int)
    requires Inv(s) && Enabled(s, Return) && !s.sawCancel
    ensures EachRowOnce(s, s.phase.w, total) <==> Partitions(s.phase.w.split, total)
  {
    var w := s.phase.w;
    forall k: nat, row | k >= w.base ensures RanRow(s, w, k, row) <==> In(w.split, k - w.base, row) { RanIsIn(s, k, row); }
    forall i: nat, row ensures RanRow(s, w, w.base + i, row) <==> In(w.split, i, row) { RanIsIn(s, w.base + i, row); }
    forall row ensures RowDone(s, w, row) <==> Hit(w.split, row) {
      if i: nat :| In(w.split, i, row) { assert RanRow(s, w, w.base + i, row); }
      if k: nat :| RanRow(s, w, k, row) { assert In(w.split, k - w.base, row); }
    }
    if EachRowOnce(s, w, total) {
      forall row, i: nat, j: nat | In(w.split, i, row) && In(w.split, j, row) ensures i == j {
        assert RanRow(s, w, w.base + i, row) && RanRow(s, w, w.base + j, row);
      }
      forall row, i: nat | In(w.split, i, row) ensures 0 <= row < total { assert RanRow(s, w, w.base + i, row); }
    }
  }

  /** When an uncancelled dispatch over rows returns, every row was processed by exactly one
      executed task, if and only if the 32-bit task count was not cut or still exceeds the
      ring; clamped tasks past the end, empty or inverted, change nothing. */
  lemma DispatchProcessesEachRowOnceIff(s: State, total: int)
    requires Inv(s) && Enabled(s, Return) && !s.sawCancel && s.phase.w.request == Rows(total) && total <= INT64_MAX - MAX_TASKS
    ensures EachRowOnce(s, s.phase.w, total) <==> Ceil(total, GRAIN) < TWO32 || Ceil(total, GRAIN) % TWO32 > |s.ring|
  {
    RowsCoveredIff(total, |s.ring|);
    OnceIffPartitions(s, total);
  }

  /** One dispatcher alone, 2^45 rows: the 32-bit task count is cut to 0, and the dispatch
      returns without having run anything. */
  lemma HugeDispatchRunsNothing(s: State)
    requires Init(s) && |s.threads| == 1
    ensures var total := 0x2000_0000_0000;
      var acts := [Begin(0, Rows(total)), Keep, Arm, Publish, Wake(0), ReadClaim(0), ReadLimit(0), GiveUp(0)];
      Possible(s, acts) && var u := After(s, acts);
      Enabled(u, Return) && !u.sawCancel && u.phase.w.request == Rows(total) && u.ran == map[] && !EachRowOnce(u, u.phase.w, total)
  {
    var r := Rows(0x2000_0000_0000);
    var w := Window(0, r, 0, Split(0, GRAIN, r.total));
    assert SplitFor(r, INIT_TASKS) == w.split;
    var s1 := s.(phase := Growing(0, r));
    var s4 := s.(phase := Claiming(w));
    var u := s.(phase := Spinning(w));
    HugeDrained(s4, u, w);
    assert Tickets(0, 0) == {};
    var a3, a2 := [Publish] + DRAIN, [Arm] + ([Publish] + DRAIN);
    Before(s.(phase := Opening(w)), Publish, DRAIN);
    Before(s.(phase := Filling(w, 0)), Arm, a3);
    Before(s1, Keep, a2);
    Before(s, Begin(0, r), [Keep] + a2);
    assert [Begin(0, r)] + ([Keep] + a2) == [Begin(0, r), Keep, Arm, Publish, Wake(0), ReadClaim(0), ReadLimit(0), GiveUp(0)];
    assert !RowDone(u, w, 0);
  }

  /** The dispatcher looks for a ticket and finds none. */
  const DRAIN: seq<Action> := [Wake(0), ReadClaim(0), ReadLimit(0), GiveUp(0)]

  lemma HugeDrained(s: State, u: State, w: Window)
    requires s.phase == Claiming(w) && |s.threads| == 1 && s.threads[0].Asleep? && s.claim == s.limit == 0 && u == s.(phase := Spinning(w))
    ensures Possible(s, DRAIN) && After(s, DRAIN) == u
  {
    var s1, s2, s3 := s.(threads := [Looking]), s.(threads := [LoadedClaim(0)]), s.(threads := [LoadedLimit(0, 0)]);
    assert u.threads == s.threads == [Asleep];
    Before(s3, GiveUp(0), []);
    Before(s2, ReadLimit(0), [GiveUp(0)]);
    Before(s1, ReadClaim(0), [ReadLimit(0)] + [GiveUp(0)]);
    Before(s, Wake(0), [ReadClaim(0)] + ([ReadLimit(0)] + [GiveUp(0)]));
    assert DRAIN == [Wake(0)] + ([ReadClaim(0)] + ([ReadLimit(0)] + [GiveUp(0)]));
  }

  /** A run with a step before it. */
  lemma Before(s: State, a: Action, rest: seq<Action>)
    requires Enabled(s, a) && Possible(Apply(s, a), rest)
    ensures Possible(s, [a] + rest) && After(s, [a] + rest) == After(Apply(s, a), rest)
  {
    assert ([a] + rest)[1..] == rest;
  }

  /** dispatch_n runs each partition once exactly if the ring holds them all. */
  lemma DispatchNRunsEachPartOnceIff(s: State, n: nat)
    requires Inv(s) && Enabled(s, Return) && !s.sawCancel && s.phase.w.request == Parts(n)
    ensures EachRowOnce(s, s.phase.w, n) <==> n <= |s.ring|
  {
    PartsCoveredIff(n, |s.ring|);
    OnceIffPartitions(s, n);
  }

  // ---------- cancelling ----------

  /** A thread is past the look at the cancel flag with ticket k, and has not entered its task. */
  ghost predicate Past(s: State, k: nat) {
    exists t: nat :: t < |s.threads| && (s.threads[t].Approved? || s.threads[t].Located?) && s.threads[t].ticket == k
  }

  ghost predicate StaysCancelled(acts: seq<Action>) { forall i :: 0 <= i < |acts| ==> acts[i] != SetCancel(false) }

  lemma CancelStep(s: State, a: Action, k: nat)
    requires s.cancelled && Enabled(s, a) && a != SetCancel(false)
    ensures var u := Apply(s, a); u.cancelled && (Past(u, k) || k in u.ran ==> Past(s, k) || k in s.ran)
  {
    var u := Apply(s, a);
    if Past(u, k) {
      var t: nat :| t < |u.threads| && (u.threads[t].Approved? || u.threads[t].Located?) && u.threads[t].ticket == k;
      assert t < |s.threads| && (s.threads[t].Approved? || s.threads[t].Located?) && s.threads[t].ticket == k;
    }
  }

  /** While the flag stays set, nothing is run but what was past the look at it by then. */
  lemma {:induction false} CancelStops(s: State, acts: seq<Action>, k: nat)
    requires s.cancelled && StaysCancelled(acts) && Possible(s, acts) && k in After(s, acts).ran
    ensures Past(s, k) || k in s.ran
    decreases |acts|
  {
    if acts != [] {
      CancelStops(Apply(s, acts[0]), acts[1..], k) by { CancelStep(s, acts[0], k); }
      CancelStep(s, acts[0], k);
    }
  }

  /** A flag set before the window is published keeps every ticket of it from being run. */
  lemma CancelledWindowRunsNothing(s: State, acts: seq<Action>, k: nat)
    requires Inv(s) && s.cancelled && StaysCancelled(acts) && Possible(s, acts) && k >= s.limit
    ensures k !in After(s, acts).ran
  {
    if k in After(s, acts).ran {
      CancelStops(s, acts, k);
      if t: nat :| t < |s.threads| && (s.threads[t].Approved? || s.threads[t].Located?) && s.threads[t].ticket == k {
        assert ThreadOK(s, t) && Holds(s.threads[t], k);
      }
    }
  }

  // ---------- filling the ring in place ----------

  /** The window's slots hold its tasks, each in its own slot, and no other slot changed. */
  method FillWindow(ring: array<Task>, w: Window)
    requires ring.Length > 0 && w.split.n <= ring.Length
    modifies ring
    ensures forall k: nat :: w.base <= k < w.base + w.split.n ==> ring[Slot(k, ring.Length)] == TaskOf(w, k - w.base)
    ensures forall j: nat :: j < ring.Length && ring[j] != old(ring[j]) ==> exists k: nat :: w.base <= k < w.base + w.split.n && j == Slot(k, ring.Length)
  {
    for i := 0 to w.split.n
      invariant forall k: nat :: w.base <= k < w.base + i ==> ring[Slot(k, ring.Length)] == TaskOf(w, k - w.base)
      invariant forall j: nat :: j < ring.Length && ring[j] != old(ring[j]) ==> exists k: nat :: w.base <= k < w.base + i && j == Slot(k, ring.Length)
    {
      forall k: nat | w.base <= k < w.base + i ensures Slot(k, ring.Length) != Slot(w.base + i, ring.Length) {
        SlotsDiffer(k, w.base + i, ring.Length);
      }
      ring[Slot(w.base + i, ring.Length)] := TaskOf(w, i);
    }
  }
}
