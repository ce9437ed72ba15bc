/** How a dispatch is cut into tasks: the number of tasks, the ring's growth and
    the row range of each task. */
module PoolRange {
  import opened Arithmetic

  const GRAIN: int := 8 * 1024             // RAY_DISPATCH_MORSELS * RAY_MORSEL_ELEMS
  const INIT_TASKS: nat := 1024
  const MAX_TASKS: nat := 0x1_0000
  const TWO32: nat := 0x1_0000_0000

  /** A dispatch over rows [0, total), or over n partitions of one row each. */
  datatype Request = Rows(total: int) | Parts(n: nat)

  /** n tasks of `grain` rows each, cut off at `total`. */
  datatype Split = Split(n: nat, grain: int, total: int) {
    function Start(i: nat): int { i * grain }
    function End(i: nat): int { if Start(i) + grain > total then total else Start(i) + grain }
  }

  /** Rows after the guard against overflow in rounding up. */
  function Capped(total: int): (t: int)
    ensures t <= total
  {
    if total > INT64_MAX - GRAIN + 1 then INT64_MAX - GRAIN + 1 else total
  }

  function Ceil(total: int, grain: int): int
    requires grain > 0
  {
    (total + grain - 1) / grain
  }

  /** Tasks asked for; the count is cut to 32 bits. */
  function Wanted(r: Request): nat {
    match r
    case Rows(total) => Ceil(Capped(total), GRAIN) % TWO32
    case Parts(n) => n
  }

  /** Capacity after doubling towards the tasks wanted. */
  function Grown(cap: nat, want: nat): (c: nat)
    requires cap > 0
    ensures c >= cap && (c < want ==> c >= MAX_TASKS)
    decreases MAX_TASKS - cap
  {
    if cap < want && cap < MAX_TASKS then Grown(cap * 2, want) else cap
  }

  function SplitFor(r: Request, cap: nat): (s: Split)
    requires cap > 0
    ensures s.n <= cap
  {
    var want := Wanted(r);
    match r
    case Rows(total) =>
      if want > cap then Split(cap, Ceil(Capped(total), cap), Capped(total)) else Split(want, GRAIN, Capped(total))
    case Parts(n) =>
      var k := if want > cap then cap else want;
      Split(k, 1, k)
  }

  // ---------- capacity ----------

  /** The capacities a ring can have. */
  ghost predicate PowerCap(cap: nat) {
    exists k: nat :: cap == Pow2(k)
  }

  function Pow2(k: nat): (p: nat)
    ensures p > 0
  {
    if k == 0 then 1 else 2 * Pow2(k - 1)
  }

  lemma {:induction false} GrownPower(cap: nat, want: nat)
    requires cap > 0 && PowerCap(cap)
    ensures PowerCap(Grown(cap, want))
    decreases MAX_TASKS - cap
  {
    if cap < want && cap < MAX_TASKS {
      var k: nat :| cap == Pow2(k);
      assert cap * 2 == Pow2(k + 1);
      GrownPower(cap * 2, want);
    }
  }

  /** Doubling stops at the ceiling: the ring holds what is wanted up to 65536 tasks, has
      less than twice the slots wanted, and never more than 65536. */
  lemma {:induction false} GrownEnough(cap: nat, want: nat)
    requires PowerCap(cap) && cap <= MAX_TASKS
    ensures var c := Grown(cap, want);
      && c <= MAX_TASKS && (c >= want <==> want <= MAX_TASKS) && (c > cap ==> c < 2 * want)
    decreases MAX_TASKS - cap
  {
    if cap < want && cap < MAX_TASKS {
      var k: nat :| cap == Pow2(k);
      PowerSteps(k);
      assert cap * 2 == Pow2(k + 1);
      GrownEnough(cap * 2, want);
    }
  }

  lemma PowerSteps(k: nat)
    requires Pow2(k) < MAX_TASKS
    ensures Pow2(k + 1) <= MAX_TASKS
  {
    assert Pow2(8) == 256;
    assert Pow2(16) == 256 * Pow2(8);
    if k < 16 { PowMono(k + 1, 16); } else { PowMono(16, k); }
  }

  lemma {:induction false} PowMono(i: nat, j: nat)
    requires i <= j
    ensures Pow2(i) <= Pow2(j)
  {
    if i < j { PowMono(i, j - 1); }
  }

  method GrowCapacity(cap: nat, want: nat) returns (c: nat)
    requires cap > 0
    ensures c == Grown(cap, want)
  {
    c := cap;
    while c < want && c < MAX_TASKS
      invariant c > 0 && Grown(c, want) == Grown(cap, want)
      decreases MAX_TASKS - c
    {
      c := c * 2;
    }
  }

  /** Bitwise and. */
  function And(x: nat, y: nat): nat {
    if x == 0 || y == 0 then 0 else (x % 2) * (y % 2) + 2 * And(x / 2, y / 2)
  }

  /** Masking with a power of two less one is the remainder. */
  lemma {:induction false} MaskIsRemainder(x: nat, k: nat)
    ensures And(x, Pow2(k) - 1) == x % Pow2(k)
    decreases k
  {
    if k == 0 {
      assert And(x, 0) == 0;
    } else {
      var p := Pow2(k - 1);
      assert Pow2(k) == 2 * p;
      MaskIsRemainder(x / 2, k - 1);
      HalfRemainder(x, p);
      MaskStep(x, p);
    }
  }

  lemma MaskStep(x: nat, p: nat)
    requires p > 0
    ensures And(x, 2 * p - 1) == x % 2 + 2 * And(x / 2, p - 1)
  {
    assert (2 * p - 1) / 2 == p - 1 && (2 * p - 1) % 2 == 1;
    if x > 0 {
      assert And(x, 2 * p - 1) == (x % 2) * ((2 * p - 1) % 2) + 2 * And(x / 2, (2 * p - 1) / 2);
    }
  }

  lemma HalfRemainder(x: nat, p: nat)
    requires p > 0
    ensures x % (2 * p) == x % 2 + 2 * ((x / 2) % p)
  {
    var q, r := (x / 2) / p, (x / 2) % p;
    assert x / 2 == q * p + r;
    assert x == 2 * (x / 2) + x % 2;
    assert x == q * (2 * p) + (2 * r + x % 2) by { assert 2 * (q * p) == q * (2 * p); }
    RemainderIs(x, 2 * p, q, 2 * r + x % 2);
  }

  /** Tickets closer than the capacity never share a slot. */
  lemma SlotsDiffer(a: nat, b: nat, cap: nat)
    requires cap > 0 && a < b < a + cap
    ensures a % cap != b % cap
  {
    var d := b / cap - a / cap;
    assert b - a == d * cap + (b % cap - a % cap);
    Times(1, d, cap);
    Times(d, 0, cap);
  }

  // ---------- coverage ----------

  ghost predicate In(s: Split, i: nat, row: int) { i < s.n && s.Start(i) <= row < s.End(i) }

  ghost predicate Hit(s: Split, row: int) { exists i: nat :: In(s, i, row) }

  /** Every row of [0, total) lies in exactly one task, and no task holds another row. */
  ghost predicate Partitions(s: Split, total: int) {
    && (forall row :: 0 <= row < total ==> Hit(s, row))
    && (forall row, i: nat, j: nat :: In(s, i, row) && In(s, j, row) ==> i == j)
    && (forall row, i: nat :: In(s, i, row) ==> 0 <= row < total)
  }

  lemma InIsQuotient(s: Split, i: nat, row: int)
    requires s.grain > 0 && In(s, i, row)
    ensures row >= 0 && i == row / s.grain
  {
    assert i * s.grain >= 0;
    RemainderIs(row, s.grain, i, row - i * s.grain);
  }

  lemma QuotientIn(s: Split, row: int)
    requires s.grain > 0 && 0 <= row < s.total <= s.n * s.grain
    ensures In(s, row / s.grain, row)
  {
    var q := row / s.grain;
    assert q * s.grain <= row < q * s.grain + s.grain;
    Times(s.n, q, s.grain);
  }

  lemma NoOverlap(s: Split)
    requires s.grain > 0
    ensures forall row, i: nat, j: nat :: In(s, i, row) && In(s, j, row) ==> i == j
    ensures forall row, i: nat :: In(s, i, row) ==> 0 <= row < s.total
  {
    forall row, i: nat, j: nat | In(s, i, row) && In(s, j, row) ensures i == j {
      InIsQuotient(s, i, row);
      InIsQuotient(s, j, row);
    }
    forall row, i: nat | In(s, i, row) ensures 0 <= row < s.total {
      InIsQuotient(s, i, row);
    }
  }

  lemma FirstMissed(s: Split)
    requires s.grain > 0 && s.n * s.grain < s.total
    ensures s.n * s.grain >= 0 && !Hit(s, s.n * s.grain)
  {
    var row := s.n * s.grain;
    RemainderIs(row, s.grain, s.n, 0);
    Times(0, s.n, s.grain);
    forall i: nat | In(s, i, row) ensures i == s.n { InIsQuotient(s, i, row); }
  }

  /** Tasks past the end of the rows are empty or inverted, and hold nothing; so a split
      partitions its rows exactly if its tasks reach the end of them. */
  lemma PartitionsIff(s: Split)
    requires s.grain > 0 && s.total > 0
    ensures Partitions(s, s.total) <==> s.n * s.grain >= s.total
  {
    NoOverlap(s);
    if s.n * s.grain >= s.total {
      forall row | 0 <= row < s.total ensures Hit(s, row) {
        QuotientIn(s, row);
      }
    } else {
      FirstMissed(s);
    }
  }

  lemma CeilBounds(total: int, grain: int)
    requires total > 0 && grain > 0
    ensures Ceil(total, grain) > 0 && (Ceil(total, grain) - 1) * grain < total <= Ceil(total, grain) * grain
  {
    var q := Ceil(total, grain);
    assert q * grain <= total + grain - 1 < q * grain + grain;
    Times(q, 0, grain);
  }

  /** A dispatch over rows covers each of them by exactly one task if and only if the
      32-bit task count is not cut, or what is left of it still exceeds the ring. */
  lemma {:induction false} RowsCoveredIff(total: int, cap: nat)
    requires 0 < total <= INT64_MAX - MAX_TASKS && 0 < cap <= MAX_TASKS
    ensures Partitions(SplitFor(Rows(total), cap), total)
       <==> Ceil(total, GRAIN) < TWO32 || Ceil(total, GRAIN) % TWO32 > cap
  {
    var s := SplitFor(Rows(total), cap);
    var count := Ceil(total, GRAIN);
    CeilBounds(total, GRAIN);
    if count % TWO32 > cap {
      CeilBounds(total, cap);
      assert cap * Ceil(total, cap) == Ceil(total, cap) * cap;
    } else if count >= TWO32 {
      assert s.n < count;
      assert s.n * GRAIN <= (count - 1) * GRAIN;
    }
    PartitionsIff(s);
  }

  /** Partitions are covered exactly if they all fit in the ring. */
  lemma PartsCoveredIff(n: nat, cap: nat)
    requires n > 0 && cap > 0
    ensures Partitions(SplitFor(Parts(n), cap), n) <==> n <= cap
  {
    var s := SplitFor(Parts(n), cap);
    PartitionsIff(s);
    if n > cap {
      forall i: nat | In(s, i, cap) ensures i == cap { InIsQuotient(s, i, cap); }
      assert !Hit(s, cap);
    }
  }
}
