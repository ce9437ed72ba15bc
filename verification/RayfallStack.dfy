/** Stack and trap discipline of emitted code, on every path through it:
    whichever way branches go and wherever an instruction fails. */
module RayfallStack {
  import opened Wrappers
  import opened RayfallSyntax
  import opened RayfallCompile
  import opened RayfallCode

  /** An armed trap: operand depth to return to, and where its handler starts. */
  datatype Handler = Handler(depth: nat, ip: int)

  /** A point in an execution: next instruction, operands above the slots, armed traps. */
  datatype Point = Point(ip: int, depth: nat, armed: seq<Handler>)

  function Operand(code: seq<nat>, ip: nat): nat
    requires ip < |code| && ip + Width(code[ip]) <= |code|
  {
    if IsWide(code[ip]) then code[ip + 1] * 256 + code[ip + 2]
    else if TakesByte(code[ip]) then code[ip + 1]
    else 0
  }

  /** Operands an instruction needs, those it consumes and those it only reads. */
  function Needs(op: nat, arg: nat): nat {
    if op == OP_CALLN || op == OP_CALLF then arg + 1
    else if op == OP_CALLS then arg
    else if op == OP_CALL2 then 3
    else if op == OP_CALL1 || op == OP_TRYH then 2
    else if op == OP_JMP || op == OP_LOADCONST || op == OP_LOADCONST_W || op == OP_LOADENV || op == OP_RESOLVE
         || op == OP_RESOLVE_W || op == OP_TRAP || op == OP_TRAP_END then 0
    else 1
  }

  function Makes(op: nat): nat {
    if op == OP_DUP then 2
    else if IsJump(op) || op == OP_STOREENV || op == OP_POP || op == OP_TRAP_END || op == OP_SCOPE_BEGIN || op == OP_SCOPE_END
         || op == OP_RET then 0
    else 1
  }

  /** The operand names a slot, a constant or a name that exists. */
  ghost predicate OperandOK(p: Program, op: nat, arg: nat) {
    && (op == OP_LOADENV || op == OP_STOREENV ==> arg < p.nlocals)
    && (op == OP_LOADCONST || op == OP_LOADCONST_W ==> arg < |p.consts|)
    && (op in {OP_RESOLVE, OP_RESOLVE_W, OP_STOREGLOBAL, OP_STOREGLOBAL_W} ==> arg < |p.consts| && p.consts[arg].Symbol?)
    && (op == OP_CALLD ==> arg == 0)
  }

  function Innermost(armed: seq<Handler>): nat { if armed == [] then 0 else armed[|armed| - 1].depth }

  /** The instruction at s can run without reaching below `floor`, nor below the
      innermost trap; RET comes only when every trap is closed. */
  ghost predicate Runs(p: Program, floor: nat, s: Point) {
    && 0 <= s.ip < |p.code| && s.ip + Width(p.code[s.ip]) <= |p.code|
    && var op := p.code[s.ip]; var arg := Operand(p.code, s.ip);
    && op <= OP_FORCE && OperandOK(p, op, arg)
    && floor + Needs(op, arg) <= s.depth
    && Innermost(s.armed) + Needs(op, arg) <= s.depth
    && (op == OP_RET ==> s.armed == [])
    && (op == OP_TRAP_END ==> s.armed != [])
  }

  /** The point behind the instruction at s, if it goes on there. */
  ghost function Then(p: Program, s: Point): Option<Point>
    requires Runs(p, 0, s)
  {
    var op := p.code[s.ip];
    var next := s.ip + Width(op);
    var depth := s.depth - Needs(op, Operand(p.code, s.ip)) + Makes(op);
    if op == OP_RET then None
    else if op == OP_JMP then Some(s.(ip := next + ReadOffset(p.code, s.ip + 1)))
    else if op == OP_TRAP then Some(Point(next, depth, s.armed + [Handler(depth, next + ReadOffset(p.code, s.ip + 1))]))
    else if op == OP_TRAP_END then Some(Point(next, depth, s.armed[..|s.armed| - 1]))
    else Some(Point(next, depth, s.armed))
  }

  /** The target of a conditional jump. */
  ghost function Else(p: Program, s: Point): Option<Point>
    requires Runs(p, 0, s)
  {
    if p.code[s.ip] != OP_JMPF then None
    else Some(Point(s.ip + 3 + ReadOffset(p.code, s.ip + 1), s.depth - 1, s.armed))
  }

  /** Where a failure at s goes on: the error is pushed for the innermost handler. */
  ghost function ToHandler(s: Point): Point
    requires s.armed != []
  {
    var h := s.armed[|s.armed| - 1];
    Point(h.ip, h.depth + 1, s.armed[..|s.armed| - 1])
  }

  /** A stretch of code: operands below `floor` are not its own, nor are the traps in `outer`. */
  datatype Span = Span(lo: int, hi: int, floor: nat, outer: seq<Handler>, exit: Point)

  /** The instruction at s may run as part of the span. */
  ghost predicate Here(p: Program, c: Span, s: Point) {
    c.lo <= s.ip < c.hi && (c.outer <= s.armed || s.armed <= c.outer) && Runs(p, c.floor, s)
  }

  /** The innermost trap at s was armed inside the span. */
  ghost predicate Guarded(c: Span, s: Point) { c.outer < s.armed }

  /** For k instructions from s, whatever they do: the path stays inside the span and
      above its floor until it is at the exit point, returns with every trap closed, or
      fails into a trap armed outside. */
  ghost predicate Stays(p: Program, k: nat, c: Span, s: Point)
    decreases k
  {
    s == c.exit || k == 0 || (
      && Here(p, c, s)
      && (Then(p, s).Some? ==> Stays(p, k - 1, c, Then(p, s).value))
      && (Else(p, s).Some? ==> Stays(p, k - 1, c, Else(p, s).value))
      && (Guarded(c, s) ==> Stays(p, k - 1, c, ToHandler(s))))
  }

  lemma {:induction false} StaysLess(p: Program, k: nat, j: nat, c: Span, s: Point)
    requires Stays(p, k, c, s) && j <= k
    ensures Stays(p, j, c, s)
    decreases k
  {
    if s != c.exit && j > 0 {
      if Then(p, s).Some? { StaysLess(p, k - 1, j - 1, c, Then(p, s).value); }
      if Else(p, s).Some? { StaysLess(p, k - 1, j - 1, c, Else(p, s).value); }
      if Guarded(c, s) { StaysLess(p, k - 1, j - 1, c, ToHandler(s)); }
    }
  }

  /** a lies inside b, under the same traps or under one more that b armed itself. */
  ghost predicate Inside(a: Span, b: Span) {
    && b.lo <= a.lo && a.hi <= b.hi && b.floor <= a.floor
    && (a.outer == b.outer || (a.outer != [] && a.outer[..|a.outer| - 1] == b.outer))
  }

  ghost function HandlerOf(a: Span): Point
    requires a.outer != []
  {
    ToHandler(Point(0, 0, a.outer))
  }

  lemma HereInside(p: Program, a: Span, b: Span, s: Point)
    requires Inside(a, b) && Here(p, a, s)
    ensures Here(p, b, s)
    ensures Guarded(b, s) && !Guarded(a, s) ==> a.outer != [] && a.outer != b.outer && ToHandler(s) == HandlerOf(a)
  {
    if a.outer != b.outer {
      assert b.outer <= a.outer;
      if s.armed <= a.outer && s.armed != a.outer {
        assert |s.armed| < |a.outer|;
        assert s.armed <= b.outer;
      }
    }
  }

  /** One instruction of a, taken as one of b. */
  lemma JoinsHere(p: Program, k: nat, a: Span, b: Span, s: Point)
    requires k > 0 && Inside(a, b) && Here(p, a, s)
    requires a.outer != b.outer ==> Stays(p, k - 1, b, HandlerOf(a))
    requires Then(p, s).Some? ==> Stays(p, k - 1, b, Then(p, s).value)
    requires Else(p, s).Some? ==> Stays(p, k - 1, b, Else(p, s).value)
    requires Guarded(a, s) ==> Stays(p, k - 1, b, ToHandler(s))
    ensures Stays(p, k, b, s)
  {
    HereInside(p, a, b, s);
    hide Inside;
  }

  /** A span whose exit, and whose handler, go on well inside b. */
  lemma {:induction false} Joins(p: Program, k: nat, a: Span, b: Span, s: Point)
    requires Inside(a, b) && Stays(p, k, a, s) && Stays(p, k, b, a.exit)
    requires a.outer != b.outer ==> Stays(p, k, b, HandlerOf(a))
    ensures Stays(p, k, b, s)
    decreases k
  {
    if s != a.exit && s != b.exit && k > 0 {
      StaysLess(p, k, k - 1, b, a.exit);
      if a.outer != b.outer { StaysLess(p, k, k - 1, b, HandlerOf(a)); }
      if Then(p, s).Some? { Joins(p, k - 1, a, b, Then(p, s).value); }
      if Else(p, s).Some? { Joins(p, k - 1, a, b, Else(p, s).value); }
      if Guarded(a, s) { Joins(p, k - 1, a, b, ToHandler(s)); }
      JoinsHere(p, k, a, b, s);
    }
  }

  /** The span of n bytes that push one value from s. */
  ghost function Pushing(s: Point, n: nat): Span {
    Span(s.ip, s.ip + n, s.depth, s.armed, Point(s.ip + n, s.depth + 1, s.armed))
  }

  /** On paths of any length. */
  ghost predicate Safe(p: Program, c: Span, s: Point) {
    forall k: nat :: Stays(p, k, c, s)
  }

  lemma SafeExit(p: Program, c: Span)
    ensures Safe(p, c, c.exit)
  {
  }

  /** One instruction: it may run here, and wherever it goes is safe. */
  lemma SafeStep(p: Program, c: Span, s: Point)
    requires Here(p, c, s)
    requires Then(p, s).Some? ==> Safe(p, c, Then(p, s).value)
    requires Else(p, s).Some? ==> Safe(p, c, Else(p, s).value)
    requires Guarded(c, s) ==> Safe(p, c, ToHandler(s))
    ensures Safe(p, c, s)
  {
    forall k: nat ensures Stays(p, k, c, s) {
      if k > 0 {
        var j: nat := k - 1;
        assert Then(p, s).Some? ==> Stays(p, j, c, Then(p, s).value);
        assert Else(p, s).Some? ==> Stays(p, j, c, Else(p, s).value);
        assert Guarded(c, s) ==> Stays(p, j, c, ToHandler(s));
      }
    }
  }

  lemma SafeJoins(p: Program, a: Span, b: Span, s: Point)
    requires Inside(a, b) && Safe(p, a, s) && Safe(p, b, a.exit)
    requires a.outer != b.outer ==> Safe(p, b, HandlerOf(a))
    ensures Safe(p, b, s)
  {
    forall k: nat ensures Stays(p, k, b, s) {
      assert Stays(p, k, a, s) && Stays(p, k, b, a.exit);
      assert a.outer != b.outer ==> Stays(p, k, b, HandlerOf(a));
      Joins(p, k, a, b, s);
    }
  }

  // ---------- single instructions ----------

  predicate Plain(op: nat) { op <= OP_FORCE && !IsJump(op) && op != OP_RET && op != OP_TRAP_END }

  ghost predicate Ready(c: Span, s: Point, needs: nat) {
    && 0 <= s.ip && c.lo <= s.ip < c.hi && (c.outer <= s.armed || s.armed <= c.outer)
    && c.floor + needs <= s.depth && Innermost(s.armed) + needs <= s.depth
  }

  /** An instruction that goes on behind itself, under the span's own traps only. */
  lemma PlainStep(p: Program, c: Span, s: Point, b: seq<nat>)
    requires b != [] && Plain(b[0]) && |b| == Width(b[0]) && 0 <= s.ip && At(p.code, s.ip, b)
    requires OperandOK(p, b[0], Operand(b, 0)) && Ready(c, s, Needs(b[0], Operand(b, 0))) && s.armed == c.outer
    requires Safe(p, c, Point(s.ip + |b|, s.depth - Needs(b[0], Operand(b, 0)) + Makes(b[0]), s.armed))
    ensures Safe(p, c, s)
  {
    assert p.code[s.ip + 0] == b[0];
    assert |b| > 1 ==> p.code[s.ip + 1] == b[1];
    assert |b| > 2 ==> p.code[s.ip + 2] == b[2];
    assert Operand(p.code, s.ip) == Operand(b, 0);
    SafeStep(p, c, s);
  }

  /** A plain instruction that ends its span. */
  lemma PlainExit(p: Program, c: Span, s: Point, b: seq<nat>)
    requires b != [] && Plain(b[0]) && |b| == Width(b[0]) && 0 <= s.ip && At(p.code, s.ip, b)
    requires OperandOK(p, b[0], Operand(b, 0)) && Ready(c, s, Needs(b[0], Operand(b, 0))) && s.armed == c.outer
    requires c.exit == Point(s.ip + |b|, s.depth - Needs(b[0], Operand(b, 0)) + Makes(b[0]), s.armed)
    ensures Safe(p, c, s)
  {
    SafeExit(p, c);
    PlainStep(p, c, s, b);
  }

  lemma JumpAt(p: Program, s: Point, op: nat, len: nat)
    requires 0 <= s.ip && At(p.code, s.ip, Jump(op, len)) && len <= MAX_JUMP
    ensures s.ip + 2 < |p.code| && p.code[s.ip] == op && ReadOffset(p.code, s.ip + 1) == len
  {
    var b := Jump(op, len);
    assert p.code[s.ip + 0] == b[0] && p.code[s.ip + 1] == b[1] && p.code[s.ip + 2] == b[2];
  }

  lemma JumpStep(p: Program, c: Span, s: Point, len: nat)
    requires 0 <= s.ip && At(p.code, s.ip, Jump(OP_JMP, len)) && len <= MAX_JUMP && Ready(c, s, 0) && s.armed == c.outer
    requires Safe(p, c, s.(ip := s.ip + 3 + len))
    ensures Safe(p, c, s)
  {
    JumpAt(p, s, OP_JMP, len);
    SafeStep(p, c, s);
  }

  lemma BranchStep(p: Program, c: Span, s: Point, len: nat)
    requires 0 <= s.ip && At(p.code, s.ip, Jump(OP_JMPF, len)) && len <= MAX_JUMP && Ready(c, s, 1)
    requires s.armed == c.outer
    requires Safe(p, c, Point(s.ip + 3, s.depth - 1, s.armed))
    requires Safe(p, c, Point(s.ip + 3 + len, s.depth - 1, s.armed))
    ensures Safe(p, c, s)
  {
    JumpAt(p, s, OP_JMPF, len);
    SafeStep(p, c, s);
  }

  lemma TrapStep(p: Program, c: Span, s: Point, len: nat)
    requires 0 <= s.ip && At(p.code, s.ip, Jump(OP_TRAP, len)) && len <= MAX_JUMP && Ready(c, s, 0)
    requires s.armed == c.outer
    requires Safe(p, c, Point(s.ip + 3, s.depth, s.armed + [Handler(s.depth, s.ip + 3 + len)]))
    ensures Safe(p, c, s)
  {
    JumpAt(p, s, OP_TRAP, len);
    SafeStep(p, c, s);
  }

  /** TRAP_END, either of a trap of the span or, on the way to RET, of an outer one. */
  lemma TrapEndStep(p: Program, c: Span, s: Point)
    requires 0 <= s.ip && At(p.code, s.ip, [OP_TRAP_END]) && Ready(c, s, 0) && s.armed != []
    requires Safe(p, c, Point(s.ip + 1, s.depth, s.armed[..|s.armed| - 1]))
    requires Guarded(c, s) ==> Safe(p, c, ToHandler(s))
    ensures Safe(p, c, s)
  {
    AtByte(p.code, s.ip, [OP_TRAP_END], 0);
    SafeStep(p, c, s);
  }

  /** `return`: closes every armed trap, then leaves. */
  lemma {:induction false} LeaveSafe(p: Program, c: Span, s: Point)
    requires 0 <= s.ip && At(p.code, s.ip, Repeat(OP_TRAP_END, |s.armed|) + [OP_RET]) && s.armed <= c.outer
    requires c.lo <= s.ip && s.ip + |s.armed| < c.hi && c.floor < s.depth && Shrinks(s.armed, s.depth)
    ensures Safe(p, c, s)
    decreases |s.armed|
  {
    var td := |s.armed|;
    AtSplit(p.code, s.ip, Repeat(OP_TRAP_END, td), [OP_RET]);
    if td == 0 {
      AtByte(p.code, s.ip, [OP_RET], 0);
      SafeStep(p, c, s);
    } else {
      var s1 := Point(s.ip + 1, s.depth, s.armed[..td - 1]);
      assert Repeat(OP_TRAP_END, td) + [OP_RET] == [OP_TRAP_END] + (Repeat(OP_TRAP_END, td - 1) + [OP_RET]);
      AtSplit(p.code, s.ip, [OP_TRAP_END], Repeat(OP_TRAP_END, td - 1) + [OP_RET]);
      LeaveSafe(p, c, s1);
      TrapEndStep(p, c, s);
    }
  }

  /** Traps nest: each was armed no deeper than the next, the last below depth d. */
  ghost predicate Shrinks(armed: seq<Handler>, d: nat)
    decreases |armed|
  {
    armed == [] || (armed[|armed| - 1].depth <= d && Shrinks(armed[..|armed| - 1], armed[|armed| - 1].depth))
  }

  lemma {:induction false} ShrinksMore(armed: seq<Handler>, d: nat, e: nat)
    requires Shrinks(armed, d) && d <= e
    ensures Shrinks(armed, e)
  {
  }

  // ---------- expressions ----------

  /** No error object stands for an expression. */
  ghost predicate NoErrors(e: Ray) {
    match e
    case Error(_) => false
    case List(es) => forall i :: 0 <= i < |es| ==> NoErrors(es[i])
    case _ => true
  }

  /** The parts of an expression without error objects have none either. */
  lemma PartsNoErrors(env: CompileEnv, e: Ray)
    requires NoErrors(e)
    ensures match Classify(env, e)
      case Nothing => false
      case Set(_, v) => NoErrors(v)
      case Let(_, v) => NoErrors(v)
      case If(c, a, b) => NoErrors(c) && NoErrors(a) && (b.Some? ==> NoErrors(b.value))
      case Do(es) => forall i :: 0 <= i < |es| ==> NoErrors(es[i])
      case Try(b, h) => NoErrors(b) && NoErrors(h)
      case Return(r) => r.Some? ==> NoErrors(r.value)
      case Self(args) => forall i :: 0 <= i < |args| ==> NoErrors(args[i])
      case Call(h, _, args) => NoErrors(h) && forall i :: 0 <= i < |args| ==> NoErrors(args[i])
      case _ => true
  {
  }

  /** The program holds the table built so far, and its indices fit their encoding. */
  ghost predicate Holds(p: Program, t: Table) {
    t.consts <= p.consts && |p.consts| <= 0x1_0000 && |t.locals| <= p.nlocals
  }

  /** The expression's code lies at s, under as many traps as it was compiled for. */
  ghost predicate Lies(p: Program, c: Emitted, td: nat, s: Point) {
    && c.Code? && Holds(p, c.table) && 0 <= s.ip && At(p.code, s.ip, c.bytes)
    && |s.armed| == td && Shrinks(s.armed, s.depth)
  }

  lemma HoldsEarlier(p: Program, t: Table, u: Table)
    requires Grows(t, u) && Holds(p, u)
    ensures Holds(p, t)
  {
  }

  lemma ConstSafe(p: Program, t: Table, x: Ray, td: nat, s: Point)
    requires Lies(p, LoadConst(t, x), td, s)
    ensures Safe(p, Pushing(s, |LoadConst(t, x).bytes|), s)
  {
    IndexSafe(p, OP_LOADCONST, OP_LOADCONST_W, t, x, td, s);
  }

  /** A load or a lookup of a pool constant. */
  lemma IndexSafe(p: Program, op: nat, wide: nat, t: Table, x: Ray, td: nat, s: Point)
    requires (op, wide) == (OP_LOADCONST, OP_LOADCONST_W) || ((op, wide) == (OP_RESOLVE, OP_RESOLVE_W) && x.Symbol?)
    requires Lies(p, Code(WithIndex(op, wide, AddConst(t, x).1), AddConst(t, x).0), td, s)
    ensures Safe(p, Pushing(s, |WithIndex(op, wide, AddConst(t, x).1)|), s)
  {
    var r := AddConst(t, x);
    var b := WithIndex(op, wide, r.1);
    assert p.consts[r.1] == r.0.consts[r.1];
    assert Operand(b, 0) == r.1;
    PlainExit(p, Pushing(s, |b|), s, b);
  }

  lemma {:induction false} ExprSafe(env: CompileEnv, t: Table, td: nat, e: Ray, p: Program, s: Point)
    requires ValidEnv(env) && NoErrors(e) && Lies(p, Comp(env, t, td, e), td, s)
    ensures Safe(p, Pushing(s, |Comp(env, t, td, e).bytes|), s)
    decreases Size(e), 0, 2
  {
    PartsNoErrors(env, e);
    CompGrows(env, t, td, e);
    match Classify(env, e)
    case Constant => ConstSafe(p, t, e, td, s);
    case NullName => ConstSafe(p, t, Null, td, s);
    case Name(id) =>
      if Find(t.locals, id) >= 0 { PlainExit(p, Pushing(s, 2), s, [OP_LOADENV, Find(t.locals, id)]); }
      else { IndexSafe(p, OP_RESOLVE, OP_RESOLVE_W, t, e, td, s); }
    case Set(name, v) => SetSafe(env, t, td, e, p, s);
    case Let(name, v) => LetSafe(env, t, td, e, p, s);
    case If(c, a, b) => IfSafe(env, t, td, e, p, s);
    case Do(es) => SeqSafe(env, t, td, es, p, s);
    case Fn => DynamicSafe(p, t, e, td, s);
    case Try(b, h) => TrySafe(env, t, td, e, p, s);
    case Return(r) => ReturnSafe(env, t, td, e, p, s);
    case Self(args) => SelfSafe(env, t, td, e, p, s);
    case Special => SpecialSafe(p, t, e, td, s);
    case Call(head, callee, args) => CallSafe(env, t, td, e, p, s);
  }

  /** Code that first pushes the value of v and goes on as `rest`, all under s's own traps. */
  lemma {:induction false} AfterValue(env: CompileEnv, t: Table, td: nat, v: Ray, p: Program, c: Span, s: Point,
                                      rest: seq<nat>)
    requires ValidEnv(env) && NoErrors(v) && Comp(env, t, td, v).Code?
    requires Lies(p, Code(Comp(env, t, td, v).bytes + rest, Comp(env, t, td, v).table), td, s)
    requires c.lo <= s.ip && s.ip + |Comp(env, t, td, v).bytes| <= c.hi && c.floor <= s.depth && c.outer == s.armed
    requires Safe(p, c, Pushing(s, |Comp(env, t, td, v).bytes|).exit)
    ensures Safe(p, c, s)
    decreases Size(v), 0, 3
  {
    var b := Comp(env, t, td, v).bytes;
    AtSplit(p.code, s.ip, b, rest);
    ExprSafe(env, t, td, v, p, s);
    SafeJoins(p, Pushing(s, |b|), c, s);
  }

  lemma {:induction false} SetSafe(env: CompileEnv, t: Table, td: nat, e: Ray, p: Program, s: Point)
    requires ValidEnv(env) && NoErrors(e) && Lies(p, Comp(env, t, td, e), td, s) && Classify(env, e).Set?
    ensures Safe(p, Pushing(s, |Comp(env, t, td, e).bytes|), s)
    decreases Size(e), 0, 0
  {
    hide Comp, Size, NoErrors;
    PartsNoErrors(env, e);
    CompIs(env, t, td, e);
    var Set(name, v) := Classify(env, e);
    var cv := Comp(env, t, td, v);
    var r := AddConst(cv.table, name);
    var b := WithIndex(OP_STOREGLOBAL, OP_STOREGLOBAL_W, r.1);
    var c := Pushing(s, |cv.bytes| + |b|);
    var s1 := Pushing(s, |cv.bytes|).exit;
    AtSplit(p.code, s.ip, cv.bytes, b);
    assert p.consts[r.1] == r.0.consts[r.1];
    assert Operand(b, 0) == r.1;
    PlainExit(p, c, s1, b);
    AfterValue(env, t, td, v, p, c, s, b);
  }

  lemma {:induction false} LetSafe(env: CompileEnv, t: Table, td: nat, e: Ray, p: Program, s: Point)
    requires ValidEnv(env) && NoErrors(e) && Lies(p, Comp(env, t, td, e), td, s) && Classify(env, e).Let?
    ensures Safe(p, Pushing(s, |Comp(env, t, td, e).bytes|), s)
    decreases Size(e), 0, 0
  {
    hide Comp, Size, NoErrors;
    PartsNoErrors(env, e);
    CompIs(env, t, td, e);
    var Let(name, v) := Classify(env, e);
    var cv := Comp(env, t, td, v);
    CompGrows(env, t, td, v);
    LetGrows(t, name, cv);
    var slot := if Find(cv.table.locals, name.id) >= 0 then Find(cv.table.locals, name.id) else |cv.table.locals|;
    var b := [OP_FORCE, OP_DUP, OP_STOREENV, slot];
    var c := Pushing(s, |cv.bytes| + 4);
    var s1 := Pushing(s, |cv.bytes|).exit;
    AtSplit(p.code, s.ip, cv.bytes, b);
    StoreSafe(p, c, s1, slot);
    AfterValue(env, t, td, v, p, c, s, b);
  }

  lemma StoreSafe(p: Program, c: Span, s: Point, slot: nat)
    requires 0 <= s.ip && At(p.code, s.ip, [OP_FORCE, OP_DUP, OP_STOREENV, slot]) && slot < p.nlocals
    requires Ready(c, s, 1) && s.ip + 4 <= c.hi && s.armed == c.outer && c.exit == s.(ip := s.ip + 4)
    ensures Safe(p, c, s)
  {
    assert [OP_FORCE, OP_DUP, OP_STOREENV, slot] == [OP_FORCE] + ([OP_DUP] + [OP_STOREENV, slot]);
    AtSplit(p.code, s.ip, [OP_FORCE], [OP_DUP] + [OP_STOREENV, slot]);
    AtSplit(p.code, s.ip + 1, [OP_DUP], [OP_STOREENV, slot]);
    PlainExit(p, c, Point(s.ip + 2, s.depth + 1, s.armed), [OP_STOREENV, slot]);
    PlainStep(p, c, s.(ip := s.ip + 1), [OP_DUP]);
    PlainStep(p, c, s, [OP_FORCE]);
  }

  lemma {:induction false} IfSafe(env: CompileEnv, t: Table, td: nat, e: Ray, p: Program, s: Point)
    requires ValidEnv(env) && NoErrors(e) && Lies(p, Comp(env, t, td, e), td, s) && Classify(env, e).If?
    ensures Safe(p, Pushing(s, |Comp(env, t, td, e).bytes|), s)
    decreases Size(e), 0, 0
  {
    hide Comp, Size, NoErrors;
    PartsNoErrors(env, e);
    CompIs(env, t, td, e);
    var If(x, a, b) := Classify(env, e);
    var cx := Comp(env, t, td, x);
    var ca := Comp(env, cx.table, td, a);
    var cb := if b.Some? then Comp(env, ca.table, td, b.value) else LoadConst(ca.table, I64(0));
    CompGrows(env, t, td, x);
    CompGrows(env, cx.table, td, a);
    if b.Some? { CompGrows(env, ca.table, td, b.value); }
    GrowsTrans(cx.table, ca.table, cb.table);
    HoldsEarlier(p, ca.table, cb.table);
    HoldsEarlier(p, cx.table, cb.table);
    var tail := Jump(OP_JMPF, |ca.bytes| + 3) + (ca.bytes + (Jump(OP_JMP, |cb.bytes|) + cb.bytes));
    var c := Pushing(s, |cx.bytes| + |tail|);
    var s1 := Pushing(s, |cx.bytes|).exit;
    AtSplit(p.code, s.ip, cx.bytes, tail);
    ArmsSafe(env, cx.table, td, a, b, p, c, s1);
    AfterValue(env, t, td, x, p, c, s, tail);
  }

  /** Two arms behind a conditional jump meet at one depth. */
  lemma IfFrame(p: Program, c: Span, s: Point, na: nat, nb: nat)
    requires 0 <= s.ip && na + 3 <= MAX_JUMP && nb <= MAX_JUMP && Innermost(s.armed) < s.depth
    requires At(p.code, s.ip, Jump(OP_JMPF, na + 3)) && At(p.code, s.ip + 3 + na, Jump(OP_JMP, nb))
    requires c.lo <= s.ip && c.hi == s.ip + na + nb + 6 && c.floor < s.depth && c.outer == s.armed
    requires c.exit == Point(c.hi, s.depth, s.armed)
    requires var sa := Point(s.ip + 3, s.depth - 1, s.armed); Safe(p, Pushing(sa, na), sa)
    requires var sb := Point(s.ip + 6 + na, s.depth - 1, s.armed); Safe(p, Pushing(sb, nb), sb)
    ensures Safe(p, c, s)
  {
    var sa := Point(s.ip + 3, s.depth - 1, s.armed);
    var sb := Point(s.ip + 6 + na, s.depth - 1, s.armed);
    SafeExit(p, c);
    JumpStep(p, c, Point(s.ip + 3 + na, s.depth, s.armed), nb);
    SafeJoins(p, Pushing(sa, na), c, sa);
    SafeJoins(p, Pushing(sb, nb), c, sb);
    BranchStep(p, c, s, na + 3);
  }

  lemma {:induction false} ArmsSafe(env: CompileEnv, t: Table, td: nat, a: Ray, b: Option<Ray>, p: Program, c: Span,
                                    s: Point)
    requires ValidEnv(env) && NoErrors(a) && (b.Some? ==> NoErrors(b.value)) && Comp(env, t, td, a).Code?
    requires var ca := Comp(env, t, td, a);
      var cb := if b.Some? then Comp(env, ca.table, td, b.value) else LoadConst(ca.table, I64(0));
      && cb.Code? && |ca.bytes| + 3 <= MAX_JUMP && |cb.bytes| <= MAX_JUMP && Holds(p, ca.table) && s.depth > 0
      && Lies(p, Code(Jump(OP_JMPF, |ca.bytes| + 3) + (ca.bytes + (Jump(OP_JMP, |cb.bytes|) + cb.bytes)), cb.table), td,
              s.(depth := s.depth - 1))
      && c.lo <= s.ip && c.hi == s.ip + |ca.bytes| + |cb.bytes| + 6 && c.floor < s.depth && c.outer == s.armed
      && c.exit == Point(c.hi, s.depth, s.armed)
    ensures Safe(p, c, s)
    decreases Size(a) + (if b.Some? then Size(b.value) else 0), 0, 4
  {
    hide Comp, CompForm, Size, NoErrors, LoadConst, AddConst;
    var ca := Comp(env, t, td, a);
    var cb := if b.Some? then Comp(env, ca.table, td, b.value) else LoadConst(ca.table, I64(0));
    var other := Jump(OP_JMP, |cb.bytes|) + cb.bytes;
    AtSplit(p.code, s.ip, Jump(OP_JMPF, |ca.bytes| + 3), ca.bytes + other);
    AtSplit(p.code, s.ip + 3, ca.bytes, other);
    AtSplit(p.code, s.ip + 3 + |ca.bytes|, Jump(OP_JMP, |cb.bytes|), cb.bytes);
    var sa := Point(s.ip + 3, s.depth - 1, s.armed);
    var sb := Point(s.ip + 6 + |ca.bytes|, s.depth - 1, s.armed);
    ExprSafe(env, t, td, a, p, sa);
    if b.Some? { ExprSafe(env, ca.table, td, b.value, p, sb); } else { ConstSafe(p, ca.table, I64(0), td, sb); }
    IfFrame(p, c, s, |ca.bytes|, |cb.bytes|);
  }

  lemma {:induction false} SeqSafe(env: CompileEnv, t: Table, td: nat, es: seq<Ray>, p: Program, s: Point)
    requires ValidEnv(env) && es != [] && (forall i :: 0 <= i < |es| ==> NoErrors(es[i]))
    requires Lies(p, CompSeq(env, t, td, es), td, s)
    ensures Safe(p, Pushing(s, |CompSeq(env, t, td, es).bytes|), s)
    decreases SizeAll(es), 1, |es|
  {
    hide Comp, Size, NoErrors;
    var c0 := Comp(env, t, td, es[0]);
    if |es| == 1 {
      ExprSafe(env, t, td, es[0], p, s);
    } else {
      var cs := CompSeq(env, c0.table, td, es[1..]);
      CompSeqGrows(env, c0.table, td, es[1..]);
      HoldsEarlier(p, c0.table, cs.table);
      AtSplit(p.code, s.ip, c0.bytes, [OP_POP] + cs.bytes);
      AtSplit(p.code, s.ip + |c0.bytes|, [OP_POP], cs.bytes);
      var c := Pushing(s, |c0.bytes| + 1 + |cs.bytes|);
      var s1 := Pushing(s, |c0.bytes|).exit;
      var s2 := s.(ip := s1.ip + 1);
      SeqSafe(env, c0.table, td, es[1..], p, s2);
      SafeJoins(p, Pushing(s2, |cs.bytes|), c, s2);
      PlainStep(p, c, s1, [OP_POP]);
      AfterValue(env, t, td, es[0], p, c, s, [OP_POP] + cs.bytes);
    }
  }

  /** The arguments of a call: one more operand each. */
  lemma {:induction false} ArgsSafe(env: CompileEnv, t: Table, td: nat, es: seq<Ray>, p: Program, c: Span, s: Point,
                                    rest: seq<nat>)
    requires ValidEnv(env) && (forall i :: 0 <= i < |es| ==> NoErrors(es[i])) && CompArgs(env, t, td, es).Code?
    requires var ca := CompArgs(env, t, td, es);
      && Lies(p, Code(ca.bytes + rest, ca.table), td, s)
      && c.lo <= s.ip && s.ip + |ca.bytes| <= c.hi && c.floor <= s.depth && c.outer == s.armed
      && Safe(p, c, Point(s.ip + |ca.bytes|, s.depth + |es|, s.armed))
    ensures Safe(p, c, s)
    decreases SizeAll(es), 1, |es|
  {
    if es != [] {
      var c0 := Comp(env, t, td, es[0]);
      var cs := CompArgs(env, c0.table, td, es[1..]);
      CompArgsGrows(env, c0.table, td, es[1..]);
      HoldsEarlier(p, c0.table, cs.table);
      assert (c0.bytes + cs.bytes) + rest == c0.bytes + (cs.bytes + rest);
      AtSplit(p.code, s.ip, c0.bytes, cs.bytes + rest);
      var s1 := Pushing(s, |c0.bytes|).exit;
      ShrinksMore(s.armed, s.depth, s1.depth);
      ArgsSafe(env, c0.table, td, es[1..], p, c, s1, rest);
      AfterValue(env, t, td, es[0], p, c, s, cs.bytes + rest);
    }
  }

  lemma DynamicSafe(p: Program, t: Table, e: Ray, td: nat, s: Point)
    requires Lies(p, CompDynamic(t, e), td, s)
    ensures Safe(p, Pushing(s, |CompDynamic(t, e).bytes|), s)
  {
    var load := LoadConst(t, e);
    var c := Pushing(s, |load.bytes| + 2);
    AtSplit(p.code, s.ip, load.bytes, [OP_CALLD, 0]);
    ConstSafe(p, t, e, td, s);
    PlainExit(p, c, Pushing(s, |load.bytes|).exit, [OP_CALLD, 0]);
    SafeJoins(p, Pushing(s, |load.bytes|), c, s);
  }

  lemma {:induction false} SelfSafe(env: CompileEnv, t: Table, td: nat, e: Ray, p: Program, s: Point)
    requires ValidEnv(env) && NoErrors(e) && Lies(p, Comp(env, t, td, e), td, s) && Classify(env, e).Self?
    ensures Safe(p, Pushing(s, |Comp(env, t, td, e).bytes|), s)
    decreases Size(e), 0, 0
  {
    hide Comp, Size, NoErrors;
    PartsNoErrors(env, e);
    CompIs(env, t, td, e);
    var Self(args) := Classify(env, e);
    var ca := CompArgs(env, t, td, args);
    var b := [OP_CALLS, |args|];
    var c := Pushing(s, |ca.bytes| + 2);
    AtSplit(p.code, s.ip, ca.bytes, b);
    PlainExit(p, c, Point(s.ip + |ca.bytes|, s.depth + |args|, s.armed), b);
    ArgsSafe(env, t, td, args, p, c, s, b);
  }

  lemma {:induction false} CallSafe(env: CompileEnv, t: Table, td: nat, e: Ray, p: Program, s: Point)
    requires ValidEnv(env) && NoErrors(e) && Lies(p, Comp(env, t, td, e), td, s) && Classify(env, e).Call?
    ensures Safe(p, Pushing(s, |Comp(env, t, td, e).bytes|), s)
    decreases Size(e), 0, 0
  {
    hide Comp, Size, NoErrors;
    PartsNoErrors(env, e);
    CompIs(env, t, td, e);
    var Call(head, callee, args) := Classify(env, e);
    var ch := if callee.Some? then LoadConst(t, callee.value) else Comp(env, t, td, head);
    var ca := CompArgs(env, ch.table, td, args);
    CompArgsGrows(env, ch.table, td, args);
    HoldsEarlier(p, ch.table, ca.table);
    AtSplit(p.code, s.ip, ch.bytes, ca.bytes + CallOp(callee, |args|));
    var c := Pushing(s, |ch.bytes| + |ca.bytes| + |CallOp(callee, |args|)|);
    var s1 := Pushing(s, |ch.bytes|).exit;
    ShrinksMore(s.armed, s.depth, s1.depth);
    OperandsSafe(env, ch.table, td, callee, args, p, c, s1);
    if callee.Some? { ConstSafe(p, t, callee.value, td, s); } else { ExprSafe(env, t, td, head, p, s); }
    SafeJoins(p, Pushing(s, |ch.bytes|), c, s);
  }

  /** The arguments and the call itself, with the function below them. */
  lemma {:induction false} OperandsSafe(env: CompileEnv, t: Table, td: nat, callee: Option<Ray>, args: seq<Ray>,
                                        p: Program, c: Span, s: Point)
    requires ValidEnv(env) && (forall i :: 0 <= i < |args| ==> NoErrors(args[i])) && CompArgs(env, t, td, args).Code?
    requires callee.Some? ==> callee.value.Builtin?
    requires var ca := CompArgs(env, t, td, args);
      && Lies(p, Code(ca.bytes + CallOp(callee, |args|), ca.table), td, s) && Innermost(s.armed) < s.depth
      && c.lo <= s.ip && c.hi == s.ip + |ca.bytes| + |CallOp(callee, |args|)| && c.floor < s.depth && c.outer == s.armed
      && c.exit == Point(c.hi, s.depth, s.armed)
    ensures Safe(p, c, s)
    decreases SizeAll(args), 2, |args|
  {
    var ca := CompArgs(env, t, td, args);
    var b := CallOp(callee, |args|);
    AtSplit(p.code, s.ip, ca.bytes, b);
    PlainExit(p, c, Point(s.ip + |ca.bytes|, s.depth + |args|, s.armed), b);
    ArgsSafe(env, t, td, args, p, c, s, b);
  }

  lemma {:induction false} ReturnSafe(env: CompileEnv, t: Table, td: nat, e: Ray, p: Program, s: Point)
    requires ValidEnv(env) && NoErrors(e) && Lies(p, Comp(env, t, td, e), td, s) && Classify(env, e).Return?
    ensures Safe(p, Pushing(s, |Comp(env, t, td, e).bytes|), s)
    decreases Size(e), 0, 0
  {
    hide Comp, Size, NoErrors;
    PartsNoErrors(env, e);
    CompIs(env, t, td, e);
    var Return(r) := Classify(env, e);
    var cr := if r.Some? then Comp(env, t, td, r.value) else LoadConst(t, Null);
    var b := Repeat(OP_TRAP_END, td) + [OP_RET];
    AtSplit(p.code, s.ip, cr.bytes, b);
    var c := Pushing(s, |cr.bytes| + |b|);
    var s1 := Pushing(s, |cr.bytes|).exit;
    ShrinksMore(s.armed, s.depth, s1.depth);
    LeaveSafe(p, c, s1);
    if r.Some? { ExprSafe(env, t, td, r.value, p, s); } else { ConstSafe(p, t, Null, td, s); }
    SafeJoins(p, Pushing(s, |cr.bytes|), c, s);
  }

  lemma SpecialSafe(p: Program, t: Table, e: Ray, td: nat, s: Point)
    requires Lies(p, CompSpecial(t, e), td, s)
    ensures Safe(p, Pushing(s, |CompSpecial(t, e).bytes|), s)
  {
    if !RefsLocals(Names(t.locals), e) {
      DynamicSafe(p, t, e, td, s);
    } else {
      ScopedSafe(p, t, e, td, s);
    }
  }

  lemma ScopedSafe(p: Program, t: Table, e: Ray, td: nat, s: Point)
    requires RefsLocals(Names(t.locals), e) && Lies(p, CompSpecial(t, e), td, s)
    ensures Safe(p, Pushing(s, |CompSpecial(t, e).bytes|), s)
  {
    var x := I64Vec(t.locals);
    var cn := LoadConst(t, x);
    var n := cn.bytes;
    var cd := CompDynamic(cn.table, e);
    var tail := cd.bytes + (n + [OP_SCOPE_END]);
    var c := Pushing(s, |n| + 1 + |tail|);
    AtSplit(p.code, s.ip, n, [OP_SCOPE_BEGIN] + tail);
    AtSplit(p.code, s.ip + |n|, [OP_SCOPE_BEGIN], tail);
    var s1 := Pushing(s, |n|).exit;
    HoldsEarlier(p, cn.table, cd.table);
    ScopeEndSafe(p, t, e, td, c, s.(ip := s1.ip + 1));
    PlainStep(p, c, s1, [OP_SCOPE_BEGIN]);
    ConstSafe(p, t, x, td, s);
    SafeJoins(p, Pushing(s, |n|), c, s);
  }

  lemma ScopeEndSafe(p: Program, t: Table, e: Ray, td: nat, c: Span, s: Point)
    requires var cn := LoadConst(t, I64Vec(t.locals));
      var cd := CompDynamic(cn.table, e);
      && Holds(p, cn.table) && Lies(p, Code(cd.bytes + (cn.bytes + [OP_SCOPE_END]), cd.table), td, s)
      && c.lo <= s.ip && c.hi == s.ip + |cd.bytes| + |cn.bytes| + 1 && c.floor <= s.depth && c.outer == s.armed
      && c.exit == Point(c.hi, s.depth + 1, s.armed)
    ensures Safe(p, c, s)
  {
    var x := I64Vec(t.locals);
    var cn := LoadConst(t, x);
    var n := cn.bytes;
    var cd := CompDynamic(cn.table, e);
    AtSplit(p.code, s.ip, cd.bytes, n + [OP_SCOPE_END]);
    AtSplit(p.code, s.ip + |cd.bytes|, n, [OP_SCOPE_END]);
    var s1 := Pushing(s, |cd.bytes|).exit;
    ShrinksMore(s.armed, s.depth, s1.depth);
    PlainExit(p, c, Pushing(s1, |n|).exit, [OP_SCOPE_END]);
    ConstSafe(p, t, x, td, s1);
    SafeJoins(p, Pushing(s1, |n|), c, s1);
    DynamicSafe(p, cn.table, e, td, s);
    SafeJoins(p, Pushing(s, |cd.bytes|), c, s);
  }

  lemma {:induction false} TrySafe(env: CompileEnv, t: Table, td: nat, e: Ray, p: Program, s: Point)
    requires ValidEnv(env) && NoErrors(e) && Lies(p, Comp(env, t, td, e), td, s) && Classify(env, e).Try?
    ensures Safe(p, Pushing(s, |Comp(env, t, td, e).bytes|), s)
    decreases Size(e), 0, 1
  {
    hide Comp, Size, NoErrors;
    PartsNoErrors(env, e);
    CompIs(env, t, td, e);
    var Try(b, h) := Classify(env, e);
    var t0 := t.(locals := t.locals + [HIDDEN]);
    var cb := Comp(env, t0, td + 1, b);
    CompGrows(env, t0, td + 1, b);
    CompGrows(env, cb.table, td, h);
    GuardSafe(env, t0, td, Size(e), b, h, |t.locals|, p, s);
  }

  lemma {:induction false} GuardSafe(env: CompileEnv, t: Table, td: nat, n: nat, b: Ray, h: Ray, slot: nat, p: Program,
                                     s: Point)
    requires ValidEnv(env) && Size(b) < n && Size(h) < n && NoErrors(b) && NoErrors(h) && slot < p.nlocals
    requires Comp(env, t, td + 1, b).Code?
    requires var cb := Comp(env, t, td + 1, b);
      && Holds(p, cb.table) && Lies(p, CompTry(slot, cb.bytes, Comp(env, cb.table, td, h)), td, s)
    ensures var cb := Comp(env, t, td + 1, b);
      Safe(p, Pushing(s, |CompTry(slot, cb.bytes, Comp(env, cb.table, td, h)).bytes|), s)
    decreases n, 0, 0
  {
    hide Comp, Size, NoErrors, Runs, Then;
    var cb := Comp(env, t, td + 1, b);
    var ch := Comp(env, cb.table, td, h);
    var c := Pushing(s, |cb.bytes| + |ch.bytes| + 12);
    TryLayout(p.code, s.ip, slot, cb.bytes, ch.bytes);
    var at := s.ip + 7 + |cb.bytes|;
    HandlerSafe(env, cb.table, td, h, slot, p, c, Point(at, s.depth + 1, s.armed));
    var s1 := Point(s.ip + 3, s.depth, s.armed + [Handler(s.depth, at)]);
    assert s1.armed[..|s.armed|] == s.armed;
    ExprSafe(env, t, td + 1, b, p, s1);
    TryFrame(p, c, s, |cb.bytes|, |ch.bytes|);
  }

  lemma TryLayout(code: seq<nat>, ip: nat, slot: nat, bb: seq<nat>, bh: seq<nat>)
    requires At(code, ip, Jump(OP_TRAP, |bb| + 4)
                          + (bb + ([OP_TRAP_END] + (Jump(OP_JMP, |bh| + 5)
                          + ([OP_STOREENV, slot] + (bh + [OP_LOADENV, slot, OP_TRYH]))))))
    ensures At(code, ip, Jump(OP_TRAP, |bb| + 4)) && At(code, ip + 3, bb) && At(code, ip + 3 + |bb|, [OP_TRAP_END])
    ensures At(code, ip + 4 + |bb|, Jump(OP_JMP, |bh| + 5))
    ensures At(code, ip + 7 + |bb|, [OP_STOREENV, slot] + (bh + [OP_LOADENV, slot, OP_TRYH]))
  {
    var handler := [OP_STOREENV, slot] + (bh + [OP_LOADENV, slot, OP_TRYH]);
    var rest := [OP_TRAP_END] + (Jump(OP_JMP, |bh| + 5) + handler);
    AtSplit(code, ip, Jump(OP_TRAP, |bb| + 4), bb + rest);
    AtSplit(code, ip + 3, bb, rest);
    AtSplit(code, ip + 3 + |bb|, [OP_TRAP_END], Jump(OP_JMP, |bh| + 5) + handler);
    AtSplit(code, ip + 4 + |bb|, Jump(OP_JMP, |bh| + 5), handler);
  }

  /** A guarded body: it ends with its trap closed and the handler skipped, or fails into the handler. */
  lemma TryFrame(p: Program, c: Span, s: Point, nb: nat, nh: nat)
    requires 0 <= s.ip && nb + 4 <= MAX_JUMP && nh + 5 <= MAX_JUMP && Shrinks(s.armed, s.depth)
    requires At(p.code, s.ip, Jump(OP_TRAP, nb + 4)) && At(p.code, s.ip + 3 + nb, [OP_TRAP_END])
    requires At(p.code, s.ip + 4 + nb, Jump(OP_JMP, nh + 5))
    requires c == Pushing(s, nb + nh + 12)
    requires Safe(p, c, Point(s.ip + 7 + nb, s.depth + 1, s.armed))
    requires var s1 := Point(s.ip + 3, s.depth, s.armed + [Handler(s.depth, s.ip + 7 + nb)]); Safe(p, Pushing(s1, nb),
        s1)
    ensures Safe(p, c, s)
  {
    var s1 := Point(s.ip + 3, s.depth, s.armed + [Handler(s.depth, s.ip + 7 + nb)]);
    assert s1.armed[..|s1.armed| - 1] == s.armed;
    SafeExit(p, c);
    JumpStep(p, c, Point(s.ip + 4 + nb, s.depth + 1, s.armed), nh + 5);
    TrapEndStep(p, c, Point(s.ip + 3 + nb, s.depth + 1, s1.armed));
    SafeJoins(p, Pushing(s1, nb), c, s1);
    TrapStep(p, c, s, nb + 4);
  }

  /** The handler: entered with the error pushed, which its slot keeps meanwhile. */
  lemma {:induction false} HandlerSafe(env: CompileEnv, t: Table, td: nat, h: Ray, slot: nat, p: Program, c: Span,
                                       s: Point)
    requires ValidEnv(env) && NoErrors(h) && Comp(env, t, td, h).Code? && slot < p.nlocals && s.depth > 0
    requires var ch := Comp(env, t, td, h);
      && Lies(p, Code([OP_STOREENV, slot] + (ch.bytes + [OP_LOADENV, slot, OP_TRYH]), ch.table), td,
              s.(depth := s.depth - 1))
      && c.lo <= s.ip && c.hi == s.ip + |ch.bytes| + 5 && c.floor < s.depth && c.outer == s.armed
      && c.exit == Point(c.hi, s.depth, s.armed)
    ensures Safe(p, c, s)
    decreases Size(h), 0, 4
  {
    hide Comp, Size, NoErrors;
    var ch := Comp(env, t, td, h);
    var b := [OP_LOADENV, slot, OP_TRYH];
    AtSplit(p.code, s.ip, [OP_STOREENV, slot], ch.bytes + b);
    AtSplit(p.code, s.ip + 2, ch.bytes, b);
    assert b == [OP_LOADENV, slot] + [OP_TRYH];
    AtSplit(p.code, s.ip + 2 + |ch.bytes|, [OP_LOADENV, slot], [OP_TRYH]);
    var s1 := Point(s.ip + 2, s.depth - 1, s.armed);
    var s2 := Pushing(s1, |ch.bytes|).exit;
    PlainExit(p, c, Point(s2.ip + 2, s2.depth + 1, s.armed), [OP_TRYH]);
    PlainStep(p, c, s2, [OP_LOADENV, slot]);
    AfterValue(env, t, td, h, p, c, s1, b);
    PlainStep(p, c, s, [OP_STOREENV, slot]);
  }

  // ---------- whole programs ----------

  /** For k instructions from s, whatever they do, the path stays inside the code and above the
      frame's slots and the innermost trap, or returns with every trap closed, or fails with
      no trap armed. */
  ghost predicate Keeps(p: Program, k: nat, s: Point)
    decreases k
  {
    k == 0 || (
      && Runs(p, 0, s)
      && (Then(p, s).Some? ==> Keeps(p, k - 1, Then(p, s).value))
      && (Else(p, s).Some? ==> Keeps(p, k - 1, Else(p, s).value))
      && (s.armed != [] ==> Keeps(p, k - 1, ToHandler(s))))
  }

  /** On paths of any length from the program's entry. */
  ghost predicate Disciplined(p: Program) {
    forall k: nat :: Keeps(p, k, Point(0, 0, []))
  }

  /** The whole code as a span that is left at `exit`. */
  function WholeCode(p: Program, exit: Point): Span { Span(0, |p.code|, 0, [], exit) }

  /** A path that is safe whichever of two points outside the code is the exit has no exit. */
  lemma {:induction false} NoExit(p: Program, k: nat, s: Point, x: Point, y: Point)
    requires x.ip < 0 && y.ip < 0 && x != y && Stays(p, k, WholeCode(p, x), s) && Stays(p, k, WholeCode(p, y), s)
    ensures Keeps(p, k, s)
    decreases k
  {
    if k > 0 {
      assert Here(p, WholeCode(p, x), s) && Here(p, WholeCode(p, y), s);
      if Then(p, s).Some? { NoExit(p, k - 1, Then(p, s).value, x, y); }
      if Else(p, s).Some? { NoExit(p, k - 1, Else(p, s).value, x, y); }
      if s.armed != [] {
        assert Guarded(WholeCode(p, x), s) && Guarded(WholeCode(p, y), s);
        NoExit(p, k - 1, ToHandler(s), x, y);
      }
    }
  }

  lemma CodeSafe(env: CompileEnv, params: seq<nat>, body: seq<Ray>, exit: Point)
    requires ValidEnv(env) && body != [] && (forall i :: 0 <= i < |body| ==> NoErrors(body[i]))
    requires CompileLambda(env, params, body).Some? && |CompileLambda(env, params, body).value.consts| <= 0x1_0000
    ensures var p := CompileLambda(env, params, body).value; Safe(p, WholeCode(p, exit), Point(0, 0, []))
  {
    hide Comp, CompSeq, NoErrors;
    var p := CompileLambda(env, params, body).value;
    var cs := CompSeq(env, Table([], params), 0, body);
    var s := Point(0, 0, []);
    var c := WholeCode(p, exit);
    assert At(p.code, 0, cs.bytes + [OP_RET]);
    AtSplit(p.code, 0, cs.bytes, [OP_RET]);
    SeqSafe(env, Table([], params), 0, body, p, s);
    AtByte(p.code, |cs.bytes|, [OP_RET], 0);
    SafeStep(p, c, Point(|cs.bytes|, 1, []));
    SafeJoins(p, Pushing(s, |cs.bytes|), c, s);
  }

  /** On every path through a compiled lambda, of any length: no instruction reaches
      below the frame's operands, every slot and constant it names exists, a failure
      finds its handler's operands intact, and RET comes with one value at hand and
      exactly the traps closed that were opened. */
  lemma CompiledCodeIsDisciplined(env: CompileEnv, params: seq<nat>, body: seq<Ray>)
    requires ValidEnv(env) && body != [] && (forall i :: 0 <= i < |body| ==> NoErrors(body[i]))
    requires CompileLambda(env, params, body).Some? && |CompileLambda(env, params, body).value.consts| <= 0x1_0000
    ensures Disciplined(CompileLambda(env, params, body).value)
  {
    hide CompileLambda, NoErrors;
    var p, s := CompileLambda(env, params, body).value, Point(0, 0, []);
    var x, y := Point(-1, 0, []), Point(-2, 0, []);
    CodeSafe(env, params, body, x);
    CodeSafe(env, params, body, y);
    forall k: nat ensures Keeps(p, k, s) {
      assert Stays(p, k, WholeCode(p, x), s) && Stays(p, k, WholeCode(p, y), s);
      NoExit(p, k, s, x, y);
    }
  }

  // ---------- spare operands ----------

  function RaisedTraps(armed: seq<Handler>, d: nat): (r: seq<Handler>)
    ensures |r| == |armed| && forall i :: 0 <= i < |armed| ==> r[i] == Handler(armed[i].depth + d, armed[i].ip)
  {
    seq(|armed|, i requires 0 <= i < |armed| => Handler(armed[i].depth + d, armed[i].ip))
  }

  /** The same point with d more operands below its own. */
  function Raise(s: Point, d: nat): Point { Point(s.ip, s.depth + d, RaisedTraps(s.armed, d)) }

  /** More operands below its own do not disturb a path. */
  lemma {:induction false} KeepsRaised(p: Program, k: nat, s: Point, d: nat)
    requires Keeps(p, k, s)
    ensures Keeps(p, k, Raise(s, d))
    decreases k
  {
    if k > 0 {
      var r := Raise(s, d);
      RaisedStep(p, s, d);
      if Then(p, s).Some? { KeepsRaised(p, k - 1, Then(p, s).value, d); }
      if Else(p, s).Some? { KeepsRaised(p, k - 1, Else(p, s).value, d); }
      if s.armed != [] { KeepsRaised(p, k - 1, ToHandler(s), d); }
    }
  }

  lemma RaisedStep(p: Program, s: Point, d: nat)
    requires Runs(p, 0, s)
    ensures var r := Raise(s, d);
      && Runs(p, 0, r)
      && (Then(p, r) == if Then(p, s).Some? then Some(Raise(Then(p, s).value, d)) else None)
      && (Else(p, r) == if Else(p, s).Some? then Some(Raise(Else(p, s).value, d)) else None)
      && (s.armed != [] ==> ToHandler(r) == Raise(ToHandler(s), d))
  {
    var r := Raise(s, d);
    if s.armed != [] { assert r.armed[..|r.armed| - 1] == RaisedTraps(s.armed[..|s.armed| - 1], d); }
    if Then(p, s).Some? { assert Then(p, r).value.armed == RaisedTraps(Then(p, s).value.armed, d); }
    if Else(p, s).Some? { assert Else(p, r).value.armed == RaisedTraps(Else(p, s).value.armed, d); }
  }
}
