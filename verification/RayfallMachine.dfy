/** The bytecode machine: one execution of a compiled lambda. */
module RayfallMachine {
  import opened Wrappers
  import opened RayfallSyntax
  import opened RayfallCompile

  // ---------- what lies outside the bytecode ----------

  /** Global bindings, and the value of a `raise` that is on its way to a handler. */
  datatype World = World(globals: map<nat, Ray>, raised: Option<Ray>)

  datatype Reply = Returned(value: Ray, w: World) | Refused(error: Ray, w: World)
  datatype Lookup = Undefined | Faulty(error: Ray) | Bound(value: Ray)
  datatype Binding = Stored(globals: map<nat, Ray>) | Denied(error: Ray)

  /** Built-in functions, name resolution, global stores and the tree walker:
      arbitrary functions of the world they are called in.  `prim` stands for a built-in
      under whichever call instruction: in the source CALL1 and CALL2, used where the
      compiler knows the built-in, also map an atomic one over vectors, and CALLF, used
      where the function is a value, does not. */
  datatype Host = Host(
    prim: (Ray, seq<Ray>, World) -> Reply,
    walk: (Ray, World) -> Reply,
    resolve: (map<nat, Ray>, nat) -> Lookup,
    bind: (map<nat, Ray>, nat, Ray) -> Binding,
    truthy: Ray -> bool)

  /** Compile-time facts still hold: every built-in is bound where the compiler saw it. */
  ghost predicate Pinned(h: Host, env: CompileEnv, w: World) {
    forall s :: s in env.fns ==> h.resolve(w.globals, s) == Bound(env.fns[s])
  }

  // ---------- errors ----------

  /** An error object, or an error the machine detects without building one. */
  datatype Fault = Thrown(error: Ray) | Bare(code: nat)

  /** What a caller outside the machine receives. */
  function Report(f: Fault): Ray {
    match f case Thrown(e) => e case Bare(c) => Error(c)
  }

  /** What a handler receives: the raised value, else the error object, else 0. */
  function Caught(f: Fault, w: World): Ray {
    if w.raised.Some? then w.raised.value else if f.Thrown? then f.error else I64(0)
  }

  // ---------- machine state ----------

  datatype Cell = Empty | Full(v: Ray)
  datatype Saved = Saved(fn: Option<Program>, fp: nat, ip: int)     // None: a self call
  datatype Trap = Trap(rp: nat, sp: nat, ip: int, fn: Program, fp: nat)
  datatype Vm = Vm(fn: Program, ip: int, ps: seq<Cell>, fp: nat, rs: seq<Saved>, ts: seq<Trap>, w: World)

  datatype Outcome = Timeout | Stuck | Value(v: Ray, w: World) | Raised(error: Ray, w: World)
  datatype Conf = Running(vm: Vm) | Halted(out: Outcome)

  function Cells(vs: seq<Ray>): (cs: seq<Cell>)
    ensures |cs| == |vs| && forall i | 0 <= i < |vs| :: cs[i] == Full(vs[i])
  {
    seq(|vs|, i requires 0 <= i < |vs| => Full(vs[i]))
  }

  function Blank(n: nat): (cs: seq<Cell>)
    ensures |cs| == n && forall i | 0 <= i < n :: cs[i] == Empty
  {
    seq(n, i => Empty)
  }

  function Min(a: nat, b: nat): nat { if a <= b then a else b }

  function Push(m: Vm, v: Ray): Vm { m.(ps := m.ps + [Full(v)]) }

  /** Error exit: resume the innermost trap's handler, or leave the machine. */
  function Unwind(m: Vm, f: Fault): Conf {
    if m.ts == [] then Halted(Raised(Report(f), m.w))
    else
      var t := m.ts[|m.ts| - 1];
      Running(Vm(t.fn, t.ip, m.ps[..Min(t.sp, |m.ps|)] + [Full(Caught(f, m.w))], t.fp,
                 m.rs[..Min(t.rp, |m.rs|)], m.ts[..|m.ts| - 1], m.w.(raised := None)))
  }

  function Settle(m: Vm, r: Reply): Conf {
    match r
    case Returned(v, w) => Running(Push(m.(w := w), v))
    case Refused(e, w) => Unwind(m.(w := w), Thrown(e))
  }

  function Top(m: Vm, k: nat): Option<Ray> {
    if k < |m.ps| && m.ps[|m.ps| - 1 - k].Full? then Some(m.ps[|m.ps| - 1 - k].v) else None
  }

  function Drop(m: Vm, k: nat): Vm
    requires k <= |m.ps|
  {
    m.(ps := m.ps[..|m.ps| - k])
  }

  /** The top n operands, oldest first. */
  function Args(m: Vm, n: nat): Option<seq<Ray>> {
    if n > |m.ps| || exists i | |m.ps| - n <= i < |m.ps| :: m.ps[i].Empty? then None
    else Some(seq(n, i requires 0 <= i < n => var c := m.ps[|m.ps| - n + i]; if c.Full? then c.v else Null))
  }

  function DoLoadConst(m: Vm, wide: bool): Conf {
    var i := ReadIndex(m.fn.code, m.ip, wide);
    if 0 <= i < |m.fn.consts| then Running(Push(m.(ip := m.ip + if wide then 2 else 1), m.fn.consts[i]))
    else Halted(Stuck)
  }

  function DoLoadEnv(m: Vm): Conf {
    var s := ReadIndex(m.fn.code, m.ip, false);
    if s < 0 || m.fp + s >= |m.ps| then Halted(Stuck)
    else Running(Push(m.(ip := m.ip + 1), if m.ps[m.fp + s].Full? then m.ps[m.fp + s].v else I64(0)))
  }

  function DoStoreEnv(m: Vm): Conf {
    var s := ReadIndex(m.fn.code, m.ip, false);
    if s < 0 || Top(m, 0).None? || m.fp + s >= |m.ps| - 1 then Halted(Stuck)
    else Running(m.(ip := m.ip + 1, ps := m.ps[..|m.ps| - 1][m.fp + s := m.ps[|m.ps| - 1]]))
  }

  function DoPop(m: Vm): Conf {
    if |m.ps| > m.fp + m.fn.nlocals then Running(Drop(m, 1)) else Running(m)
  }

  function DoResolve(h: Host, m: Vm, wide: bool): Conf {
    var i := ReadIndex(m.fn.code, m.ip, wide);
    if !(0 <= i < |m.fn.consts|) || !m.fn.consts[i].Symbol? then Halted(Stuck)
    else
      var m1 := m.(ip := m.ip + if wide then 2 else 1);
      match h.resolve(m.w.globals, m.fn.consts[i].id)
      case Undefined => Unwind(m1, Bare(ERR_NAME))
      case Faulty(e) => Unwind(m1, Thrown(e))
      case Bound(v) => Running(Push(m1, v))
  }

  function DoStoreGlobal(h: Host, m: Vm, wide: bool): Conf {
    var i := ReadIndex(m.fn.code, m.ip, wide);
    if !(0 <= i < |m.fn.consts|) || !m.fn.consts[i].Symbol? || Top(m, 0).None? then Halted(Stuck)
    else
      var m1 := m.(ip := m.ip + if wide then 2 else 1);
      match h.bind(m.w.globals, m.fn.consts[i].id, Top(m, 0).value)
      case Stored(g) => Running(m1.(w := m.w.(globals := g)))
      case Denied(e) => Unwind(Drop(m1, 1), Thrown(e))
  }

  function DoJump(m: Vm): Conf {
    if m.ip < 0 || m.ip + 1 >= |m.fn.code| then Halted(Stuck)
    else Running(m.(ip := m.ip + 2 + ReadOffset(m.fn.code, m.ip)))
  }

  function DoJumpFalse(h: Host, m: Vm): Conf {
    if m.ip < 0 || m.ip + 1 >= |m.fn.code| || Top(m, 0).None? then Halted(Stuck)
    else if h.truthy(Top(m, 0).value) then Running(Drop(m, 1).(ip := m.ip + 2))
    else Running(Drop(m, 1).(ip := m.ip + 2 + ReadOffset(m.fn.code, m.ip)))
  }

  /** Frame of a lambda entered with these arguments. */
  function Enter(p: Program, args: seq<Ray>): (cs: seq<Cell>)
    ensures |args| <= p.nlocals ==> |cs| == p.nlocals
  {
    Cells(args) + Blank(if |args| <= p.nlocals then p.nlocals - |args| else 0)
  }

  /** A call whose function and n arguments are on the stack. */
  function DoCall(h: Host, env: CompileEnv, m: Vm, n: int): Conf
    requires ValidEnv(env)
  {
    if n < 0 || Args(m, n).None? || Top(m, n).None? then Halted(Stuck)
    else
      var args := Args(m, n).value;
      var f := Top(m, n).value;
      var m1 := Drop(m, n + 1);
      if f.Lambda? && CompileLambda(env, f.params, f.body).Some? then
        var p := CompileLambda(env, f.params, f.body).value;
        if n != |f.params| then Unwind(m1, Thrown(Error(ERR_ARITY)))
        else Running(Vm(p, 0, m1.ps + Enter(p, args), |m1.ps|, m.rs + [Saved(Some(m.fn), m.fp, m.ip)], m.ts, m.w))
      else Settle(m1, h.prim(f, args, m.w))
  }

  /** A self call: the operands become the new frame's first slots. */
  function DoCallSelf(m: Vm, n: int): Conf {
    if n < 0 || n > |m.ps| then Halted(Stuck)
    else Running(Vm(m.fn, 0, m.ps + Blank(if n <= m.fn.nlocals then m.fn.nlocals - n else 0), |m.ps| - n,
                    m.rs + [Saved(None, m.fp, m.ip)], m.ts, m.w))
  }

  /** Dynamic evaluation of the expression on top of the stack. */
  function DoWalk(h: Host, m: Vm, n: int): Conf {
    if n != 0 || Top(m, 0).None? then Halted(Stuck)
    else Settle(Drop(m, 1), h.walk(Top(m, 0).value, m.w))
  }

  function DoReturn(m: Vm): Conf {
    if m.fp > |m.ps| then Halted(Stuck)
    else
      var r := if |m.ps| > m.fp + m.fn.nlocals && Top(m, 0).Some? then Top(m, 0).value else Null;
      if m.rs == [] then Halted(Value(r, m.w))
      else
        var s := m.rs[|m.rs| - 1];
        Running(Vm(if s.fn.Some? then s.fn.value else m.fn, s.ip, m.ps[..m.fp] + [Full(r)], s.fp,
                   m.rs[..|m.rs| - 1], m.ts, m.w))
  }

  function DoTrap(m: Vm): Conf {
    if m.ip < 0 || m.ip + 1 >= |m.fn.code| then Halted(Stuck)
    else Running(m.(ip := m.ip + 2,
                    ts := m.ts + [Trap(|m.rs|, |m.ps|, m.ip + 2 + ReadOffset(m.fn.code, m.ip), m.fn, m.fp)]))
  }

  function DoTrapEnd(m: Vm): Conf {
    Running(if m.ts == [] then m else m.(ts := m.ts[..|m.ts| - 1]))
  }

  /** Every instruction but TRYH; the opcode is already consumed. */
  function Exec(h: Host, env: CompileEnv, op: nat, m: Vm): Conf
    requires ValidEnv(env)
  {
    if op == OP_RET then DoReturn(m)
    else if op == OP_JMP then DoJump(m)
    else if op == OP_JMPF then DoJumpFalse(h, m)
    else if op == OP_LOADCONST then DoLoadConst(m, false)
    else if op == OP_LOADCONST_W then DoLoadConst(m, true)
    else if op == OP_LOADENV then DoLoadEnv(m)
    else if op == OP_STOREENV then DoStoreEnv(m)
    else if op == OP_POP then DoPop(m)
    else if op == OP_DUP then (if Top(m, 0).Some? then Running(Push(m, Top(m, 0).value)) else Halted(Stuck))
    else if op == OP_RESOLVE then DoResolve(h, m, false)
    else if op == OP_RESOLVE_W then DoResolve(h, m, true)
    else if op == OP_STOREGLOBAL then DoStoreGlobal(h, m, false)
    else if op == OP_STOREGLOBAL_W then DoStoreGlobal(h, m, true)
    else if op == OP_CALL1 then DoCall(h, env, m, 1)
    else if op == OP_CALL2 then DoCall(h, env, m, 2)
    else if op == OP_CALLN || op == OP_CALLF then DoCall(h, env, m.(ip := m.ip + 1), ReadIndex(m.fn.code, m.ip, false))
    else if op == OP_CALLS then DoCallSelf(m.(ip := m.ip + 1), ReadIndex(m.fn.code, m.ip, false))
    else if op == OP_CALLD then DoWalk(h, m.(ip := m.ip + 1), ReadIndex(m.fn.code, m.ip, false))
    else if op == OP_TRAP then DoTrap(m)
    else if op == OP_TRAP_END then DoTrapEnd(m)
    else if op == OP_FORCE then Running(m)
    else Halted(Stuck)
  }

  /** One instruction.  The fuel bounds the nested execution of a try handler. */
  function Step(h: Host, env: CompileEnv, fuel: nat, m: Vm): Conf
    requires ValidEnv(env)
    decreases fuel, 2
  {
    if !(0 <= m.ip < |m.fn.code|) then Halted(Stuck)
    else
      var op := m.fn.code[m.ip];
      var m1 := m.(ip := m.ip + 1);
      if op != OP_TRYH then Exec(h, env, op, m1)
      else if Top(m1, 0).None? || Top(m1, 1).None? then Halted(Stuck)
      else
        var handler := Top(m1, 1).value;
        var m2 := Drop(m1, 2);
        if handler.Lambda? || (handler.Builtin? && handler.arity.Unary?) then
          match CallFresh(h, env, fuel, handler, [Top(m1, 0).value], m.w)
          case Value(v, w) => Running(Push(m2.(w := w), v))
          case Raised(e, w) => Unwind(m2.(w := w), Thrown(e))
          case other => Halted(other)
        else Running(Push(m2, handler))
  }

  /** A call from outside the bytecode: a lambda gets a machine of its own. */
  function CallFresh(h: Host, env: CompileEnv, fuel: nat, f: Ray, args: seq<Ray>, w: World): Outcome
    requires ValidEnv(env)
    decreases fuel, 1
  {
    if f.Lambda? && CompileLambda(env, f.params, f.body).Some? then
      if |args| != |f.params| then Raised(Error(ERR_ARITY), w)
      else Run(h, env, fuel, Start(CompileLambda(env, f.params, f.body).value, args, w))
    else
      match h.prim(f, args, w)
      case Returned(v, w1) => Value(v, w1)
      case Refused(e, w1) => Raised(e, w1)
  }

  function Start(p: Program, args: seq<Ray>, w: World): Conf {
    Running(Vm(p, 0, Enter(p, args), 0, [], [], w))
  }

  function Run(h: Host, env: CompileEnv, fuel: nat, c: Conf): Outcome
    requires ValidEnv(env)
    decreases fuel, 0
  {
    match c
    case Halted(o) => o
    case Running(m) => if fuel == 0 then Timeout else Run(h, env, fuel - 1, Step(h, env, fuel - 1, m))
  }

  // ---------- reasoning about runs ----------

  lemma {:induction false} RunMonotone(h: Host, env: CompileEnv, k: nat, j: nat, c: Conf)
    requires ValidEnv(env) && k <= j && Run(h, env, k, c) != Timeout
    ensures Run(h, env, j, c) == Run(h, env, k, c)
    decreases k, 0
  {
    if c.Running? {
      var m := c.vm;
      StepMonotone(h, env, k - 1, j - 1, m);
      RunMonotone(h, env, k - 1, j - 1, Step(h, env, k - 1, m));
    }
  }

  lemma {:induction false} StepMonotone(h: Host, env: CompileEnv, k: nat, j: nat, m: Vm)
    requires ValidEnv(env) && k <= j && Step(h, env, k, m) != Halted(Timeout)
    ensures Step(h, env, j, m) == Step(h, env, k, m)
    decreases k, 1
  {
    if 0 <= m.ip < |m.fn.code| && m.fn.code[m.ip] == OP_TRYH {
      var m1 := m.(ip := m.ip + 1);
      if Top(m1, 0).Some? && Top(m1, 1).Some? {
        var f := Top(m1, 1).value;
        if f.Lambda? && CompileLambda(env, f.params, f.body).Some? && |f.params| == 1 {
          RunMonotone(h, env, k, j, Start(CompileLambda(env, f.params, f.body).value, [Top(m1, 0).value], m.w));
        }
      }
    }
  }

  ghost predicate Ends(h: Host, env: CompileEnv, c: Conf, r: Outcome)
    requires ValidEnv(env)
  {
    r != Timeout && exists k: nat :: Run(h, env, k, c) == r
  }

  /** c continues as d: both end alike, and d needs no more fuel than c. */
  ghost predicate Leads(h: Host, env: CompileEnv, c: Conf, d: Conf)
    requires ValidEnv(env)
  {
    && (forall r :: Ends(h, env, d, r) ==> Ends(h, env, c, r))
    && (forall k: nat :: Run(h, env, k, c) != Timeout ==> Run(h, env, k, d) == Run(h, env, k, c))
  }

  lemma LeadsTrans(h: Host, env: CompileEnv, c: Conf, d: Conf, e: Conf)
    requires ValidEnv(env) && Leads(h, env, c, d) && Leads(h, env, d, e)
    ensures Leads(h, env, c, e)
  {
  }

  lemma LeadsTimeout(h: Host, env: CompileEnv, c: Conf, d: Conf, n: nat)
    requires ValidEnv(env) && Leads(h, env, c, d) && Run(h, env, n, d) == Timeout
    ensures Run(h, env, n, c) == Timeout
  {
  }

  lemma RunStep(h: Host, env: CompileEnv, k: nat, m: Vm, d: Conf)
    requires ValidEnv(env) && Step(h, env, k, m) == d
    ensures Run(h, env, k + 1, Running(m)) == Run(h, env, k, d)
  {
  }

  lemma StepExec(h: Host, env: CompileEnv, k: nat, m: Vm)
    requires ValidEnv(env)
    requires 0 <= m.ip < |m.fn.code| && m.fn.code[m.ip] != OP_TRYH
    ensures Step(h, env, k, m) == Exec(h, env, m.fn.code[m.ip], m.(ip := m.ip + 1))
  {
  }

  /** d is what c becomes after one instruction. */
  ghost predicate Shifts(h: Host, env: CompileEnv, c: Conf, d: Conf)
    requires ValidEnv(env)
  {
    c.Running? && forall k: nat :: Run(h, env, k + 1, c) == Run(h, env, k, d)
  }

  /** An instruction whose effect does not depend on fuel. */
  lemma ShiftStep(h: Host, env: CompileEnv, m: Vm, d: Conf)
    requires ValidEnv(env)
    requires 0 <= m.ip < |m.fn.code| && m.fn.code[m.ip] != OP_TRYH
    requires Exec(h, env, m.fn.code[m.ip], m.(ip := m.ip + 1)) == d
    ensures Shifts(h, env, Running(m), d)
  {
    forall k: nat ensures Run(h, env, k + 1, Running(m)) == Run(h, env, k, d) {
      StepExec(h, env, k, m);
      RunStep(h, env, k, m, d);
    }
  }

  lemma LeadsStep(h: Host, env: CompileEnv, m: Vm, d: Conf)
    requires ValidEnv(env)
    requires 0 <= m.ip < |m.fn.code| && m.fn.code[m.ip] != OP_TRYH
    requires Exec(h, env, m.fn.code[m.ip], m.(ip := m.ip + 1)) == d
    ensures Leads(h, env, Running(m), d)
  {
    ShiftStep(h, env, m, d);
    LeadsShift(h, env, Running(m), d);
  }

  lemma LeadsShift(h: Host, env: CompileEnv, c: Conf, d: Conf)
    requires ValidEnv(env) && Shifts(h, env, c, d)
    ensures Leads(h, env, c, d)
  {
    forall r | Ends(h, env, d, r) ensures Ends(h, env, c, r) {
      var k: nat :| Run(h, env, k, d) == r;
      assert Run(h, env, k + 1, c) == r;
    }
    forall k: nat | Run(h, env, k, c) != Timeout ensures Run(h, env, k, d) == Run(h, env, k, c) {
      var j: nat := k - 1;
      assert Run(h, env, j + 1, c) == Run(h, env, j, d);
      RunMonotone(h, env, j, k, d);
    }
  }

  /** TRYH with a callable handler whose own execution ends in r. */
  ghost predicate Nests(h: Host, env: CompileEnv, m: Vm, c0: Conf, r: Outcome, d: Conf)
    requires ValidEnv(env)
  {
    && (forall k: nat :: Run(h, env, k, c0) == Timeout ==> Step(h, env, k, m) == Halted(Timeout))
    && (forall k: nat :: Run(h, env, k, c0) == r ==> Step(h, env, k, m) == d)
  }

  lemma LeadsTry(h: Host, env: CompileEnv, m: Vm, c0: Conf, r: Outcome, d: Conf)
    requires ValidEnv(env) && Ends(h, env, c0, r) && Nests(h, env, m, c0, r, d)
    ensures Leads(h, env, Running(m), d)
  {
    var n: nat :| Run(h, env, n, c0) == r;
    forall q | Ends(h, env, d, q) ensures Ends(h, env, Running(m), q) {
      var k: nat :| Run(h, env, k, d) == q;
      LeadsTryForward(h, env, m, c0, r, d, n, k);
    }
    forall k: nat | Run(h, env, k, Running(m)) != Timeout ensures Run(h, env, k, d) == Run(h, env, k, Running(m)) {
      LeadsTryBack(h, env, m, c0, r, d, n, k);
    }
  }

  lemma {:induction false} LeadsTryForward(h: Host, env: CompileEnv, m: Vm, c0: Conf, r: Outcome, d: Conf, n: nat, k: nat)
    requires ValidEnv(env) && Nests(h, env, m, c0, r, d)
    requires r != Timeout && Run(h, env, n, c0) == r && Run(h, env, k, d) != Timeout
    ensures Run(h, env, k + n + 1, Running(m)) == Run(h, env, k, d)
  {
    hide Exec;
    RunMonotone(h, env, n, k + n, c0);
    RunMonotone(h, env, k, k + n, d);
    assert Step(h, env, k + n, m) == d;
  }

  lemma {:induction false} LeadsTryBack(h: Host, env: CompileEnv, m: Vm, c0: Conf, r: Outcome, d: Conf, n: nat, k: nat)
    requires ValidEnv(env) && Nests(h, env, m, c0, r, d)
    requires r != Timeout && Run(h, env, n, c0) == r && Run(h, env, k, Running(m)) != Timeout
    ensures Run(h, env, k, d) == Run(h, env, k, Running(m))
  {
    hide Exec;
    assert Run(h, env, k - 1, c0) != Timeout;
    RunMonotone(h, env, k - 1, k - 1 + n, c0);
    RunMonotone(h, env, n, k - 1 + n, c0);
    assert Step(h, env, k - 1, m) == d;
    RunMonotone(h, env, k - 1, k, d);
  }
}
