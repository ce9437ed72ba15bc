/** Each emitted instruction group, seen on a machine state split into the
    stack below the frame, the frame's slots and its operands. */
module RayfallSteps {
  import opened Wrappers
  import opened RayfallSyntax
  import opened RayfallCompile
  import opened RayfallMachine

  datatype View = View(fn: Program, ip: nat, below: seq<Cell>, loc: seq<Cell>, ops: seq<Ray>,
                       rs: seq<Saved>, ts: seq<Trap>, w: World)
  {
    function Vm(): Vm { RayfallMachine.Vm(fn, ip, below + loc + Cells(ops), |below|, rs, ts, w) }
    function Conf(): Conf { Running(Vm()) }
    ghost predicate Valid() {
      && |loc| == fn.nlocals
      && (ts != [] ==> ts[|ts| - 1].sp <= |below| + |loc| + |ops| && ts[|ts| - 1].rp <= |rs|)
    }
  }

  /** What unwinding does is independent of operands pushed since the trap. */
  lemma UnwindDrop(v: View, u: View, f: Fault)
    requires v.Valid()
    requires u.ts == v.ts && u.w == v.w
    requires |v.rs| <= |u.rs| && u.rs[..|v.rs|] == v.rs
    requires |v.Vm().ps| <= |u.Vm().ps| && u.Vm().ps[..|v.Vm().ps|] == v.Vm().ps
    ensures Unwind(u.Vm(), f) == Unwind(v.Vm(), f)
  {
    if v.ts != [] {
      var t := v.ts[|v.ts| - 1];
      assert u.Vm().ps[..t.sp] == u.Vm().ps[..|v.Vm().ps|][..t.sp];
      assert u.rs[..t.rp] == u.rs[..|v.rs|][..t.rp];
    }
  }

  lemma UnwindOps(v: View, xs: seq<Ray>, ip: nat, f: Fault)
    requires v.Valid()
    ensures Unwind(v.(ip := ip, ops := v.ops + xs).Vm(), f) == Unwind(v.Vm(), f)
  {
    var u := v.(ip := ip, ops := v.ops + xs);
    assert u.Vm().ps == v.Vm().ps + Cells(xs);
    assert u.Vm().ps[..|v.Vm().ps|] == v.Vm().ps;
    UnwindDrop(v, u, f);
  }

  lemma UnwindIp(v: View, ip: nat)
    ensures forall w, f :: Unwind(v.(ip := ip, w := w).Vm(), f) == Unwind(v.(w := w).Vm(), f)
  {
  }

  lemma PushView(v: View, x: Ray)
    ensures Push(v.Vm(), x) == v.(ops := v.ops + [x]).Vm()
  {
    assert Cells(v.ops + [x]) == Cells(v.ops) + [Full(x)];
  }

  lemma DropView(v: View, xs: seq<Ray>)
    ensures Drop(v.(ops := v.ops + xs).Vm(), |xs|) == v.Vm()
  {
    var u := v.(ops := v.ops + xs);
    assert u.Vm().ps[..|u.Vm().ps| - |xs|] == v.Vm().ps;
  }

  lemma TopView(v: View, k: nat)
    requires k < |v.ops|
    ensures Top(v.Vm(), k) == Some(v.ops[|v.ops| - 1 - k])
  {
    var ps := v.Vm().ps;
    assert ps[|ps| - 1 - k] == Cells(v.ops)[|v.ops| - 1 - k];
  }

  lemma ArgCells(v: View, args: seq<Ray>)
    ensures Args(v.(ops := v.ops + args).Vm(), |args|) == Some(args)
  {
    var m := v.(ops := v.ops + args).Vm();
    assert Cells(v.ops + args) == Cells(v.ops) + Cells(args);
    assert m.ps == v.Vm().ps + Cells(args);
    assert forall i | |m.ps| - |args| <= i < |m.ps| :: m.ps[i] == Full(args[i - (|m.ps| - |args|)]);
    assert Args(m, |args|).value == args;
  }

  lemma ArgsView(v: View, f: Ray, args: seq<Ray>)
    ensures var m := v.(ops := v.ops + [f] + args).Vm();
            Args(m, |args|) == Some(args) && Top(m, |args|) == Some(f) && Drop(m, |args| + 1) == v.Vm()
  {
    var u := v.(ops := v.ops + [f] + args);
    ArgCells(v.(ops := v.ops + [f]), args);
    TopView(u, |args|);
    DropView(v, [f] + args);
    assert v.ops + ([f] + args) == u.ops;
  }

  /** Operand of an instruction emitted by WithIndex. */
  lemma IndexBytes(code: seq<nat>, ip: nat, op: nat, wide: nat, i: nat)
    requires op != wide && i < 0x1_0000 && At(code, ip, WithIndex(op, wide, i))
    ensures |WithIndex(op, wide, i)| == if i < 256 then 2 else 3
    ensures ip + 1 < |code| && code[ip] == (if i < 256 then op else wide) && ReadIndex(code, ip + 1, i >= 256) == i
  {
    var b := WithIndex(op, wide, i);
    AtByte(code, ip, b, 0);
    AtByte(code, ip, b, 1);
    if i >= 256 { AtByte(code, ip, b, 2); }
  }

  // ---------- instruction groups ----------

  lemma StepLoadConst(h: Host, env: CompileEnv, v: View, i: nat)
    requires ValidEnv(env) && i < |v.fn.consts| && i < 0x1_0000
    requires At(v.fn.code, v.ip, WithIndex(OP_LOADCONST, OP_LOADCONST_W, i))
    ensures Leads(h, env, v.Conf(),
      v.(ip := v.ip + |WithIndex(OP_LOADCONST, OP_LOADCONST_W, i)|, ops := v.ops + [v.fn.consts[i]]).Conf())
  {
    var b := WithIndex(OP_LOADCONST, OP_LOADCONST_W, i);
    IndexBytes(v.fn.code, v.ip, OP_LOADCONST, OP_LOADCONST_W, i);
    var u := v.(ip := v.ip + |b|);
    PushView(u, v.fn.consts[i]);
    LeadsStep(h, env, v.Vm(), u.(ops := v.ops + [v.fn.consts[i]]).Conf());
  }

  lemma StepLoadEnv(h: Host, env: CompileEnv, v: View, slot: nat)
    requires ValidEnv(env) && slot < |v.loc| && At(v.fn.code, v.ip, [OP_LOADENV, slot])
    ensures Leads(h, env, v.Conf(),
      v.(ip := v.ip + 2, ops := v.ops + [if v.loc[slot].Full? then v.loc[slot].v else I64(0)]).Conf())
  {
    AtByte(v.fn.code, v.ip, [OP_LOADENV, slot], 0);
    AtByte(v.fn.code, v.ip, [OP_LOADENV, slot], 1);
    var u := v.(ip := v.ip + 2);
    var x := if v.loc[slot].Full? then v.loc[slot].v else I64(0);
    PushView(u, x);
    LeadsStep(h, env, v.Vm(), u.(ops := v.ops + [x]).Conf());
  }

  lemma StepStoreEnv(h: Host, env: CompileEnv, v: View, slot: nat, x: Ray)
    requires ValidEnv(env) && slot < |v.loc| && At(v.fn.code, v.ip, [OP_STOREENV, slot])
    ensures Leads(h, env, v.(ops := v.ops + [x]).Conf(), v.(ip := v.ip + 2, loc := v.loc[slot := Full(x)]).Conf())
  {
    AtByte(v.fn.code, v.ip, [OP_STOREENV, slot], 0);
    AtByte(v.fn.code, v.ip, [OP_STOREENV, slot], 1);
    var u := v.(ops := v.ops + [x]);
    TopView(u, 0);
    var d := v.(ip := v.ip + 2, loc := v.loc[slot := Full(x)]);
    assert u.Vm().ps[|u.Vm().ps| - 1] == Full(x);
    assert u.Vm().ps[..|u.Vm().ps| - 1][|v.below| + slot := Full(x)] == d.Vm().ps;
    LeadsStep(h, env, u.Vm(), d.Conf());
  }

  lemma StepDup(h: Host, env: CompileEnv, v: View, x: Ray)
    requires ValidEnv(env) && At(v.fn.code, v.ip, [OP_DUP])
    ensures Leads(h, env, v.(ops := v.ops + [x]).Conf(), v.(ip := v.ip + 1, ops := v.ops + [x] + [x]).Conf())
  {
    AtByte(v.fn.code, v.ip, [OP_DUP], 0);
    var u := v.(ops := v.ops + [x]);
    TopView(u, 0);
    PushView(u.(ip := v.ip + 1), x);
    LeadsStep(h, env, u.Vm(), v.(ip := v.ip + 1, ops := v.ops + [x] + [x]).Conf());
  }

  /** The tail of a `let`: force, duplicate, store. */
  lemma StepLet(h: Host, env: CompileEnv, v: View, slot: nat, x: Ray)
    requires ValidEnv(env) && slot < |v.loc| && At(v.fn.code, v.ip, [OP_FORCE, OP_DUP, OP_STOREENV, slot])
    ensures Leads(h, env, v.(ops := v.ops + [x]).Conf(),
                  v.(ip := v.ip + 4, loc := v.loc[slot := Full(x)], ops := v.ops + [x]).Conf())
  {
    assert [OP_FORCE, OP_DUP, OP_STOREENV, slot] == [OP_FORCE] + ([OP_DUP] + [OP_STOREENV, slot]);
    AtSplit(v.fn.code, v.ip, [OP_FORCE], [OP_DUP] + [OP_STOREENV, slot]);
    AtSplit(v.fn.code, v.ip + 1, [OP_DUP], [OP_STOREENV, slot]);
    AtByte(v.fn.code, v.ip, [OP_FORCE], 0);
    var u := v.(ops := v.ops + [x]);
    LeadsStep(h, env, u.Vm(), u.(ip := v.ip + 1).Conf());
    StepDup(h, env, v.(ip := v.ip + 1), x);
    StepStoreEnv(h, env, u.(ip := v.ip + 2), slot, x);
    LeadsTrans(h, env, u.Conf(), u.(ip := v.ip + 1).Conf(), v.(ip := v.ip + 2, ops := v.ops + [x] + [x]).Conf());
    LeadsTrans(h, env, u.Conf(), v.(ip := v.ip + 2, ops := v.ops + [x] + [x]).Conf(),
               v.(ip := v.ip + 4, loc := v.loc[slot := Full(x)], ops := v.ops + [x]).Conf());
  }

  lemma StepPop(h: Host, env: CompileEnv, v: View, x: Ray)
    requires ValidEnv(env) && v.Valid() && At(v.fn.code, v.ip, [OP_POP])
    ensures Leads(h, env, v.(ops := v.ops + [x]).Conf(), v.(ip := v.ip + 1).Conf())
  {
    AtByte(v.fn.code, v.ip, [OP_POP], 0);
    DropView(v.(ip := v.ip + 1), [x]);
    LeadsStep(h, env, v.(ops := v.ops + [x]).Vm(), v.(ip := v.ip + 1).Conf());
  }

  /** State after a name is looked up at run time. */
  function Resolved(h: Host, v: View, ip: nat, id: nat): Conf {
    match h.resolve(v.w.globals, id)
    case Undefined => Unwind(v.Vm(), Bare(ERR_NAME))
    case Faulty(e) => Unwind(v.Vm(), Thrown(e))
    case Bound(x) => v.(ip := ip, ops := v.ops + [x]).Conf()
  }

  lemma StepResolve(h: Host, env: CompileEnv, v: View, i: nat, id: nat)
    requires ValidEnv(env) && v.Valid() && i < |v.fn.consts| && i < 0x1_0000
    requires v.fn.consts[i] == Symbol(id, false)
    requires At(v.fn.code, v.ip, WithIndex(OP_RESOLVE, OP_RESOLVE_W, i))
    ensures Leads(h, env, v.Conf(), Resolved(h, v, v.ip + |WithIndex(OP_RESOLVE, OP_RESOLVE_W, i)|, id))
  {
    var b := WithIndex(OP_RESOLVE, OP_RESOLVE_W, i);
    IndexBytes(v.fn.code, v.ip, OP_RESOLVE, OP_RESOLVE_W, i);
    var d := Resolved(h, v, v.ip + |b|, id);
    var u := v.(ip := v.ip + |b|);
    assert v.ops + [] == v.ops;
    match h.resolve(v.w.globals, id) {
      case Undefined => UnwindOps(v, [], v.ip + |b|, Bare(ERR_NAME));
      case Faulty(e) => UnwindOps(v, [], v.ip + |b|, Thrown(e));
      case Bound(x) => PushView(u, x);
    }
    LeadsStep(h, env, v.Vm(), d);
  }

  function AfterStore(h: Host, v: View, ip: nat, id: nat, x: Ray): Conf {
    match h.bind(v.w.globals, id, x)
    case Stored(g) => v.(ip := ip, ops := v.ops + [x], w := v.w.(globals := g)).Conf()
    case Denied(e) => Unwind(v.Vm(), Thrown(e))
  }

  lemma StoreView(h: Host, v: View, wide: bool, i: nat, name: Ray, x: Ray)
    requires v.Valid() && i < |v.fn.consts| && name.Symbol? && v.fn.consts[i] == name
    requires ReadIndex(v.fn.code, v.ip, wide) == i
    ensures DoStoreGlobal(h, v.(ops := v.ops + [x]).Vm(), wide) == AfterStore(h, v, v.ip + if wide then 2 else 1, name.id, x)
  {
    TopView(v.(ops := v.ops + [x]), 0);
    assert v.ops + [] == v.ops;
    var ip := v.ip + if wide then 2 else 1;
    if h.bind(v.w.globals, name.id, x).Denied? {
      DropView(v.(ip := ip), [x]);
      UnwindOps(v, [], ip, Thrown(h.bind(v.w.globals, name.id, x).error));
    }
  }

  lemma StepStoreGlobal(h: Host, env: CompileEnv, v: View, i: nat, name: Ray, x: Ray)
    requires ValidEnv(env) && v.Valid() && i < |v.fn.consts| && i < 0x1_0000
    requires name.Symbol? && v.fn.consts[i] == name
    requires At(v.fn.code, v.ip, WithIndex(OP_STOREGLOBAL, OP_STOREGLOBAL_W, i))
    ensures Leads(h, env, v.(ops := v.ops + [x]).Conf(),
                  AfterStore(h, v, v.ip + |WithIndex(OP_STOREGLOBAL, OP_STOREGLOBAL_W, i)|, name.id, x))
  {
    hide WithIndex, Unwind;
    IndexBytes(v.fn.code, v.ip, OP_STOREGLOBAL, OP_STOREGLOBAL_W, i);
    var u := v.(ip := v.ip + 1);
    var d := AfterStore(h, u, u.ip + if i < 256 then 1 else 2, name.id, x);
    StoreView(h, u, i >= 256, i, name, x);
    LeadsStep(h, env, v.(ops := v.ops + [x]).Vm(), d);
    UnwindIp(v, v.ip + 1);
  }

  lemma JumpBytes(code: seq<nat>, ip: nat, op: nat, len: nat)
    requires At(code, ip, Jump(op, len)) && len <= MAX_JUMP
    ensures code[ip] == op && ip + 2 < |code| && ReadOffset(code, ip + 1) == len
  {
    AtByte(code, ip, Jump(op, len), 0);
    AtByte(code, ip, Jump(op, len), 1);
    AtByte(code, ip, Jump(op, len), 2);
  }

  lemma StepJump(h: Host, env: CompileEnv, v: View, len: nat)
    requires ValidEnv(env) && len <= MAX_JUMP && At(v.fn.code, v.ip, Jump(OP_JMP, len))
    ensures Leads(h, env, v.Conf(), v.(ip := v.ip + 3 + len).Conf())
  {
    JumpBytes(v.fn.code, v.ip, OP_JMP, len);
    LeadsStep(h, env, v.Vm(), v.(ip := v.ip + 3 + len).Conf());
  }

  lemma StepJumpFalse(h: Host, env: CompileEnv, v: View, len: nat, x: Ray)
    requires ValidEnv(env) && len <= MAX_JUMP && At(v.fn.code, v.ip, Jump(OP_JMPF, len))
    ensures Leads(h, env, v.(ops := v.ops + [x]).Conf(), v.(ip := v.ip + 3 + if h.truthy(x) then 0 else len).Conf())
  {
    JumpBytes(v.fn.code, v.ip, OP_JMPF, len);
    var u := v.(ops := v.ops + [x]);
    TopView(u, 0);
    DropView(v.(ip := v.ip + 1), [x]);
    LeadsStep(h, env, u.Vm(), v.(ip := v.ip + 3 + if h.truthy(x) then 0 else len).Conf());
  }

  function Settled(v: View, r: Reply): Conf {
    match r
    case Returned(x, w) => v.(ops := v.ops + [x], w := w).Conf()
    case Refused(e, w) => Unwind(v.(w := w).Vm(), Thrown(e))
  }

  /** State after a call of f with args has been dispatched. */
  function Called(h: Host, env: CompileEnv, v: View, f: Ray, args: seq<Ray>): Conf
    requires ValidEnv(env)
  {
    if f.Lambda? && CompileLambda(env, f.params, f.body).Some? then
      var p := CompileLambda(env, f.params, f.body).value;
      if |args| != |f.params| then Unwind(v.Vm(), Thrown(Error(ERR_ARITY)))
      else Entered(v, p, args)
    else Settled(v, h.prim(f, args, v.w))
  }

  function Entered(v: View, p: Program, args: seq<Ray>): Conf {
    View(p, 0, v.Vm().ps, Enter(p, args), [], v.rs + [Saved(Some(v.fn), |v.below|, v.ip)], v.ts, v.w).Conf()
  }

  lemma CallView(h: Host, env: CompileEnv, v: View, f: Ray, args: seq<Ray>)
    requires ValidEnv(env)
    ensures DoCall(h, env, v.(ops := v.ops + [f] + args).Vm(), |args|) == Called(h, env, v, f, args)
  {
    ArgsView(v, f, args);
    assert Cells([]) == [];
    if f.Lambda? && CompileLambda(env, f.params, f.body).Some? {
      var p := CompileLambda(env, f.params, f.body).value;
      assert v.Vm().ps + Enter(p, args) + [] == v.Vm().ps + Enter(p, args);
    } else {
      match h.prim(f, args, v.w) {
        case Returned(x, w) => PushView(v.(w := w), x);
        case Refused(e, w) =>
      }
    }
  }

  lemma StepCall(h: Host, env: CompileEnv, v: View, callee: Option<Ray>, f: Ray, args: seq<Ray>)
    requires ValidEnv(env) && |args| <= MAX_ARGS && (callee.Some? ==> callee.value.Builtin?)
    requires At(v.fn.code, v.ip, CallOp(callee, |args|))
    ensures Shifts(h, env, v.(ops := v.ops + [f] + args).Conf(),
                   Called(h, env, v.(ip := v.ip + |CallOp(callee, |args|)|), f, args))
  {
    var b := CallOp(callee, |args|);
    AtByte(v.fn.code, v.ip, b, 0);
    if |b| == 2 { AtByte(v.fn.code, v.ip, b, 1); }
    StepCallAt(h, env, v, b[0], |b|, f, args);
  }

  /** The four call instructions differ only in how they give the number of arguments. */
  lemma StepCallAt(h: Host, env: CompileEnv, v: View, op: nat, len: nat, f: Ray, args: seq<Ray>)
    requires ValidEnv(env) && v.ip < |v.fn.code| && v.fn.code[v.ip] == op
    requires if op == OP_CALL1 then len == 1 && |args| == 1
             else if op == OP_CALL2 then len == 1 && |args| == 2
             else (op == OP_CALLN || op == OP_CALLF) && len == 2 && ReadIndex(v.fn.code, v.ip + 1, false) == |args|
    ensures Shifts(h, env, v.(ops := v.ops + [f] + args).Conf(), Called(h, env, v.(ip := v.ip + len), f, args))
  {
    hide CompileLambda, ReadIndex, DoCall, DoWalk, Unwind, Comp;
    var m := v.(ops := v.ops + [f] + args).Vm();
    CallView(h, env, v.(ip := v.ip + len), f, args);
    assert m.(ip := v.ip + len) == v.(ip := v.ip + len, ops := v.ops + [f] + args).Vm();
    var d := Called(h, env, v.(ip := v.ip + len), f, args);
    if op == OP_CALL1 {
      ShiftStep(h, env, m, d);
    } else if op == OP_CALL2 {
      ShiftStep(h, env, m, d);
    } else if op == OP_CALLN {
      ShiftStep(h, env, m, d);
    } else {
      ShiftStep(h, env, m, d);
    }
  }

  lemma StepCallSelf(h: Host, env: CompileEnv, v: View, args: seq<Ray>)
    requires ValidEnv(env) && |args| <= v.fn.nlocals && At(v.fn.code, v.ip, [OP_CALLS, |args|])
    ensures Shifts(h, env, v.(ops := v.ops + args).Conf(),
                  View(v.fn, 0, v.Vm().ps, Enter(v.fn, args), [], v.rs + [Saved(None, |v.below|, v.ip + 2)], v.ts, v.w).Conf())
  {
    AtByte(v.fn.code, v.ip, [OP_CALLS, |args|], 0);
    AtByte(v.fn.code, v.ip, [OP_CALLS, |args|], 1);
    var d := View(v.fn, 0, v.Vm().ps, Enter(v.fn, args), [], v.rs + [Saved(None, |v.below|, v.ip + 2)], v.ts, v.w);
    var u := v.(ops := v.ops + args);
    assert Cells([]) == [];
    assert Cells(v.ops + args) == Cells(v.ops) + Cells(args);
    assert u.Vm().ps + Blank(v.fn.nlocals - |args|) == d.Vm().ps;
    ShiftStep(h, env, u.Vm(), d.Conf());
  }

  lemma StepWalk(h: Host, env: CompileEnv, v: View, e: Ray)
    requires ValidEnv(env) && At(v.fn.code, v.ip, [OP_CALLD, 0])
    ensures Leads(h, env, v.(ops := v.ops + [e]).Conf(), Settled(v.(ip := v.ip + 2), h.walk(e, v.w)))
  {
    AtByte(v.fn.code, v.ip, [OP_CALLD, 0], 0);
    AtByte(v.fn.code, v.ip, [OP_CALLD, 0], 1);
    var u := v.(ip := v.ip + 2);
    TopView(v.(ops := v.ops + [e]), 0);
    DropView(u, [e]);
    match h.walk(e, v.w) {
      case Returned(x, w) => PushView(u.(w := w), x);
      case Refused(_, _) =>
    }
    LeadsStep(h, env, v.(ops := v.ops + [e]).Vm(), Settled(u, h.walk(e, v.w)));
  }

  function TrapOf(v: View, len: nat): Trap {
    Trap(|v.rs|, |v.below| + |v.loc| + |v.ops|, v.ip + 3 + len, v.fn, |v.below|)
  }

  lemma StepTrap(h: Host, env: CompileEnv, v: View, len: nat)
    requires ValidEnv(env) && len <= MAX_JUMP && At(v.fn.code, v.ip, Jump(OP_TRAP, len))
    ensures Leads(h, env, v.Conf(), v.(ip := v.ip + 3, ts := v.ts + [TrapOf(v, len)]).Conf())
  {
    JumpBytes(v.fn.code, v.ip, OP_TRAP, len);
    LeadsStep(h, env, v.Vm(), v.(ip := v.ip + 3, ts := v.ts + [TrapOf(v, len)]).Conf());
  }

  lemma StepTrapEnd(h: Host, env: CompileEnv, v: View, t: Trap)
    requires ValidEnv(env) && At(v.fn.code, v.ip, [OP_TRAP_END])
    ensures Leads(h, env, v.(ts := v.ts + [t]).Conf(), v.(ip := v.ip + 1).Conf())
  {
    AtByte(v.fn.code, v.ip, [OP_TRAP_END], 0);
    assert (v.ts + [t])[..|v.ts|] == v.ts;
    LeadsStep(h, env, v.(ts := v.ts + [t]).Vm(), v.(ip := v.ip + 1).Conf());
  }

  /** An error under a trap this frame set resumes at its handler with the
      frame's current slots. */
  lemma UnwindHere(v: View, t: Trap, f: Fault)
    requires t == Trap(|v.rs|, |v.below| + |v.loc| + |v.ops|, t.ip, v.fn, |v.below|) && t.ip >= 0
    ensures Unwind(v.(ts := v.ts + [t]).Vm(), f)
         == v.(ip := t.ip, ops := v.ops + [Caught(f, v.w)], w := v.w.(raised := None)).Conf()
  {
    var u := v.(ts := v.ts + [t]);
    assert u.ts[..|u.ts| - 1] == v.ts;
    assert v.rs[..|v.rs|] == v.rs;
    assert u.Vm().ps[..t.sp] == v.Vm().ps;
    PushView(v.(ip := t.ip, w := v.w.(raised := None)), Caught(f, v.w));
  }

  /** Leaving the frame with x, after closing the innermost td traps. */
  function Left(v: View, td: nat, x: Ray, w: World): Conf
    requires td <= |v.ts|
  {
    if v.rs == [] then Halted(Value(x, w))
    else
      var s := v.rs[|v.rs| - 1];
      Running(Vm(if s.fn.Some? then s.fn.value else v.fn, s.ip, v.below + [Full(x)], s.fp,
                 v.rs[..|v.rs| - 1], v.ts[..|v.ts| - td], w))
  }

  lemma StepRet(h: Host, env: CompileEnv, v: View, x: Ray)
    requires ValidEnv(env) && |v.loc| == v.fn.nlocals && At(v.fn.code, v.ip, [OP_RET])
    ensures Leads(h, env, v.(ops := v.ops + [x]).Conf(), Left(v, 0, x, v.w))
  {
    AtByte(v.fn.code, v.ip, [OP_RET], 0);
    var u := v.(ops := v.ops + [x]);
    TopView(u, 0);
    assert u.Vm().ps[..|v.below|] == v.below;
    assert v.ts[..|v.ts|] == v.ts;
    LeadsStep(h, env, u.Vm(), Left(v, 0, x, v.w));
  }

  /** A `return` closes the traps open around it, then leaves. */
  lemma {:induction false} StepReturn(h: Host, env: CompileEnv, v: View, td: nat, x: Ray)
    requires ValidEnv(env) && |v.loc| == v.fn.nlocals && td <= |v.ts|
    requires At(v.fn.code, v.ip, Repeat(OP_TRAP_END, td) + [OP_RET])
    ensures Leads(h, env, v.(ops := v.ops + [x]).Conf(), Left(v, td, x, v.w))
    decreases td
  {
    if td == 0 {
      assert Repeat(OP_TRAP_END, td) + [OP_RET] == [OP_RET];
      StepRet(h, env, v, x);
    } else {
      assert Repeat(OP_TRAP_END, td) + [OP_RET] == [OP_TRAP_END] + (Repeat(OP_TRAP_END, td - 1) + [OP_RET]);
      AtSplit(v.fn.code, v.ip, [OP_TRAP_END], Repeat(OP_TRAP_END, td - 1) + [OP_RET]);
      var u := v.(ts := v.ts[..|v.ts| - 1]);
      assert v.ts == u.ts + [v.ts[|v.ts| - 1]];
      StepTrapEnd(h, env, u.(ops := v.ops + [x]), v.ts[|v.ts| - 1]);
      StepReturn(h, env, u.(ip := v.ip + 1), td - 1, x);
      assert u.ts[..|u.ts| - (td - 1)] == v.ts[..|v.ts| - td];
      LeadsTrans(h, env, v.(ops := v.ops + [x]).Conf(), u.(ip := v.ip + 1, ops := v.ops + [x]).Conf(), Left(v, td, x, v.w));
    }
  }
}
