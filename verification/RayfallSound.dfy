/** The paths of RayfallStack are the steps of the machine: inside a frame that
    matches a point, an instruction does what the point's successors say. */
module RayfallSound {
  import opened Wrappers
  import opened RayfallSyntax
  import opened RayfallCompile
  import opened RayfallCode
  import opened RayfallMachine
  import opened RayfallStack

  /** The machine's traps above the first `base` are the armed ones, for this frame. */
  ghost predicate Armed(m: Vm, armed: seq<Handler>, base: nat) {
    && |m.ts| == base + |armed|
    && forall i :: 0 <= i < |armed| ==>
         m.ts[base + i] == Trap(|m.rs|, m.fp + m.fn.nlocals + armed[i].depth, armed[i].ip, m.fn, m.fp)
  }

  ghost predicate Matches(m: Vm, s: Point, base: nat) {
    && m.ip == s.ip && |m.ps| == m.fp + m.fn.nlocals + s.depth && Armed(m, s.armed, base)
    && forall i :: m.fp + m.fn.nlocals <= i < |m.ps| ==> m.ps[i].Full?
  }

  /** What is below the frame is untouched. */
  ghost predicate Beneath(m: Vm, d: Vm) {
    m.fp <= |m.ps| && m.fp <= |d.ps| && forall i :: 0 <= i < m.fp ==> d.ps[i] == m.ps[i]
  }

  /** The traps of outer frames are untouched. */
  ghost predicate Outer(m: Vm, d: Vm, base: nat) {
    base <= |m.ts| && base <= |d.ts| && forall i :: 0 <= i < base ==> d.ts[i] == m.ts[i]
  }

  /** The frame is left by a failure that none of its own traps guards. */
  ghost predicate Fails(m: Vm, d: Conf) {
    exists u: Vm, f: Fault :: u.ts == m.ts && u.rs == m.rs && Beneath(m, u) && d == Unwind(u, f)
  }

  /** What a step to d means for a frame at s. */
  ghost predicate Follows(m: Vm, s: Point, base: nat, d: Conf)
    requires Runs(m.fn, 0, s)
  {
    if d.Running? && Calls(m, s, d.vm) then true
    else if d.Running? && SameFrame(m, d.vm) && Beneath(m, d.vm) && Outer(m, d.vm, base) then
      || (Then(m.fn, s).Some? && Matches(d.vm, Then(m.fn, s).value, base))
      || (Else(m.fn, s).Some? && Matches(d.vm, Else(m.fn, s).value, base))
      || (s.armed != [] && Matches(d.vm, ToHandler(s), base))
      || (s.armed == [] && Fails(m, d))
    else s.armed == [] && (m.fn.code[s.ip] == OP_RET || Fails(m, d))
  }

  /** A callee is entered, with everything below its frame as the caller left it. */
  ghost predicate Calls(m: Vm, s: Point, d: Vm)
    requires Runs(m.fn, 0, s)
  {
    && |d.rs| == |m.rs| + 1 && d.rs[..|m.rs|] == m.rs && d.ts == m.ts && d.ip == 0
    && var r := d.rs[|m.rs|];
    && r.fp == m.fp && (if r.fn.Some? then r.fn.value else d.fn) == m.fn && Then(m.fn, s).Some? && r.ip == Then(m.fn,
        s).value.ip
    && d.fp == m.fp + m.fn.nlocals + Then(m.fn, s).value.depth - 1
    && d.fp <= |d.ps| && d.fp <= |m.ps| && d.ps[..d.fp] == m.ps[..d.fp]
  }

  predicate SameFrame(m: Vm, d: Vm) { d.fn == m.fn && d.fp == m.fp && d.rs == m.rs }

  /** A failure of the instruction at s, with some of its operands consumed. */
  lemma UnwindFollows(m: Vm, s: Point, base: nat, u: Vm, f: Fault)
    requires Matches(m, s, base) && Runs(m.fn, 0, s) && u.ts == m.ts && u.rs == m.rs && u.fn == m.fn && u.fp == m.fp
    requires |u.ps| <= |m.ps| && u.ps == m.ps[..|u.ps|] && |u.ps| >= m.fp + m.fn.nlocals + Innermost(s.armed)
    ensures Follows(m, s, base, Unwind(u, f))
  {
    if s.armed != [] {
      CaughtMatches(m, s, base, u, f);
    } else {
      assert Fails(m, Unwind(u, f));
    }
  }

  /** A failure under an armed trap goes to its handler, in the same frame. */
  lemma CaughtMatches(m: Vm, s: Point, base: nat, u: Vm, f: Fault)
    requires Matches(m, s, base) && s.armed != [] && u.ts == m.ts && u.rs == m.rs && u.fn == m.fn && u.fp == m.fp
    requires |u.ps| <= |m.ps| && u.ps == m.ps[..|u.ps|] && |u.ps| >= m.fp + m.fn.nlocals + Innermost(s.armed)
    ensures Unwind(u, f).Running? && SameFrame(m, Unwind(u, f).vm) && Matches(Unwind(u, f).vm, ToHandler(s), base)
    ensures Beneath(m, Unwind(u, f).vm) && Outer(m, Unwind(u, f).vm, base)
  {
    var n, d := |s.armed| - 1, Unwind(u, f).vm;
    assert m.ts[base + n] == m.ts[|m.ts| - 1];
    assert d.rs == m.rs[..|m.rs|] == m.rs;
    assert Armed(d, s.armed[..n], base);
  }

  predicate Simple(op: nat) {
    op in {OP_LOADCONST, OP_LOADCONST_W, OP_LOADENV, OP_STOREENV, OP_POP, OP_DUP, OP_FORCE, OP_JMP, OP_JMPF}
  }

  lemma JumpFollows(h: Host, env: CompileEnv, k: nat, m: Vm, s: Point, base: nat)
    requires ValidEnv(env) && Matches(m, s, base) && Runs(m.fn, 0, s) && m.fn.code[s.ip] in {OP_JMP, OP_JMPF}
    ensures Follows(m, s, base, Step(h, env, k, m))
  {
    hide ValidEnv, DoCall, DoCallSelf, DoTrap, DoTrapEnd, DoReturn, CompileLambda, Unwind, Fails;
    StepExec(h, env, k, m);
    assert s.depth > 0 ==> m.ps[|m.ps| - 1].Full?;
  }

  lemma ConstFollows(h: Host, env: CompileEnv, k: nat, m: Vm, s: Point, base: nat)
    requires ValidEnv(env) && Matches(m, s, base) && Runs(m.fn, 0, s) && m.fn.code[s.ip] in {OP_LOADCONST, OP_LOADCONST_W}
    ensures Follows(m, s, base, Step(h, env, k, m))
  {
    hide ValidEnv, DoCall, DoCallSelf, DoTrap, DoTrapEnd, DoReturn, CompileLambda, Unwind, Fails;
    StepExec(h, env, k, m);
    assert s.depth > 0 ==> m.ps[|m.ps| - 1].Full?;
  }

  lemma LoadFollows(h: Host, env: CompileEnv, k: nat, m: Vm, s: Point, base: nat)
    requires ValidEnv(env) && Matches(m, s, base) && Runs(m.fn, 0, s) && m.fn.code[s.ip] in {OP_LOADENV, OP_DUP}
    ensures Follows(m, s, base, Step(h, env, k, m))
  {
    hide ValidEnv, DoCall, DoCallSelf, DoTrap, DoTrapEnd, DoReturn, CompileLambda, Unwind, Fails;
    StepExec(h, env, k, m);
    assert s.depth > 0 ==> m.ps[|m.ps| - 1].Full?;
  }

  lemma StoreEnvFollows(h: Host, env: CompileEnv, k: nat, m: Vm, s: Point, base: nat)
    requires ValidEnv(env) && Matches(m, s, base) && Runs(m.fn, 0, s) && m.fn.code[s.ip] in {OP_STOREENV, OP_POP, OP_FORCE}
    ensures Follows(m, s, base, Step(h, env, k, m))
  {
    hide ValidEnv, DoCall, DoCallSelf, DoTrap, DoTrapEnd, DoReturn, CompileLambda, Unwind, Fails;
    StepExec(h, env, k, m);
    assert s.depth > 0 ==> m.ps[|m.ps| - 1].Full?;
  }

  lemma SimpleFollows(h: Host, env: CompileEnv, k: nat, m: Vm, s: Point, base: nat)
    requires ValidEnv(env) && Matches(m, s, base) && Runs(m.fn, 0, s) && Simple(m.fn.code[s.ip])
    ensures Follows(m, s, base, Step(h, env, k, m))
  {
    hide Follows, Matches, Step;
    var op := m.fn.code[s.ip];
    if op == OP_JMP || op == OP_JMPF { JumpFollows(h, env, k, m, s, base); }
    else if op in {OP_STOREENV, OP_POP, OP_FORCE} { StoreEnvFollows(h, env, k, m, s, base); }
    else if op == OP_LOADCONST || op == OP_LOADCONST_W { ConstFollows(h, env, k, m, s, base); }
    else { LoadFollows(h, env, k, m, s, base); }
  }

  lemma TrapFollows(h: Host, env: CompileEnv, k: nat, m: Vm, s: Point, base: nat)
    requires ValidEnv(env) && Matches(m, s, base) && Runs(m.fn, 0, s) && m.fn.code[s.ip] in {OP_TRAP, OP_TRAP_END}
    ensures Follows(m, s, base, Step(h, env, k, m))
  {
    StepExec(h, env, k, m);
  }

  lemma ResolveFollows(h: Host, env: CompileEnv, k: nat, m: Vm, s: Point, base: nat)
    requires ValidEnv(env) && Matches(m, s, base) && Runs(m.fn, 0, s) && m.fn.code[s.ip] in {OP_RESOLVE, OP_RESOLVE_W}
    ensures Follows(m, s, base, Step(h, env, k, m))
  {
    hide Comp, CompForm, CompSeq, CompArgs, CompileLambda, Args, Unwind, Follows;
    StepExec(h, env, k, m);
    var u := m.(ip := m.ip + Width(m.fn.code[s.ip]));
    match h.resolve(m.w.globals, m.fn.consts[Operand(m.fn.code, s.ip)].id)
    case Undefined => UnwindFollows(m, s, base, u, Bare(ERR_NAME));
    case Faulty(x) => UnwindFollows(m, s, base, u, Thrown(x));
    case Bound(x) => GoesOn(m, s, base, u.(ps := u.ps + [Full(x)]));
  }

  lemma StoreFollows(h: Host, env: CompileEnv, k: nat, m: Vm, s: Point, base: nat)
    requires ValidEnv(env) && Matches(m, s, base) && Runs(m.fn, 0, s)
    requires m.fn.code[s.ip] in {OP_STOREGLOBAL, OP_STOREGLOBAL_W}
    ensures Follows(m, s, base, Step(h, env, k, m))
  {
    hide Comp, CompForm, CompSeq, CompArgs, CompileLambda, Args, Unwind, Follows;
    StepExec(h, env, k, m);
    var u := m.(ip := m.ip + Width(m.fn.code[s.ip]));
    match h.bind(m.w.globals, m.fn.consts[Operand(m.fn.code, s.ip)].id, m.ps[|m.ps| - 1].v)
    case Stored(g) => GoesOn(m, s, base, u.(w := u.w.(globals := g)));
    case Denied(e) => UnwindFollows(m, s, base, Drop(u, 1), Thrown(e));
  }

  lemma WalkFollows(h: Host, env: CompileEnv, k: nat, m: Vm, s: Point, base: nat)
    requires ValidEnv(env) && Matches(m, s, base) && Runs(m.fn, 0, s) && m.fn.code[s.ip] == OP_CALLD
    ensures Follows(m, s, base, Step(h, env, k, m))
  {
    hide Comp, CompForm, CompSeq, CompArgs, CompileLambda, Args, Unwind, Follows;
    StepExec(h, env, k, m);
    var u := Drop(m.(ip := m.ip + 2), 1);
    match h.walk(m.ps[|m.ps| - 1].v, m.w)
    case Returned(x, w) => GoesOn(m, s, base, u.(w := w, ps := u.ps + [Full(x)]));
    case Refused(e, w) => UnwindFollows(m, s, base, u.(w := w), Thrown(e));
  }

  /** The instruction at s has done its work and execution goes on behind it. */
  lemma GoesOn(m: Vm, s: Point, base: nat, d: Vm)
    requires Matches(m, s, base) && Runs(m.fn, 0, s) && Then(m.fn, s).Some? && Matches(d, Then(m.fn, s).value, base)
    requires SameFrame(m, d) && Beneath(m, d) && Outer(m, d, base)
    ensures Follows(m, s, base, Running(d))
  {
  }

  lemma OperandsFull(m: Vm, s: Point, base: nat, n: nat)
    requires Matches(m, s, base) && n <= s.depth
    ensures Args(m, n).Some? && (n < s.depth ==> Top(m, n).Some?)
  {
  }

  lemma ArgsIgnoreIp(m: Vm, ip: int, n: nat)
    ensures Args(m.(ip := ip), n) == Args(m, n) && Top(m.(ip := ip), n) == Top(m, n)
  {
  }

  /** A call: what a built-in gives is pushed, and what fails is caught or leaves. */
  lemma CallFollows(h: Host, env: CompileEnv, m: Vm, s: Point, base: nat, n: nat, ip: int)
    requires ValidEnv(env) && Matches(m, s, base) && Runs(m.fn, 0, s)
    requires Needs(m.fn.code[s.ip], Operand(m.fn.code, s.ip)) == n + 1
    requires Then(m.fn, s) == Some(Point(ip, s.depth - n, s.armed))
    ensures Follows(m, s, base, DoCall(h, env, m.(ip := ip), n))
  {
    var u := m.(ip := ip);
    OperandsFull(m, s, base, n);
    ArgsIgnoreIp(m, ip, n);
    var args := Args(u, n).value;
    var f := Top(u, n).value;
    var m1 := Drop(u, n + 1);
    var d := DoCall(h, env, u, n);
    if f.Lambda? && CompileLambda(env, f.params, f.body).Some? {
      if n != |f.params| {
        UnwindFollows(m, s, base, m1, Thrown(Error(ERR_ARITY)));
      } else {
        assert d.vm.ps[..d.vm.fp] == m1.ps;
      }
    } else {
      match h.prim(f, args, u.w)
      case Returned(v, w) =>
      case Refused(e, w) => UnwindFollows(m, s, base, m1.(w := w), Thrown(e));
    }
  }

  lemma SelfFollows(m: Vm, s: Point, base: nat, n: nat, ip: int)
    requires Matches(m, s, base) && Runs(m.fn, 0, s) && n <= s.depth
    requires Then(m.fn, s) == Some(Point(ip, s.depth - n + 1, s.armed))
    ensures Follows(m, s, base, DoCallSelf(m.(ip := ip), n))
  {
    var d := DoCallSelf(m.(ip := ip), n);
    assert d.vm.ps[..d.vm.fp] == m.ps[..d.vm.fp];
  }

  /** The handler of a try, run to its end in a machine of its own. */
  lemma HandlerFollows(h: Host, env: CompileEnv, k: nat, m: Vm, s: Point, base: nat)
    requires ValidEnv(env) && Matches(m, s, base) && Runs(m.fn, 0, s) && m.fn.code[s.ip] == OP_TRYH
    ensures var d := Step(h, env, k, m); d == Halted(Timeout) || d == Halted(Stuck) || Follows(m, s, base, d)
    ensures Step(h, env, k, m) == Halted(Stuck) ==>
              CallFresh(h, env, k, m.ps[|m.ps| - 2].v, [m.ps[|m.ps| - 1].v], m.w) == RayfallMachine.Stuck
  {
    hide Follows, ValidEnv, DoCall, DoCallSelf, DoTrap, DoTrapEnd, DoReturn, CompileLambda;
    OperandsFull(m, s, base, 1);
    ArgsIgnoreIp(m, m.ip + 1, 0);
    ArgsIgnoreIp(m, m.ip + 1, 1);
    var m2 := Drop(m.(ip := m.ip + 1), 2);
    var handler := Top(m, 1).value;
    if handler.Lambda? || (handler.Builtin? && handler.arity.Unary?) {
      match CallFresh(h, env, k, handler, [Top(m, 0).value], m.w)
      case Value(v, w) => GoesOn(m, s, base, m2.(w := w, ps := m2.ps + [Full(v)]));
      case Raised(e, w) => UnwindFollows(m, s, base, m2.(w := w), Thrown(e));
      case _ =>
    } else {
      GoesOn(m, s, base, m2.(ps := m2.ps + [Full(handler)]));
    }
  }

  lemma RetFollows(h: Host, env: CompileEnv, k: nat, m: Vm, s: Point, base: nat)
    requires ValidEnv(env) && Matches(m, s, base) && Runs(m.fn, 0, s) && m.fn.code[s.ip] == OP_RET
    ensures Follows(m, s, base, Step(h, env, k, m)) && Step(h, env, k, m) != Halted(RayfallMachine.Stuck)
  {
    StepExec(h, env, k, m);
  }

  lemma CallStepFollows(h: Host, env: CompileEnv, k: nat, m: Vm, s: Point, base: nat)
    requires ValidEnv(env) && Matches(m, s, base) && Runs(m.fn, 0, s)
    requires m.fn.code[s.ip] in {OP_CALL1, OP_CALL2, OP_CALLN, OP_CALLF, OP_CALLS}
    ensures Follows(m, s, base, Step(h, env, k, m))
  {
    hide Follows, Comp, CompileLambda;
    var op := m.fn.code[s.ip];
    StepExec(h, env, k, m);
    var n := if op == OP_CALL1 then 1 else if op == OP_CALL2 then 2 else m.fn.code[s.ip + 1];
    if op == OP_CALLS { SelfFollows(m, s, base, n, m.ip + 2); }
    else { CallFollows(h, env, m, s, base, n, if op == OP_CALL1 || op == OP_CALL2 then m.ip + 1 else m.ip + 2); }
  }

  /** The disciplined paths are the machine's: whatever the host does, a step of a frame
      that matches a point goes to one of the point's successors, into a callee, to the
      innermost handler, or leaves a frame without armed traps.  It never gets stuck. */
  lemma StepFollows(h: Host, env: CompileEnv, k: nat, m: Vm, s: Point, base: nat)
    requires ValidEnv(env) && Matches(m, s, base) && Runs(m.fn, 0, s)
    requires !(m.fn.code[s.ip] in {OP_SCOPE_BEGIN, OP_SCOPE_END, OP_TRYH})
    ensures Follows(m, s, base, Step(h, env, k, m)) && Step(h, env, k, m) != Halted(RayfallMachine.Stuck)
  {
    hide Follows, Matches, Exec;
    var op := m.fn.code[s.ip];
    if Simple(op) { SimpleFollows(h, env, k, m, s, base); }
    else if op == OP_TRAP || op == OP_TRAP_END { TrapFollows(h, env, k, m, s, base); }
    else if op == OP_RET { RetFollows(h, env, k, m, s, base); }
    else if op in {OP_RESOLVE, OP_RESOLVE_W} { ResolveFollows(h, env, k, m, s, base); }
    else if op in {OP_STOREGLOBAL, OP_STOREGLOBAL_W} { StoreFollows(h, env, k, m, s, base); }
    else if op == OP_CALLD { WalkFollows(h, env, k, m, s, base); }
    else { CallStepFollows(h, env, k, m, s, base); }
    StuckDoesNotFollow(m, s, base);
  }

  lemma StuckDoesNotFollow(m: Vm, s: Point, base: nat)
    requires Runs(m.fn, 0, s)
    ensures m.fn.code[s.ip] != OP_RET ==> !Follows(m, s, base, Halted(RayfallMachine.Stuck))
  {
  }

  lemma MatchedIp(m: Vm, s: Point, base: nat)
    requires Matches(m, s, base)
    ensures m.ip == s.ip
  {
  }

  /** Whatever the instruction is: a step after which the machine still runs follows the path. */
  lemma AnyFollows(h: Host, env: CompileEnv, k: nat, m: Vm, s: Point, base: nat)
    requires ValidEnv(env) && Matches(m, s, base) && Runs(m.fn, 0, s) && Step(h, env, k, m).Running?
    ensures Follows(m, s, base, Step(h, env, k, m))
  {
    hide Follows, Matches;
    MatchedIp(m, s, base);
    if m.fn.code[s.ip] == OP_TRYH {
      HandlerFollows(h, env, k, m, s, base);
    } else {
      StepExec(h, env, k, m);
      StepFollows(h, env, k, m, s, base);
    }
  }
}
