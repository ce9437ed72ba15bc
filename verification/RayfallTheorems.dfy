/** The results about compiled code, and where compiled code departs from its source. */
module RayfallTheorems {
  import opened Wrappers
  import opened RayfallSyntax
  import opened RayfallCompile
  import opened RayfallMachine
  import opened RayfallEval
  import opened RayfallSteps
  import opened RayfallStatic
  import opened RayfallMeaning

  /** What the machine reports for a call that direct evaluation ends with a. */
  function Observed(a: Applied): Outcome
    requires a.Gave? || a.Broke?
  {
    if a.Gave? then Value(a.v, a.w) else Raised(Report(a.f), a.w)
  }

  /** Compiled code preserves meaning.  For every host, every arguments and every
      world: a call of a checked lambda that direct evaluation finishes is finished
      by the machine with the same result, error and global bindings, and as long as
      direct evaluation needs more fuel so does the machine. */
  lemma {:induction false} CompiledCodePreservesMeaning(h: Host, env: CompileEnv, l: Ray, args: seq<Ray>, w: World, n: nat)
    requires ValidEnv(env) && KeepsBuiltins(h, env) && Pinned(h, env, w) && Checked(env, l)
    ensures var a := Meaning(h, env, n, l, args, w);
      && (a.OutOfFuel? ==> n == 0 || CallFresh(h, env, n - 1, l, args, w) == Timeout)
      && (a.Gave? || a.Broke? ==> Pinned(h, env, a.w) && exists k: nat :: CallFresh(h, env, k, l, args, w) == Observed(a))
  {
    var p := CompileLambda(env, l.params, l.body).value;
    if |args| != |l.params| {
      assert CallFresh(h, env, 0, l, args, w) == Observed(Meaning(h, env, n, l, args, w));
    } else if n > 0 {
      ProgramSlots(env, l.params, l.body);
      var u := View(p, 0, [], Enter(p, args), [], [], [], w);
      var c0 := Start(p, args, w);
      assert u.Conf() == c0 by { assert Cells([]) == []; assert [] + u.loc + [] == u.loc; }
      var loc := BodySim(h, env, n - 1, l, args, u);
      match Body(h, env, n - 1, l, args, w)
      case Gave(x, w1) =>
        Ended(h, env, c0, Value(x, w1));
        var k: nat :| Run(h, env, k, c0) == Value(x, w1);
        assert CallFresh(h, env, k, l, args, w) == Value(x, w1);
      case Broke(f, w1) =>
        Ended(h, env, c0, Raised(Report(f), w1));
        var k: nat :| Run(h, env, k, c0) == Raised(Report(f), w1);
        assert CallFresh(h, env, k, l, args, w) == Raised(Report(f), w1);
      case _ =>
    }
  }

  /** The converse: whatever the machine ends a call with is what the source means,
      and it never gets stuck, unless an unchecked lambda is called on the way. */
  lemma {:induction false} MachineResultIsMeaning(h: Host, env: CompileEnv, l: Ray, args: seq<Ray>, w: World, k: nat)
    requires ValidEnv(env) && KeepsBuiltins(h, env) && Pinned(h, env, w) && Checked(env, l)
    requires CallFresh(h, env, k, l, args, w) != Timeout
    ensures var a := Meaning(h, env, k + 1, l, args, w);
      a.Unchecked? || ((a.Gave? || a.Broke?) && CallFresh(h, env, k, l, args, w) == Observed(a))
  {
    CompiledCodePreservesMeaning(h, env, l, args, w, k + 1);
    var a := Meaning(h, env, k + 1, l, args, w);
    if a.Gave? || a.Broke? {
      var j: nat :| CallFresh(h, env, j, l, args, w) == Observed(a);
      if |args| == |l.params| {
        var c0 := Start(CompileLambda(env, l.params, l.body).value, args, w);
        if j <= k { RunMonotone(h, env, j, k, c0); } else { RunMonotone(h, env, k, j, c0); }
      }
    }
  }

  // ---------- where the conditions come from ----------

  function OtherZero(bits: nat): nat { if bits == PLUS_ZERO then MINUS_ZERO else PLUS_ZERO }

  /** A constant is stored as another one exactly when it is a float zero and the zero of the
      other sign comes in the pool, before it if it is there itself. */
  lemma ConstantChangedIff(t: Table, x: Ray)
    ensures var r := AddConst(t, x);
      r.0.consts[r.1] != x <==>
        x.F64? && IsZero(x.bits) && exists i :: 0 <= i < |t.consts| && t.consts[i] == F64(OtherZero(x.bits)) && x !in t.consts[..i]
  {
    var k := FindConst(t.consts, x, 0);
    if x.F64? && IsZero(x.bits) {
      if i :| 0 <= i < |t.consts| && t.consts[i] == F64(OtherZero(x.bits)) && x !in t.consts[..i] {
        assert Reuses(t.consts[i], x) && k <= i;
        if k < i { assert t.consts[k] == t.consts[..i][k]; }
      }
      if k < |t.consts| && t.consts[k] != x {
        assert x !in t.consts[..k];
      }
    }
  }

  lemma SignedZerosConflated()
    ensures var t := AddConst(Table([], []), F64(PLUS_ZERO)).0;
      AddConst(t, F64(MINUS_ZERO)) == (t, 0) && t.consts[0] == F64(PLUS_ZERO)
  {
    assert Reuses(F64(PLUS_ZERO), F64(MINUS_ZERO));
    assert FindConst([], F64(PLUS_ZERO), 0) == 0;
    assert AddConst(Table([], []), F64(PLUS_ZERO)).0.consts == [F64(PLUS_ZERO)];
  }

  /** A pool index survives encoding exactly up to 65536 constants. */
  lemma IndexEncodableIff(op: nat, wide: nat, i: nat)
    ensures ReadIndex(WithIndex(op, wide, i), 1, i >= 256) == i <==> i < 0x1_0000
  {
  }

  /** A self call never fails on the number of its arguments, while a call of the
      same lambda by the source's rules fails on every number but one. */
  lemma SelfCallIgnoresArity(h: Host, env: CompileEnv, m: Vm, k: nat, l: Ray, args: seq<Ray>)
    requires ValidEnv(env) && l.Lambda? && CompileLambda(env, l.params, l.body) == Some(m.fn)
    requires 0 <= m.ip && m.ip + 1 < |m.fn.code| && m.fn.code[m.ip] == OP_CALLS
    requires m.fn.code[m.ip + 1] == |args| <= |m.ps| && m.ps[|m.ps| - |args|..] == Cells(args)
    ensures Step(h, env, k, m).Running? && Step(h, env, k, m).vm.ip == 0
    ensures Apply(h, env, k, l, args, m.w) == Broke(Thrown(Error(ERR_ARITY)), m.w) <== |args| != |l.params|
    ensures Apply(h, env, 0, l, args, m.w) == Broke(Thrown(Error(ERR_ARITY)), m.w) ==> |args| != |l.params|
  {
  }

  function ShortSelf(): Ray { List([Symbol(SF_SELF, false)]) }
  function CodeShort(): Program { Program([OP_CALLS, 0, OP_RET], [], 1) }

  lemma ShortSelfCompiles(env: CompileEnv)
    requires ValidEnv(env)
    ensures CompileLambda(env, [X], [ShortSelf()]) == Some(CodeShort())
  {
    var t := Table([], [X]);
    assert [Symbol(SF_SELF, false)][1..] == [];
    assert Classify(env, ShortSelf()) == Self([]);
    assert Comp(env, t, 0, ShortSelf()) == Code([] + [OP_CALLS, 0], t);
    assert CompSeq(env, t, 0, [ShortSelf()]) == Comp(env, t, 0, ShortSelf());
    assert [] + [OP_CALLS, 0] + [OP_RET] == CodeShort().code;
  }

  lemma {:induction false} ShortSelfRuns(h: Host, env: CompileEnv, k: nat, m: Vm)
    requires ValidEnv(env) && m.fn == CodeShort() && m.ip == 0
    ensures Run(h, env, k, Running(m)) == Timeout
    decreases k
  {
    if k > 0 {
      var d := Step(h, env, k - 1, m);
      assert d.Running? && d.vm.fn == CodeShort() && d.vm.ip == 0;
      ShortSelfRuns(h, env, k - 1, d.vm);
    }
  }

  /** (fn [x] (self)): the source's rules make the self call an error, and compiled code
      calls itself for ever.  The static conditions exclude the lambda. */
  lemma ShortSelfCallNeverEnds(h: Host, env: CompileEnv, a: Ray, w: World, k: nat)
    requires ValidEnv(env)
    ensures var l := Lambda([X], [ShortSelf()]);
      && CallFresh(h, env, k, l, [a], w) == Timeout
      && Apply(h, env, k, l, [], w) == Broke(Thrown(Error(ERR_ARITY)), w)
      && !Checked(env, l)
  {
    hide Comp, CompSeq, Run;
    ShortSelfCompiles(env);
    var p := CodeShort();
    var m := Vm(p, 0, Enter(p, [a]), 0, [], [], w);
    SelfCallIgnoresArity(h, env, m, k, Lambda([X], [ShortSelf()]), []);
    ShortSelfRuns(h, env, k, m);
    forall zero ensures !CheckBody(env, zero, Lambda([X], [ShortSelf()])).ok { ShortSelfRefused(env, zero); }
  }

  lemma ShortSelfRefused(env: CompileEnv, zero: Ray)
    ensures !CheckBody(env, zero, Lambda([X], [ShortSelf()])).ok
  {
    var f := Flow(true, Names([X]), Live(Names([X])));
    assert [Symbol(SF_SELF, false)][1..] == [];
    assert Classify(env, ShortSelf()) == Self([]);
    assert !Check(env, zero, 1, f, ShortSelf()).ok;
    assert [ShortSelf()][1..] == [];
    assert CheckAll(env, zero, 1, f, [ShortSelf()]) == Check(env, zero, 1, f, ShortSelf());
  }

  // Concrete programs.  `probe` answers a built-in's own number.
  function Probe(): Host {
    Host((f: Ray, args, w) => Returned(I64(if f.Builtin? then f.fn else 0), w),
         (e, w) => Returned(Null, w),
         (g: map<nat, Ray>, id) => if id in g then Bound(g[id]) else Undefined,
         (g: map<nat, Ray>, id, v) => RayfallMachine.Stored(g[id := v]),
         v => v != I64(0))
  }

  const X: nat := 20

  function CallX(): Ray { List([Symbol(X, false), I64(5)]) }
  function BuiltinX(): Ray { Builtin(Unary, false, 1) }
  function EnvX(): (env: CompileEnv) ensures ValidEnv(env) { CompileEnv(map[X := BuiltinX()], {}) }
  function CodeX(): Program { Program([OP_LOADCONST, 0, OP_LOADCONST, 1, OP_CALL1, OP_RET], [BuiltinX(), I64(5)], 1) }

  lemma CallXCompiles()
    ensures CompileLambda(EnvX(), [X], [CallX()]) == Some(CodeX())
  {
    var t := Table([], [X]);
    var t1 := Table([BuiltinX()], [X]);
    var t2 := Table([BuiltinX(), I64(5)], [X]);
    assert [Symbol(X, false), I64(5)][1..] == [I64(5)];
    assert Classify(EnvX(), CallX()) == Call(Symbol(X, false), Some(BuiltinX()), [I64(5)]);
    assert LoadConst(t, BuiltinX()) == Code([OP_LOADCONST, 0], t1);
    assert FindConst([BuiltinX()], I64(5), 0) == 1;
    assert Comp(EnvX(), t1, 0, I64(5)) == Code([OP_LOADCONST, 1], t2);
    assert [I64(5)][1..] == [];
    assert CompArgs(EnvX(), t1, 0, [I64(5)]) == Code([OP_LOADCONST, 1] + [], t2);
    assert Comp(EnvX(), t, 0, CallX()) == Code([OP_LOADCONST, 0] + ([OP_LOADCONST, 1] + [] + [OP_CALL1]), t2);
    assert CompSeq(EnvX(), t, 0, [CallX()]) == Comp(EnvX(), t, 0, CallX());
    assert [OP_LOADCONST, 0] + ([OP_LOADCONST, 1] + [] + [OP_CALL1]) + [OP_RET] == CodeX().code;
  }

  lemma CallXLoads(a: Ray, w: World)
    ensures Run(Probe(), EnvX(), 4, Start(CodeX(), [a], w))
         == Run(Probe(), EnvX(), 2, Running(Vm(CodeX(), 4, [Full(a), Full(BuiltinX()), Full(I64(5))], 0, [], [], w)))
  {
    hide Comp, CompForm, CompArgs;
    var h, env, p := Probe(), EnvX(), CodeX();
    assert Enter(p, [a]) == [Full(a)];
    var c0 := Vm(p, 0, [Full(a)], 0, [], [], w);
    var c1 := Vm(p, 2, [Full(a), Full(BuiltinX())], 0, [], [], w);
    var c2 := Vm(p, 4, [Full(a), Full(BuiltinX()), Full(I64(5))], 0, [], [], w);
    assert Step(h, env, 3, c0) == Running(c1);
    assert Step(h, env, 2, c1) == Running(c2);
    assert Run(h, env, 4, Running(c0)) == Run(h, env, 3, Running(c1)) == Run(h, env, 2, Running(c2));
  }

  lemma CallXCalls(a: Ray, w: World)
    ensures Step(Probe(), EnvX(), 1, Vm(CodeX(), 4, [Full(a), Full(BuiltinX()), Full(I64(5))], 0, [], [], w))
         == Running(Vm(CodeX(), 5, [Full(a), Full(I64(1))], 0, [], [], w))
  {
    hide CompileLambda, Run, Comp;
    var c := Vm(CodeX(), 4, [Full(a), Full(BuiltinX()), Full(I64(5))], 0, [], [], w);
    assert Args(c, 1).value == [I64(5)];
    assert c.ps[..1] == [Full(a)];
  }

  lemma CallXReturns(a: Ray, w: World)
    ensures Step(Probe(), EnvX(), 0, Vm(CodeX(), 5, [Full(a), Full(I64(1))], 0, [], [], w)) == Halted(Value(I64(1), w))
  {
    hide CompileLambda, Run, Comp;
  }

  lemma CallXRuns(a: Ray, w: World)
    ensures Run(Probe(), EnvX(), 4, Start(CodeX(), [a], w)) == Value(I64(1), w)
  {
    hide Comp, CompForm, CompArgs, CompileLambda, Step, Enter;
    CallXLoads(a, w);
    CallXCalls(a, w);
    CallXReturns(a, w);
    var c2 := Vm(CodeX(), 4, [Full(a), Full(BuiltinX()), Full(I64(5))], 0, [], [], w);
    var c3 := Vm(CodeX(), 5, [Full(a), Full(I64(1))], 0, [], [], w);
    assert Run(Probe(), EnvX(), 2, Running(c2)) == Run(Probe(), EnvX(), 1, Running(c3));
  }

  /** A parameter that has the name of a built-in is ignored in head position:
      the built-in is called whatever the argument is.  The static conditions exclude the lambda. */
  lemma ShadowedBuiltinIsStillCalled(a: Ray, w: World)
    ensures var l := Lambda([X], [CallX()]);
      && CallFresh(Probe(), EnvX(), 4, l, [a], w) == Value(I64(1), w)
      && (a.Builtin? ==> Meaning(Probe(), EnvX(), 0, a, [I64(5)], w) == Gave(I64(a.fn), w))
      && !Checked(EnvX(), l)
  {
    hide Comp, CompForm, CompArgs, CompSeq, AddConst, FindConst, Run, Step, Eval;
    CallXCompiles();
    CallXRuns(a, w);
    var l := Lambda([X], [CallX()]);
    assert [Symbol(X, false), I64(5)][1..] == [I64(5)];
    assert Classify(EnvX(), CallX()) == Call(Symbol(X, false), Some(BuiltinX()), [I64(5)]);
    assert X in Names(l.params) by { assert Find(l.params, X) == 0; }
    forall zero ensures !CheckBody(EnvX(), zero, l).ok {
      var f := Flow(true, Names(l.params), Live(Names(l.params)));
      assert CheckAll(EnvX(), zero, 1, f, l.body) == Check(EnvX(), zero, 1, f, CallX());
      if Check(EnvX(), zero, 1, f, CallX()).ok {
        CallParts(EnvX(), zero, 1, f, CallX(), Classify(EnvX(), CallX()));
      }
    }
  }
}
