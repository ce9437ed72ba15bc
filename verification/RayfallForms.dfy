/** What each form of the source means, said of the list it is written as; and what a lambda
    around an `if` gives when it is called. */
module RayfallForms {
  import opened Wrappers
  import opened RayfallSyntax
  import opened RayfallCompile
  import opened RayfallMachine
  import opened RayfallEval
  import opened RayfallSteps
  import opened RayfallMeaning
  import opened RayfallTheorems

  /** A name as it stands in the source. */
  function Name0(id: nat): Ray { Symbol(id, false) }

  lemma Unfold(h: Host, env: CompileEnv, n: nat, self: Ray, e: Ray, fr: Frame, w: World)
    requires ValidEnv(env) && self.Lambda?
    ensures Eval(h, env, n, self, e, fr, w) == EvalForm(h, env, n, self, e, Classify(env, e), fr, w)
  {
  }

  // ---------- atoms ----------

  /** Numbers, quoted symbols, vectors, functions and the empty list stand for themselves. */
  lemma ConstantMeans(h: Host, env: CompileEnv, n: nat, self: Ray, e: Ray, fr: Frame, w: World)
    requires ValidEnv(env) && self.Lambda? && !e.Error? && (e.Symbol? ==> e.quoted) && (e.List? ==> e.elems == [])
    ensures Eval(h, env, n, self, e, fr, w) == Val(e, fr, w)
  {
  }

  /** A name is the local variable of that name, or else what the host finds under it. */
  lemma NameMeans(h: Host, env: CompileEnv, n: nat, self: Ray, id: nat, fr: Frame, w: World)
    requires ValidEnv(env) && self.Lambda? && id != SF_NULL
    ensures Eval(h, env, n, self, Name0(id), fr, w) ==
      if id in fr then Val(fr[id], fr, w)
      else match h.resolve(w.globals, id)
        case Bound(v) => Val(v, fr, w)
        case Undefined => Fail(Bare(ERR_NAME), fr, w)
        case Faulty(x) => Fail(Thrown(x), fr, w)
  {
  }

  lemma NullMeans(h: Host, env: CompileEnv, n: nat, self: Ray, fr: Frame, w: World)
    requires ValidEnv(env) && self.Lambda?
    ensures Eval(h, env, n, self, Name0(SF_NULL), fr, w) == Val(Null, fr, w)
  {
  }

  // ---------- forms ----------

  /** (if c a b): what c leaves behind goes on into a if c is true, and into b if not. */
  lemma IfMeans(h: Host, env: CompileEnv, n: nat, self: Ray, c: Ray, a: Ray, b: Ray, more: seq<Ray>, fr: Frame, w: World)
    requires ValidEnv(env) && self.Lambda?
    ensures var p := Eval(h, env, n, self, c, fr, w);
      Eval(h, env, n, self, List([Name0(SF_IF), c, a, b] + more), fr, w) ==
        if !p.Val? then p
        else if h.truthy(p.v) then Eval(h, env, n, self, a, p.fr, p.w)
        else Eval(h, env, n, self, b, p.fr, p.w)
  {
    hide Eval;
    var e := List([Name0(SF_IF), c, a, b] + more);
    assert Classify(env, e) == If(c, a, Some(b));
    Unfold(h, env, n, self, e, fr, w);
  }

  /** (if c a): without b, a false condition gives 0. */
  lemma IfShortMeans(h: Host, env: CompileEnv, n: nat, self: Ray, c: Ray, a: Ray, fr: Frame, w: World)
    requires ValidEnv(env) && self.Lambda?
    ensures var p := Eval(h, env, n, self, c, fr, w);
      Eval(h, env, n, self, List([Name0(SF_IF), c, a]), fr, w) ==
        if !p.Val? then p
        else if h.truthy(p.v) then Eval(h, env, n, self, a, p.fr, p.w)
        else Val(I64(0), p.fr, p.w)
  {
    hide Eval;
    var e := List([Name0(SF_IF), c, a]);
    assert Classify(env, e) == If(c, a, None);
    Unfold(h, env, n, self, e, fr, w);
  }

  /** (set x v): v is bound to the global name x, and is the result, unless the host refuses. */
  lemma SetMeans(h: Host, env: CompileEnv, n: nat, self: Ray, x: nat, quoted: bool, v: Ray, fr: Frame, w: World)
    requires ValidEnv(env) && self.Lambda?
    ensures var p := Eval(h, env, n, self, v, fr, w);
      Eval(h, env, n, self, List([Name0(SF_SET), Symbol(x, quoted), v]), fr, w) ==
        if !p.Val? then p
        else match h.bind(p.w.globals, x, p.v)
          case Stored(g) => Val(p.v, p.fr, World(g, p.w.raised))
          case Denied(err) => Fail(Thrown(err), p.fr, p.w)
  {
    hide Eval;
    var e := List([Name0(SF_SET), Symbol(x, quoted), v]);
    assert Classify(env, e) == Set(Symbol(x, quoted), v);
    Unfold(h, env, n, self, e, fr, w);
  }

  /** (let x v): v is bound to the local name x, and is the result; no other name changes. */
  lemma LetMeans(h: Host, env: CompileEnv, n: nat, self: Ray, x: nat, quoted: bool, v: Ray, fr: Frame, w: World)
    requires ValidEnv(env) && self.Lambda?
    ensures var p := Eval(h, env, n, self, v, fr, w);
      Eval(h, env, n, self, List([Name0(SF_LET), Symbol(x, quoted), v]), fr, w) ==
        if p.Val? then Val(p.v, p.fr[x := p.v], p.w) else p
  {
    hide Eval;
    var e := List([Name0(SF_LET), Symbol(x, quoted), v]);
    assert Classify(env, e) == Let(Symbol(x, quoted), v);
    Unfold(h, env, n, self, e, fr, w);
  }

  /** (do e ...): one after the other, each in what the one before left; the last is the result. */
  lemma DoMeans(h: Host, env: CompileEnv, n: nat, self: Ray, e: Ray, more: seq<Ray>, fr: Frame, w: World)
    requires ValidEnv(env) && self.Lambda?
    ensures var p := Eval(h, env, n, self, e, fr, w);
      Eval(h, env, n, self, List([Name0(SF_DO), e] + more), fr, w) ==
        if !p.Val? || more == [] then p
        else Eval(h, env, n, self, List([Name0(SF_DO)] + more), p.fr, p.w)
  {
    hide Eval;
    var p := Eval(h, env, n, self, e, fr, w);
    var all, rest := List([Name0(SF_DO), e] + more), List([Name0(SF_DO)] + more);
    DoForm(env, [e] + more);
    assert [Name0(SF_DO)] + ([e] + more) == [Name0(SF_DO), e] + more;
    Unfold(h, env, n, self, all, fr, w);
    assert ([e] + more)[1..] == more;
    if p.Val? && more != [] {
      DoForm(env, more);
      Unfold(h, env, n, self, rest, p.fr, p.w);
    }
  }

  lemma DoForm(env: CompileEnv, es: seq<Ray>)
    requires es != []
    ensures Classify(env, List([Name0(SF_DO)] + es)) == Do(es)
  {
    assert ([Name0(SF_DO)] + es)[1..] == es;
  }

  /** (return) and (return v) leave the lambda with null or v. */
  lemma ReturnMeans(h: Host, env: CompileEnv, n: nat, self: Ray, v: Ray, fr: Frame, w: World)
    requires ValidEnv(env) && self.Lambda?
    ensures Eval(h, env, n, self, List([Name0(SF_RETURN)]), fr, w) == Ret(Null, w)
    ensures var p := Eval(h, env, n, self, v, fr, w);
      Eval(h, env, n, self, List([Name0(SF_RETURN), v]), fr, w) == if p.Val? then Ret(p.v, p.w) else p
  {
    hide Eval;
    assert Classify(env, List([Name0(SF_RETURN)])) == Return(None);
    assert Classify(env, List([Name0(SF_RETURN), v])) == Return(Some(v));
    Unfold(h, env, n, self, List([Name0(SF_RETURN)]), fr, w);
    Unfold(h, env, n, self, List([Name0(SF_RETURN), v]), fr, w);
  }

  /** The error a handler is given: what was raised, else the error object, else 0. */
  ghost predicate GivenTo(x: Ray, f: Fault, raised: Option<Ray>) {
    && (raised.Some? ==> x == raised.value)
    && (raised.None? && f.Thrown? ==> x == f.error)
    && (raised.None? && f.Bare? ==> x == I64(0))
  }

  /** (try b hd): without a failure hd is not evaluated.  After one it is, in what the failure
      left; a lambda or unary built-in is called with the error, anything else is the result. */
  lemma TryMeans(h: Host, env: CompileEnv, n: nat, self: Ray, b: Ray, hd: Ray, fr: Frame, w: World, x: Ray)
    requires ValidEnv(env) && self.Lambda?
    ensures var e := List([Name0(SF_TRY), b, hd]); var p := Eval(h, env, n, self, b, fr, w);
      && (!p.Fail? ==> Eval(h, env, n, self, e, fr, w) == p)
      && (p.Fail? && GivenTo(x, p.f, p.w.raised) ==>
            var q := Eval(h, env, n, self, hd, p.fr, World(p.w.globals, None));
            Eval(h, env, n, self, e, fr, w) ==
              if !q.Val? then q
              else if !q.v.Lambda? && !(q.v.Builtin? && q.v.arity.Unary?) then q
              else HandlerCalled(Apply(h, env, n, q.v, [x], q.w), q.fr))
  {
    hide Eval, Apply;
    var e := List([Name0(SF_TRY), b, hd]);
    assert Classify(env, e) == Try(b, hd);
    Unfold(h, env, n, self, e, fr, w);
    var p := Eval(h, env, n, self, b, fr, w);
    if p.Fail? && GivenTo(x, p.f, p.w.raised) {
      assert p.w.(raised := None) == World(p.w.globals, None);
      assert Caught(p.f, p.w) == x;
      HandlerMeans(h, env, n, x, Eval(h, env, n, self, hd, p.fr, World(p.w.globals, None)));
    }
  }

  /** A handler that fails fails with an error object. */
  function HandlerCalled(a: Applied, fr: Frame): Out {
    match a
    case Gave(v, w) => Val(v, fr, w)
    case Broke(f, w) => Fail(Thrown(if f.Thrown? then f.error else Error(f.code)), fr, w)
    case OutOfFuel => NoFuel
    case Unchecked => Beyond
  }

  lemma HandlerMeans(h: Host, env: CompileEnv, n: nat, x: Ray, q: Out)
    requires ValidEnv(env)
    ensures Recover(h, env, n, x, q) ==
      if !q.Val? then q
      else if !q.v.Lambda? && !(q.v.Builtin? && q.v.arity.Unary?) then q
      else HandlerCalled(Apply(h, env, n, q.v, [x], q.w), q.fr)
  {
    hide Apply;
  }

  // ---------- calls ----------

  /** Arguments are evaluated from left to right, each in what the one before left. */
  lemma ArgsMean(h: Host, env: CompileEnv, n: nat, self: Ray, e: Ray, more: seq<Ray>, fr: Frame, w: World)
    requires ValidEnv(env) && self.Lambda?
    ensures EvalArgs(h, env, n, self, [], fr, w) == Vals([], fr, w)
    ensures var p := Eval(h, env, n, self, e, fr, w);
      EvalArgs(h, env, n, self, [e] + more, fr, w) ==
        if !p.Val? then NoVals(p)
        else match EvalArgs(h, env, n, self, more, p.fr, p.w)
          case Vals(vs, fr1, w1) => Vals([p.v] + vs, fr1, w1)
          case NoVals(out) => NoVals(out)
  {
    hide Eval;
    assert ([e] + more)[1..] == more;
  }

  /** What a call is once its arguments are known. */
  ghost function Called(h: Host, env: CompileEnv, n: nat, f: Ray, args: Outs): Out
    requires ValidEnv(env)
  {
    match args
    case NoVals(out) => out
    case Vals(vs, fr, w) =>
      match Apply(h, env, n, f, vs, w)
      case Gave(v, w1) => Val(v, fr, w1)
      case Broke(x, w1) => Fail(x, fr, w1)
      case OutOfFuel => NoFuel
      case Unchecked => Beyond
  }

  /** The list is none of the forms: its head is no name of one, or there are too few or too many
      elements behind it. */
  predicate Ordinary(env: CompileEnv, head: Ray, args: seq<Ray>) {
    head.Symbol? && !head.quoted ==>
      && head.id != SF_SELF && (head.id in {SF_SET, SF_LET, SF_TRY} ==> |args| != 2)
      && (head.id in {SF_IF, SF_FN} ==> |args| < 2) && (head.id == SF_DO ==> args == []) && (head.id == SF_RETURN ==> |args| > 1)
      && (head.id in env.fns && env.fns[head.id].Builtin? ==> !env.fns[head.id].special)
  }

  /** (head args ...): the head first, then the arguments, then the call. */
  lemma CallMeans(h: Host, env: CompileEnv, n: nat, self: Ray, head: Ray, args: seq<Ray>, fr: Frame, w: World)
    requires ValidEnv(env) && self.Lambda? && Ordinary(env, head, args)
    ensures var p := Eval(h, env, n, self, head, fr, w);
      Eval(h, env, n, self, List([head] + args), fr, w) ==
        if p.Val? then Called(h, env, n, p.v, EvalArgs(h, env, n, self, args, p.fr, p.w)) else p
  {
    hide Eval, EvalArgs, Apply;
    var e := List([head] + args);
    OrdinaryForm(env, head, args);
    Unfold(h, env, n, self, e, fr, w);
  }

  lemma OrdinaryForm(env: CompileEnv, head: Ray, args: seq<Ray>)
    requires Ordinary(env, head, args)
    ensures var form := Classify(env, List([head] + args)); form.Call? && form.head == head && form.args == args
  {
    assert ([head] + args)[1..] == args;
  }

  /** A `fn` form, and the form of a built-in that does not want its arguments evaluated, goes to
      the tree walker as it stands. */
  lemma WalkedMeans(h: Host, env: CompileEnv, n: nat, self: Ray, id: nat, args: seq<Ray>, fr: Frame, w: World)
    requires ValidEnv(env) && self.Lambda?
    requires (id == SF_FN && |args| >= 2) || (id !in {SF_SET, SF_LET, SF_IF, SF_DO, SF_FN, SF_SELF, SF_TRY, SF_RETURN}
                                              && id in env.fns && env.fns[id].Builtin? && env.fns[id].special)
    ensures var e := List([Name0(id)] + args);
      Eval(h, env, n, self, e, fr, w) == match h.walk(e, w)
        case Returned(v, w1) => Val(v, fr, w1)
        case Refused(x, w1) => Fail(Thrown(x), fr, w1)
  {
    hide Eval;
    var e := List([Name0(id)] + args);
    assert Classify(env, e).Fn? || Classify(env, e).Special?;
    Unfold(h, env, n, self, e, fr, w);
  }

  /** (self args ...): a call of the lambda itself. */
  lemma SelfMeans(h: Host, env: CompileEnv, n: nat, self: Ray, args: seq<Ray>, fr: Frame, w: World)
    requires ValidEnv(env) && self.Lambda?
    ensures Eval(h, env, n, self, List([Name0(SF_SELF)] + args), fr, w)
         == Called(h, env, n, self, EvalArgs(h, env, n, self, args, fr, w))
  {
    hide Eval, EvalArgs, Apply;
    var e := List([Name0(SF_SELF)] + args);
    assert ([Name0(SF_SELF)] + args)[1..] == args;
    assert Classify(env, e) == Self(args);
    Unfold(h, env, n, self, e, fr, w);
  }

  /** Anything but a lambda that compiles is called by the host. */
  lemma HostCalls(h: Host, env: CompileEnv, n: nat, f: Ray, args: seq<Ray>, w: World)
    requires ValidEnv(env) && (f.Lambda? ==> CompileLambda(env, f.params, f.body) == None)
    ensures Apply(h, env, n, f, args, w) == match h.prim(f, args, w)
      case Returned(v, w1) => Gave(v, w1)
      case Refused(x, w1) => Broke(Thrown(x), w1)
  {
    hide CompileLambda;
  }

  /** Calling a lambda is evaluating its body as a `do`, with its parameters bound and nothing else;
      an early return is its value. */
  lemma LambdaMeans(h: Host, env: CompileEnv, n: nat, f: Ray, args: seq<Ray>, w: World)
    requires ValidEnv(env) && Checked(env, f) && |args| == |f.params|
    ensures var p := Eval(h, env, n, f, List([Name0(SF_DO)] + f.body), Bind(map[], f.params, args), w);
      var a := Apply(h, env, n + 1, f, args, w);
      && (p.Val? || p.Ret? ==> a == Gave(p.v, p.w)) && (p.Fail? ==> a == Broke(p.f, p.w))
      && (p.NoFuel? ==> a == OutOfFuel) && (p.Beyond? ==> a == Unchecked)
  {
    hide Eval, EvalSeq, CheckBody, CompileLambda;
    DoForm(env, f.body);
    Unfold(h, env, n, f, List([Name0(SF_DO)] + f.body), Bind(map[], f.params, args), w);
    assert Apply(h, env, n + 1, f, args, w) == Body(h, env, n, f, args, w);
  }

  /** A lambda takes exactly as many arguments as it has parameters. */
  lemma ArityMeans(h: Host, env: CompileEnv, n: nat, f: Ray, args: seq<Ray>, w: World)
    requires ValidEnv(env) && f.Lambda? && CompileLambda(env, f.params, f.body).Some? && |args| != |f.params|
    ensures Apply(h, env, n, f, args, w) == Broke(Thrown(Error(ERR_ARITY)), w)
  {
  }

  /** Each parameter is bound to the argument in its place, the last of that name if it recurs. */
  lemma {:induction false} ParameterMeans(params: seq<nat>, args: seq<Ray>, i: nat)
    requires |params| == |args| && i < |params| && forall j :: i < j < |params| ==> params[j] != params[i]
    ensures params[i] in Bind(map[], params, args) && Bind(map[], params, args)[params[i]] == args[i]
    decreases |params|
  {
    var k := |params| - 1;
    if i < k {
      assert params[k] != params[i];
      ParameterMeans(params[..k], args[..k], i);
    }
  }

  lemma {:induction false} OnlyParameters(params: seq<nat>, args: seq<Ray>)
    requires |params| == |args|
    ensures forall x :: x in Bind(map[], params, args) ==> x in params
    decreases |params|
  {
    if params != [] { OnlyParameters(params[..|params| - 1], args[..|args| - 1]); }
  }

  // ---------- through to the compiled lambda ----------

  /** Calling a checked lambda whose body is (if c a b) runs, compiled, into what a means if c is
      true of its arguments, and into what b means if not. */
  lemma CompiledIfMeans(h: Host, env: CompileEnv, n: nat, params: seq<nat>, c: Ray, a: Ray, b: Ray, args: seq<Ray>, w: World)
    requires ValidEnv(env) && KeepsBuiltins(h, env) && Pinned(h, env, w) && |args| == |params|
    requires Checked(env, Lambda(params, [List([Name0(SF_IF), c, a, b])]))
    ensures var l := Lambda(params, [List([Name0(SF_IF), c, a, b])]);
      var p := Eval(h, env, n, l, c, Bind(map[], params, args), w);
      p.Val? ==>
        var q := Eval(h, env, n, l, if h.truthy(p.v) then a else b, p.fr, p.w);
        && (q.Val? ==> exists k: nat :: CallFresh(h, env, k, l, args, w) == Value(q.v, q.w))
        && (q.Ret? ==> exists k: nat :: CallFresh(h, env, k, l, args, w) == Value(q.v, q.w))
        && (q.Fail? ==> exists k: nat :: CallFresh(h, env, k, l, args, w) == Raised(Report(q.f), q.w))
  {
    hide Eval, Checked, CallFresh, KeepsBuiltins, Pinned;
    var e := List([Name0(SF_IF), c, a, b]);
    var l := Lambda(params, [e]);
    var fr := Bind(map[], params, args);
    assert [Name0(SF_IF), c, a, b] + [] == [Name0(SF_IF), c, a, b];
    IfMeans(h, env, n, l, c, a, b, [], fr, w);
    OneExpression(h, env, n, l, e, args, w);
    CompiledCodePreservesMeaning(h, env, l, args, w, n + 1);
  }

  /** A call of a lambda with one expression. */
  lemma OneExpression(h: Host, env: CompileEnv, n: nat, l: Ray, e: Ray, args: seq<Ray>, w: World)
    requires ValidEnv(env) && Checked(env, l) && l.body == [e] && |args| == |l.params|
    ensures var q := Eval(h, env, n, l, e, Bind(map[], l.params, args), w); var m := Meaning(h, env, n + 1, l, args, w);
      && (q.Val? || q.Ret? ==> m == Gave(q.v, q.w))
      && (q.Fail? ==> m == Broke(Thrown(Report(q.f)), q.w))
  {
    hide Eval, EvalSeq, CheckBody, CompileLambda;
    SingleExpression(h, env, n, l, l.body, Bind(map[], l.params, args), w);
    assert Apply(h, env, n + 1, l, args, w) == Body(h, env, n, l, args, w);
    assert l.body[0] == e;
  }

  lemma SingleExpression(h: Host, env: CompileEnv, n: nat, self: Ray, es: seq<Ray>, fr: Frame, w: World)
    requires ValidEnv(env) && self.Lambda? && |es| == 1
    ensures EvalSeq(h, env, n, self, es, fr, w) == Eval(h, env, n, self, es[0], fr, w)
  {
    hide Eval;
  }

  // ---------- a lambda from its list to its bytes and its result ----------

  const X0: nat := 20

  function Choice(): Ray { Lambda([X0], [List([Name0(SF_IF), Name0(X0), I64(1), I64(2)])]) }

  /** Its three parts. */
  lemma ChoiceParts(env: CompileEnv)
    requires ValidEnv(env)
    ensures var t0, t1, t2 := Table([], [X0]), Table([I64(1)], [X0]), Table([I64(1), I64(2)], [X0]);
      && Comp(env, t0, 0, Name0(X0)) == Code([4, 0], t0)
      && Comp(env, t0, 0, I64(1)) == Code([3, 0], t1) && Comp(env, t1, 0, I64(2)) == Code([3, 1], t2)
  {
    assert Find([X0], X0) == 0;
    assert FindConst([I64(1)], I64(2), 0) == 1;
  }

  /** (fn [x] (if x 1 2)) compiles to these bytes. */
  lemma ChoiceCompiles(env: CompileEnv)
    requires ValidEnv(env)
    ensures CompileLambda(env, Choice().params, Choice().body)
         == Some(Program([4, 0, 2, 0, 5, 3, 0, 1, 0, 2, 3, 1, 0], [I64(1), I64(2)], 1))
  {
    hide CompSeq, Comp, Jump;
    var t0, t2 := Table([], [X0]), Table([I64(1), I64(2)], [X0]);
    var e := Choice().body[0];
    assert Classify(env, e) == If(Name0(X0), I64(1), Some(I64(2)));
    ChoiceParts(env);
    CompIs(env, t0, 0, e);
    assert Comp(env, t0, 0, e) == CompIf([4, 0], [3, 0], Code([3, 1], t2));
    OneCode(env, t0, e);
    ChoiceJumps();
    assert [4, 0] + ([2, 0, 5] + ([3, 0] + ([1, 0, 2] + [3, 1]))) + [0] == [4, 0, 2, 0, 5, 3, 0, 1, 0, 2, 3, 1, 0];
  }

  lemma OneCode(env: CompileEnv, t: Table, e: Ray)
    requires ValidEnv(env)
    ensures CompSeq(env, t, 0, [e]) == Comp(env, t, 0, e)
  {
    hide Comp;
  }

  lemma ChoiceJumps()
    ensures Jump(2, 5) == [2, 0, 5] && Jump(1, 2) == [1, 0, 2]
  {
  }

  lemma ChoiceIsChecked(env: CompileEnv)
    requires ValidEnv(env)
    ensures Checked(env, Choice())
  {
    hide CompileLambda, Comp;
    ChoiceCompiles(env);
    var e, zero := Choice().body[0], F64(PLUS_ZERO);
    var f := Flow(true, Names([X0]), Live(Names([X0])));
    assert Classify(env, e) == If(Name0(X0), I64(1), Some(I64(2)));
    assert X0 in Names([X0]) by { assert Find([X0], X0) == 0; }
    assert Check(env, zero, 1, f, Name0(X0)) == f;
    assert Check(env, zero, 1, f, I64(1)) == f && Check(env, zero, 1, f, I64(2)) == f;
    assert Check(env, zero, 1, f, e).ok;
    assert [e][1..] == [];
    assert CheckAll(env, zero, 1, f, [e]) == Check(env, zero, 1, f, e);
  }

  /** Called with x it gives 1 if x is true and 2 if not, whatever the host is. */
  lemma ChoiceGives(h: Host, env: CompileEnv, x: Ray, w: World)
    requires ValidEnv(env) && KeepsBuiltins(h, env) && Pinned(h, env, w)
    ensures exists k: nat :: CallFresh(h, env, k, Choice(), [x], w) == Value(I64(if h.truthy(x) then 1 else 2), w)
  {
    hide Eval, Checked, CallFresh, KeepsBuiltins, Pinned;
    ChoiceIsChecked(env);
    var fr: Frame := map[X0 := x];
    assert Bind(map[], [X0], [x]) == fr;
    NameMeans(h, env, 0, Choice(), X0, fr, w);
    ConstantMeans(h, env, 0, Choice(), I64(1), fr, w);
    ConstantMeans(h, env, 0, Choice(), I64(2), fr, w);
    CompiledIfMeans(h, env, 0, [X0], Name0(X0), I64(1), I64(2), [x], w);
  }
}
