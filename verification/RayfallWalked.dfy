/** A compiled lambda and the walker: what can be seen in the source, and of the host, for
    the two to give the same. */
module RayfallWalked {
  import opened Wrappers
  import opened RayfallSyntax
  import opened RayfallCompile
  import opened RayfallMachine
  import opened RayfallEval
  import opened RayfallMeaning
  import opened RayfallTheorems
  import opened RayfallWalker
  import opened RayfallForms

  /** No error object stands in the source; handlers are values that are not called; every call
      is of a built-in known by name, with as many arguments as it takes, whose name is not in
      locals; `set` leaves such names alone; `let` binds names of locals. */
  predicate Quiet(env: CompileEnv, locals: set<nat>, e: Ray)
    decreases Size(e), 1
  {
    QuietForm(env, locals, Classify(env, e), Size(e))
  }

  predicate QuietForm(env: CompileEnv, locals: set<nat>, form: Form, size: nat)
    requires Fits(form, size)
    decreases size, 0
  {
    match form
    case Nothing => false
    case Set(name, v) => name.Symbol? && name.id !in env.fns && Quiet(env, locals, v)
    case Let(name, v) => name.Symbol? && name.id in locals && Quiet(env, locals, v)
    case If(c, a, b) => Quiet(env, locals, c) && Quiet(env, locals, a) && (b.Some? ==> Quiet(env, locals, b.value))
    case Do(es) => QuietAll(env, locals, es)
    case Try(b, h) => Quiet(env, locals, b) && Classify(env, h).Constant? && !Callable(h)
    case Return(r) => r.Some? ==> Quiet(env, locals, r.value)
    case Self(args) => QuietAll(env, locals, args)
    case Call(head, callee, args) =>
      callee.Some? && head.Symbol? && head.id !in locals && Takes(callee.value, |args|) && QuietAll(env, locals, args)
    case _ => true
  }

  predicate QuietAll(env: CompileEnv, locals: set<nat>, es: seq<Ray>)
    decreases SizeAll(es), 2
  {
    es == [] || (Quiet(env, locals, es[0]) && QuietAll(env, locals, es[1..]))
  }

  // ---------- built-ins stay where they are ----------

  /** Built-ins are bound as at compile time, the frame binds only these names, and no lambda
      outside the checked language was called. */
  ghost predicate Steady(h: Host, env: CompileEnv, locals: set<nat>, out: Out) {
    match out
    case Val(_, fr, w) => Pinned(h, env, w) && fr.Keys <= locals
    case Fail(_, fr, w) => Pinned(h, env, w) && fr.Keys <= locals
    case Ret(_, w) => Pinned(h, env, w)
    case NoFuel => true
    case Beyond => false
  }

  ghost predicate SteadyArgs(h: Host, env: CompileEnv, locals: set<nat>, outs: Outs) {
    match outs
    case Vals(_, fr, w) => Pinned(h, env, w) && fr.Keys <= locals
    case NoVals(out) => Steady(h, env, locals, out)
  }

  lemma ApplyPinned(h: Host, env: CompileEnv, n: nat, f: Ray, args: seq<Ray>, w: World)
    requires ValidEnv(env) && KeepsBuiltins(h, env) && Pinned(h, env, w)
    ensures var r := Apply(h, env, n, f, args, w); r.Gave? || r.Broke? ==> Pinned(h, env, r.w)
  {
    hide CompileLambda, Body, Checked, CallFresh, Pinned;
    if f.Lambda? && CompileLambda(env, f.params, f.body).Some? && |args| == |f.params| {
      if Checked(env, f) { CompiledCodePreservesMeaning(h, env, f, args, w, n); }
    }
  }

  lemma InvokeSteady(h: Host, env: CompileEnv, n: nat, f: Ray, outs: Outs, locals: set<nat>)
    requires ValidEnv(env) && KeepsBuiltins(h, env) && SteadyArgs(h, env, locals, outs)
    requires outs.Vals? ==> !Apply(h, env, n, f, outs.vs, outs.w).Unchecked?
    ensures Steady(h, env, locals, Invoke(h, env, n, f, outs))
  {
    hide Apply, Pinned, KeepsBuiltins;
    if outs.Vals? { ApplyPinned(h, env, n, f, outs.vs, outs.w); }
  }

  lemma StoreSteady(h: Host, env: CompileEnv, id: nat, out: Out, locals: set<nat>)
    requires ValidEnv(env) && KeepsBuiltins(h, env) && Steady(h, env, locals, out) && id !in env.fns
    ensures Steady(h, env, locals, Store(h, id, out))
  {
  }

  lemma AnswerSteady(h: Host, env: CompileEnv, e: Ray, fr: Frame, w: World, locals: set<nat>)
    requires KeepsBuiltins(h, env) && Pinned(h, env, w) && fr.Keys <= locals
    ensures Steady(h, env, locals, Answer(h.walk(e, w), fr))
  {
  }

  /** A call of this lambda never comes to one outside the checked language. */
  ghost predicate Calm(h: Host, env: CompileEnv, n: nat, f: Ray)
    requires ValidEnv(env)
  {
    forall args, w :: Pinned(h, env, w) ==> !Apply(h, env, n, f, args, w).Unchecked?
  }

  lemma QuietIs(env: CompileEnv, h: Host, n: nat, self: Ray, locals: set<nat>, e: Ray, fr: Frame, w: World)
    requires ValidEnv(env) && self.Lambda?
    ensures var form := Classify(env, e);
      && Quiet(env, locals, e) == QuietForm(env, locals, form, Size(e))
      && Tame(h, env, n, self, e, fr, w) == TameForm(h, env, n, self, form, Size(e), fr, w)
      && Eval(h, env, n, self, e, fr, w) == EvalForm(h, env, n, self, e, form, fr, w)
  {
  }

  // ---------- quiet is tame ----------

  lemma {:induction false} QuietTame(h: Host, env: CompileEnv, n: nat, self: Ray, locals: set<nat>, e: Ray, fr: Frame,
                                     w: World)
    requires ValidEnv(env) && KeepsBuiltins(h, env) && self.Lambda? && Calm(h, env, n, self) && Pinned(h, env, w)
    requires fr.Keys <= locals && Quiet(env, locals, e)
    ensures Tame(h, env, n, self, e, fr, w) && Steady(h, env, locals, Eval(h, env, n, self, e, fr, w))
    decreases Size(e), 1
  {
    hide Quiet, QuietAll, Tame, TameSeq, Eval, EvalSeq, EvalArgs, Choose, Guard, Invoke, Store, Classify, Pinned,
         KeepsBuiltins, Calm, Size, SizeAll, Takes;
    QuietIs(env, h, n, self, locals, e, fr, w);
    var form := Classify(env, e);
    match form
    case Set(name, v) =>
      QuietTame(h, env, n, self, locals, v, fr, w);
      StoreSteady(h, env, name.id, Eval(h, env, n, self, v, fr, w), locals);
    case Let(_, v) => QuietTame(h, env, n, self, locals, v, fr, w);
    case If(c, _, _) =>
      QuietTame(h, env, n, self, locals, c, fr, w);
      ChooseTame(h, env, n, self, locals, e, form, fr, w);
    case Do(es) => QuietSeqTame(h, env, n, self, locals, es, fr, w);
    case Try(b, _) =>
      QuietTame(h, env, n, self, locals, b, fr, w);
      GuardTame(h, env, n, self, locals, e, form, fr, w);
    case Fn => AnswerSteady(h, env, e, fr, w, locals);
    case Return(r) => if r.Some? { QuietTame(h, env, n, self, locals, r.value, fr, w); }
    case Self(args) =>
      QuietArgsTame(h, env, n, self, locals, args, fr, w);
      SelfCalm(h, env, n, self, EvalArgs(h, env, n, self, args, fr, w), locals);
      InvokeSteady(h, env, n, self, EvalArgs(h, env, n, self, args, fr, w), locals);
    case Special => AnswerSteady(h, env, e, fr, w, locals);
    case Call(head, callee, args) =>
      HeadKnown(h, env, n, self, locals, e, form, fr, w);
      QuietArgsTame(h, env, n, self, locals, args, fr, w);
      BuiltinCalm(h, env, n, callee.value, EvalArgs(h, env, n, self, args, fr, w));
      InvokeSteady(h, env, n, callee.value, EvalArgs(h, env, n, self, args, fr, w), locals);
    case _ =>
  }

  lemma SelfCalm(h: Host, env: CompileEnv, n: nat, self: Ray, outs: Outs, locals: set<nat>)
    requires ValidEnv(env) && Calm(h, env, n, self) && SteadyArgs(h, env, locals, outs)
    ensures outs.Vals? ==> !Apply(h, env, n, self, outs.vs, outs.w).Unchecked?
  {
    hide Apply, Pinned;
  }

  lemma BuiltinCalm(h: Host, env: CompileEnv, n: nat, f: Ray, outs: Outs)
    requires ValidEnv(env) && f.Builtin?
    ensures outs.Vals? ==> !Apply(h, env, n, f, outs.vs, outs.w).Unchecked?
  {
  }

  /** The head of a quiet call is the built-in that the compiler saw. */
  lemma HeadKnown(h: Host, env: CompileEnv, n: nat, self: Ray, locals: set<nat>, e: Ray, form: Form, fr: Frame,
                  w: World)
    requires ValidEnv(env) && self.Lambda? && Pinned(h, env, w) && fr.Keys <= locals
    requires Fits(form, Size(e)) && CalleeOK(env, form) && form.Call? && QuietForm(env, locals, form, Size(e))
    ensures Eval(h, env, n, self, form.head, fr, w) == Val(form.callee.value, fr, w)
    ensures Tame(h, env, n, self, form.head, fr, w)
  {
    var id := form.head.id;
    assert form.head == Symbol(id, false) && id != SF_NULL;
    assert Classify(env, form.head) == Name(id);
  }

  lemma {:induction false} ChooseTame(h: Host, env: CompileEnv, n: nat, self: Ray, locals: set<nat>, e: Ray, form: Form,
                                      fr: Frame, w: World)
    requires ValidEnv(env) && KeepsBuiltins(h, env) && self.Lambda? && Calm(h, env, n, self) && Fits(form, Size(e))
    requires form.If? && QuietForm(env, locals, form, Size(e))
    requires Tame(h, env, n, self, form.cond, fr, w) && Steady(h, env, locals, Eval(h, env, n, self, form.cond, fr, w))
    ensures TameForm(h, env, n, self, form, Size(e), fr, w)
    ensures Steady(h, env, locals, EvalForm(h, env, n, self, e, form, fr, w))
    decreases Size(e), 0
  {
    hide Quiet, Tame, Eval, Pinned, KeepsBuiltins, Calm;
    var q := Eval(h, env, n, self, form.cond, fr, w);
    if q.Val? {
      if h.truthy(q.v) { QuietTame(h, env, n, self, locals, form.then_, q.fr, q.w); }
      else if form.else_.Some? { QuietTame(h, env, n, self, locals, form.else_.value, q.fr, q.w); }
    }
  }

  lemma GuardTame(h: Host, env: CompileEnv, n: nat, self: Ray, locals: set<nat>, e: Ray, form: Form, fr: Frame,
                  w: World)
    requires ValidEnv(env) && KeepsBuiltins(h, env) && self.Lambda? && Calm(h, env, n, self) && Fits(form, Size(e))
    requires form.Try? && QuietForm(env, locals, form, Size(e))
    requires Tame(h, env, n, self, form.body, fr, w) && Steady(h, env, locals, Eval(h, env, n, self, form.body, fr, w))
    ensures TameForm(h, env, n, self, form, Size(e), fr, w)
    ensures Steady(h, env, locals, EvalForm(h, env, n, self, e, form, fr, w))
  {
    hide Quiet, Tame, Eval, KeepsBuiltins, Pinned, Calm;
    var q := Eval(h, env, n, self, form.body, fr, w);
    if q.Fail? {
      var w1 := q.w.(raised := None);
      HandlerStands(h, env, n, self, form.handler, q.fr, w1);
      PinnedGlobals(h, env, q.w, None);
      StandsFor(h, env, n, self, Size(e), q, form.handler);
    }
  }

  lemma HandlerStands(h: Host, env: CompileEnv, n: nat, self: Ray, hd: Ray, fr: Frame, w: World)
    requires ValidEnv(env) && self.Lambda? && Classify(env, hd).Constant?
    ensures Eval(h, env, n, self, hd, fr, w) == Val(hd, fr, w) && Tame(h, env, n, self, hd, fr, w)
  {
  }

  /** A failure ends in the handler's value, which is not called. */
  lemma StandsFor(h: Host, env: CompileEnv, n: nat, self: Ray, size: nat, q: Out, hd: Ray)
    requires ValidEnv(env) && self.Lambda? && Size(hd) < size && q.Fail? && !Callable(hd)
    requires var w1 := q.w.(raised := None); Eval(h, env, n, self, hd, q.fr, w1) == Val(hd, q.fr, w1)
    ensures Guard(h, env, n, self, size, q, hd) == Val(hd, q.fr, q.w.(raised := None))
  {
    hide Eval;
    var w1 := q.w.(raised := None);
    assert Handle(h, env, n, hd, Caught(q.f, q.w), w1) == Gave(hd, w1);
  }

  lemma {:induction false} QuietSeqTame(h: Host, env: CompileEnv, n: nat, self: Ray, locals: set<nat>, es: seq<Ray>,
                                        fr: Frame, w: World)
    requires ValidEnv(env) && KeepsBuiltins(h, env) && self.Lambda? && Calm(h, env, n, self) && Pinned(h, env, w)
    requires fr.Keys <= locals && QuietAll(env, locals, es)
    ensures TameSeq(h, env, n, self, es, fr, w)
    ensures (es != [] ==> Steady(h, env, locals, EvalSeq(h, env, n, self, es, fr, w)))
    decreases SizeAll(es), 2
  {
    hide Quiet, Tame, Eval, Pinned, KeepsBuiltins, Calm;
    if es != [] {
      QuietTame(h, env, n, self, locals, es[0], fr, w);
      var q := Eval(h, env, n, self, es[0], fr, w);
      if q.Val? { QuietSeqTame(h, env, n, self, locals, es[1..], q.fr, q.w); }
    }
  }

  lemma {:induction false} QuietArgsTame(h: Host, env: CompileEnv, n: nat, self: Ray, locals: set<nat>, es: seq<Ray>,
                                         fr: Frame, w: World)
    requires ValidEnv(env) && KeepsBuiltins(h, env) && self.Lambda? && Calm(h, env, n, self) && Pinned(h, env, w)
    requires fr.Keys <= locals && QuietAll(env, locals, es)
    ensures TameSeq(h, env, n, self, es, fr, w) && SteadyArgs(h, env, locals, EvalArgs(h, env, n, self, es, fr, w))
    decreases SizeAll(es), 2
  {
    hide Quiet, Tame, Eval, Pinned, KeepsBuiltins, Calm;
    if es != [] {
      QuietTame(h, env, n, self, locals, es[0], fr, w);
      var q := Eval(h, env, n, self, es[0], fr, w);
      if q.Val? { QuietArgsTame(h, env, n, self, locals, es[1..], q.fr, q.w); }
    }
  }

  // ---------- the walker instead of the code ----------

  function Params(ps: seq<nat>): set<nat> { set p | p in ps }

  lemma {:induction false} BindKeys(params: seq<nat>, args: seq<Ray>)
    requires |params| == |args|
    ensures Bind(map[], params, args).Keys <= Params(params)
    decreases |params|
  {
    if params != [] { BindKeys(params[..|params| - 1], args[..|args| - 1]); }
  }

  function Locals(env: CompileEnv, f: Ray): set<nat>
    requires f.Lambda?
  {
    Params(f.params) + LetsAll(env, f.body)
  }

  /** Neither does a quiet lambda call itself out of the checked language. */
  lemma {:induction false} QuietCalm(h: Host, env: CompileEnv, n: nat, f: Ray)
    requires ValidEnv(env) && KeepsBuiltins(h, env) && Checked(env, f) && QuietAll(env, Locals(env, f), f.body)
    ensures Calm(h, env, n, f)
    decreases n
  {
    if n > 0 {
      QuietCalm(h, env, n - 1, f);
      forall args, w | Pinned(h, env, w) ensures !Apply(h, env, n, f, args,
                                                        w).Unchecked? { QuietApply(h, env, n, f, args, w); }
    }
  }

  lemma QuietApply(h: Host, env: CompileEnv, n: nat, f: Ray, args: seq<Ray>, w: World)
    requires ValidEnv(env) && KeepsBuiltins(h, env) && Checked(env, f) && QuietAll(env, Locals(env, f), f.body)
    requires Pinned(h, env, w) && n > 0 && Calm(h, env, n - 1, f)
    ensures !Apply(h, env, n, f, args, w).Unchecked?
  {
    hide EvalSeq, QuietAll, CheckBody, CompileLambda, Pinned, KeepsBuiltins, Calm;
    if |args| == |f.params| {
      BindKeys(f.params, args);
      QuietSeqTame(h, env, n - 1, f, Locals(env, f), f.body, Bind(map[], f.params, args), w);
    }
  }

  /** A checked lambda that is plain and quiet can be walked instead of run: as far as there
      is fuel, the walk gives what the machine gives, for every argument list and world. */
  lemma WalkedIsCompiled(h: Host, env: CompileEnv, n: nat, f: Ray, args: seq<Ray>, w: World)
    requires ValidEnv(env) && KeepsBuiltins(h, env) && Pinned(h, env, w) && Checked(env, f)
    requires Plain(env, f) && QuietAll(env, Locals(env, f), f.body) && |args| == |f.params|
    ensures var p := WalkBody(h, env, n, f, args, w);
      && (p.OutOfFuel? ==> CallFresh(h, env, n, f, args, w) == Timeout)
      && (!p.OutOfFuel? ==> (p.Gave? || p.Broke?) && exists k: nat :: CallFresh(h, env, k, f, args, w) == Observed(p))
  {
    CheckedShape(env, f);
    hide WalkBody, Body, QuietAll, Plain, Checked, CallFresh, KeepsBuiltins, Pinned;
    BindKeys(f.params, args);
    QuietCalm(h, env, n, f);
    QuietSeqTame(h, env, n, f, Locals(env, f), f.body, Bind(map[], f.params, args), w);
    WalkedBodyAgrees(h, env, n, f, args, w);
    BodyIsMeaning(h, env, n, f, args, w);
    CompiledCodePreservesMeaning(h, env, f, args, w, n + 1);
    BodyEnds(h, env, n, f, args, w);
    var p := Body(h, env, n, f, args, w);
    if p.Broke? { assert Observed(Meaning(h, env, n + 1, f, args, w)) == Observed(p); }
  }

  lemma CheckedShape(env: CompileEnv, f: Ray)
    requires ValidEnv(env) && Checked(env, f)
    ensures f.Lambda? && f.body != []
  {
  }

  lemma BodyEnds(h: Host, env: CompileEnv, n: nat, f: Ray, args: seq<Ray>, w: World)
    requires ValidEnv(env) && f.Lambda? && |args| == |f.params| && f.body != []
    requires !EvalSeq(h, env, n, f, f.body, Bind(map[], f.params, args), w).Beyond?
    ensures !Body(h, env, n, f, args, w).Unchecked?
  {
    hide EvalSeq;
  }

  lemma BodyIsMeaning(h: Host, env: CompileEnv, n: nat, f: Ray, args: seq<Ray>, w: World)
    requires ValidEnv(env) && Checked(env, f) && |args| == |f.params|
    ensures var p := Body(h, env, n, f, args, w);
      Meaning(h, env, n + 1, f, args, w) == if p.Broke? then Broke(Thrown(Report(p.f)), p.w) else p
  {
    hide Body;
  }

  /** (fn [x] (if x 1 2)) is such a lambda. */
  lemma ChoiceWalks(env: CompileEnv)
    requires ValidEnv(env)
    ensures Checked(env, Choice()) && Plain(env, Choice()) && QuietAll(env, Locals(env, Choice()), Choice().body)
  {
    hide CompileLambda, Checked;
    ChoiceIsChecked(env);
    var e, locals := Choice().body[0], Locals(env, Choice());
    assert Choice().body == [e] && [e][1..] == [];
    assert Classify(env, e) == If(Name0(X0), I64(1), Some(I64(2)));
    assert Quiet(env, locals, Name0(X0)) && Quiet(env, locals, I64(1)) && Quiet(env, locals, I64(2));
    assert Quiet(env, locals, e);
    ChoiceIsClear(env, e);
  }

  lemma ChoiceIsClear(env: CompileEnv, e: Ray)
    requires e == Choice().body[0]
    ensures ClearAll(env, {SF_SELF}, [e]) && TailAll(env, [e])
  {
    hide CompileLambda;
    var x := {SF_SELF};
    assert [e][1..] == [];
    assert Classify(env, e) == If(Name0(X0), I64(1), Some(I64(2)));
    var y := x + Hidden(env, Name0(X0));
    assert Hidden(env, Name0(X0)) == {};
    assert Clear(env, x, Name0(X0)) && Clear(env, y, I64(1)) && Clear(env, y, I64(2));
    assert Clear(env, x, e);
    assert NoReturn(env, Name0(X0)) && NoReturn(env, I64(1)) && NoReturn(env, I64(2));
    assert NoReturn(env, e);
  }
}
