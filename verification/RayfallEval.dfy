/** The meaning of Rayfall source: direct evaluation of a lambda's body with one
    mutable frame per call, and the static conditions under which compiled code
    is expected to agree with it. */
module RayfallEval {
  import opened Wrappers
  import opened RayfallSyntax
  import opened RayfallCompile
  import opened RayfallMachine

  type Frame = map<nat, Ray>

  /** Outcome of one expression.  Beyond: a lambda outside the checked language was called. */
  datatype Out =
    | NoFuel
    | Beyond
    | Val(v: Ray, fr: Frame, w: World)
    | Fail(f: Fault, fr: Frame, w: World)
    | Ret(v: Ray, w: World)

  datatype Outs = Vals(vs: seq<Ray>, fr: Frame, w: World) | NoVals(out: Out)

  /** Outcome of one call. */
  datatype Applied = OutOfFuel | Unchecked | Gave(v: Ray, w: World) | Broke(f: Fault, w: World)

  function Bind(fr: Frame, params: seq<nat>, args: seq<Ray>): Frame
    requires |params| == |args|
  {
    if params == [] then fr
    else Bind(fr, params[..|params| - 1], args[..|args| - 1])[params[|params| - 1] := args[|args| - 1]]
  }

  function Answer(r: Reply, fr: Frame): Out {
    match r
    case Returned(v, w) => Val(v, fr, w)
    case Refused(e, w) => Fail(Thrown(e), fr, w)
  }

  function Lift(a: Applied, fr: Frame): Out {
    match a
    case OutOfFuel => NoFuel
    case Unchecked => Beyond
    case Gave(v, w) => Val(v, fr, w)
    case Broke(f, w) => Fail(f, fr, w)
  }

  function Eval(h: Host, env: CompileEnv, n: nat, self: Ray, e: Ray, fr: Frame, w: World): Out
    requires ValidEnv(env) && self.Lambda?
    decreases n, Size(e), 0, 2
  {
    EvalForm(h, env, n, self, e, Classify(env, e), fr, w)
  }

  function EvalForm(h: Host, env: CompileEnv, n: nat, self: Ray, e: Ray, form: Form, fr: Frame, w: World): Out
    requires ValidEnv(env) && self.Lambda? && Fits(form, Size(e))
    decreases n, Size(e), 0, 1
  {
    match form
    case Nothing => Beyond
    case Constant => Val(e, fr, w)
    case NullName => Val(Null, fr, w)
    case Name(id) =>
      if id in fr then Val(fr[id], fr, w)
      else
        (match h.resolve(w.globals, id)
         case Undefined => Fail(Bare(ERR_NAME), fr, w)
         case Faulty(x) => Fail(Thrown(x), fr, w)
         case Bound(v) => Val(v, fr, w))
    case Set(name, v) =>
      if !name.Symbol? then Beyond else Store(h, name.id, Eval(h, env, n, self, v, fr, w))
    case Let(name, v) =>
      if !name.Symbol? then Beyond else Assign(name.id, Eval(h, env, n, self, v, fr, w))
    case If(c, a, b) =>
      Choose(h, env, n, self, Size(e), Eval(h, env, n, self, c, fr, w), a, b)
    case Do(es) => EvalSeq(h, env, n, self, es, fr, w)
    case Fn => Answer(h.walk(e, w), fr)
    case Try(b, hd) =>
      Guard(h, env, n, self, Size(e), Eval(h, env, n, self, b, fr, w), hd)
    case Return(r) =>
      if r.None? then Ret(Null, w) else Leave(Eval(h, env, n, self, r.value, fr, w))
    case Self(args) => Invoke(h, env, n, self, EvalArgs(h, env, n, self, args, fr, w))
    case Special => Answer(h.walk(e, w), fr)
    case Call(head, _, args) =>
      (match Eval(h, env, n, self, head, fr, w)
       case Val(f, fr1, w1) => Invoke(h, env, n, f, EvalArgs(h, env, n, self, args, fr1, w1))
       case other => other)
  }

  /** An `if` whose condition had this outcome. */
  function Choose(h: Host, env: CompileEnv, n: nat, self: Ray, size: nat, cond: Out, a: Ray, b: Option<Ray>): Out
    requires ValidEnv(env) && self.Lambda? && Size(a) < size && (b.Some? ==> Size(b.value) < size)
    decreases n, size, 0, 0
  {
    match cond
    case Val(x, fr, w) =>
      if h.truthy(x) then Eval(h, env, n, self, a, fr, w)
      else if b.Some? then Eval(h, env, n, self, b.value, fr, w)
      else Val(I64(0), fr, w)
    case other => other
  }

  /** A `try` whose body had this outcome. */
  function Guard(h: Host, env: CompileEnv, n: nat, self: Ray, size: nat, body: Out, hd: Ray): Out
    requires ValidEnv(env) && self.Lambda? && Size(hd) < size
    decreases n, size, 0, 0
  {
    match body
    case Fail(f, fr, w) => Recover(h, env, n, Caught(f, w), Eval(h, env, n, self, hd, fr, w.(raised := None)))
    case other => other
  }

  function Assign(id: nat, out: Out): Out {
    match out
    case Val(x, fr, w) => Val(x, fr[id := x], w)
    case other => other
  }

  function Leave(out: Out): Out {
    match out
    case Val(x, _, w) => Ret(x, w)
    case other => other
  }

  /** The value of a handler expression, applied to the error. */
  function Recover(h: Host, env: CompileEnv, n: nat, err: Ray, out: Out): Out
    requires ValidEnv(env)
    decreases n, 0, 3, 0
  {
    match out
    case Val(x, fr, w) => Lift(Handle(h, env, n, x, err, w), fr)
    case other => other
  }

  function Invoke(h: Host, env: CompileEnv, n: nat, f: Ray, outs: Outs): Out
    requires ValidEnv(env)
    decreases n, 0, 3, 0
  {
    match outs
    case Vals(vs, fr, w) => Lift(Apply(h, env, n, f, vs, w), fr)
    case NoVals(out) => out
  }

  function Store(h: Host, id: nat, out: Out): Out {
    match out
    case Val(x, fr, w) =>
      (match h.bind(w.globals, id, x)
       case Stored(g) => Val(x, fr, w.(globals := g))
       case Denied(e) => Fail(Thrown(e), fr, w))
    case other => other
  }

  function EvalSeq(h: Host, env: CompileEnv, n: nat, self: Ray, es: seq<Ray>, fr: Frame, w: World): Out
    requires ValidEnv(env) && self.Lambda? && es != []
    decreases n, SizeAll(es), 1, |es|
  {
    match Eval(h, env, n, self, es[0], fr, w)
    case Val(x, fr1, w1) => if |es| == 1 then Val(x, fr1, w1) else EvalSeq(h, env, n, self, es[1..], fr1, w1)
    case other => other
  }

  function EvalArgs(h: Host, env: CompileEnv, n: nat, self: Ray, es: seq<Ray>, fr: Frame, w: World): (o: Outs)
    requires ValidEnv(env) && self.Lambda?
    ensures o.Vals? ==> |o.vs| == |es|
    ensures o.NoVals? ==> !o.out.Val?
    decreases n, SizeAll(es), 1, |es|
  {
    if es == [] then Vals([], fr, w)
    else
      match Eval(h, env, n, self, es[0], fr, w)
      case Val(x, fr1, w1) =>
        Prepend(x, EvalArgs(h, env, n, self, es[1..], fr1, w1))
      case other => NoVals(other)
  }

  function Prepend(x: Ray, outs: Outs): Outs {
    match outs
    case Vals(vs, fr, w) => Vals([x] + vs, fr, w)
    case NoVals(out) => NoVals(out)
  }

  /** A call.  A lambda that does not compile is left to the tree walker. */
  function Apply(h: Host, env: CompileEnv, n: nat, f: Ray, args: seq<Ray>, w: World): Applied
    requires ValidEnv(env)
    decreases n, 0, 1, 0
  {
    if f.Lambda? && CompileLambda(env, f.params, f.body).Some? then
      if |args| != |f.params| then Broke(Thrown(Error(ERR_ARITY)), w)
      else if !Checked(env, f) then Unchecked
      else if n == 0 then OutOfFuel
      else Body(h, env, n - 1, f, args, w)
    else
      match h.prim(f, args, w)
      case Returned(v, w1) => Gave(v, w1)
      case Refused(e, w1) => Broke(Thrown(e), w1)
  }

  /** The body of a lambda in a fresh frame; `return` leaves it early. */
  function Body(h: Host, env: CompileEnv, n: nat, f: Ray, args: seq<Ray>, w: World): Applied
    requires ValidEnv(env) && f.Lambda? && |args| == |f.params| && f.body != []
    decreases n, SizeAll(f.body), 2, 0
  {
    match EvalSeq(h, env, n, f, f.body, Bind(map[], f.params, args), w)
    case NoFuel => OutOfFuel
    case Beyond => Unchecked
    case Val(v, _, w1) => Gave(v, w1)
    case Ret(v, w1) => Gave(v, w1)
    case Fail(x, _, w1) => Broke(x, w1)
  }

  /** A try handler: a callable is called with the error, anything else is the result. */
  function Handle(h: Host, env: CompileEnv, n: nat, handler: Ray, err: Ray, w: World): Applied
    requires ValidEnv(env)
    decreases n, 0, 2, 0
  {
    if handler.Lambda? || (handler.Builtin? && handler.arity.Unary?) then
      match Apply(h, env, n, handler, [err], w)
      case Broke(f, w1) => Broke(Thrown(Report(f)), w1)
      case other => other
    else Gave(handler, w)
  }

  /** What a call made from outside the bytecode yields. */
  function Meaning(h: Host, env: CompileEnv, n: nat, f: Ray, args: seq<Ray>, w: World): Applied
    requires ValidEnv(env)
  {
    match Apply(h, env, n, f, args, w)
    case Broke(x, w1) => Broke(Thrown(Report(x)), w1)
    case other => other
  }

  // ---------- the checked language ----------

  /** Locals assigned on every path reaching a point; Dead: no path reaches it. */
  datatype Assigned = Dead | Live(names: set<nat>)

  predicate Covers(a: Assigned, id: nat) { a.Dead? || id in a.names }

  function Join(a: Assigned, b: Assigned): Assigned {
    if a.Dead? then b else if b.Dead? then a else Live(a.names * b.names)
  }

  /** Names in the local table so far, and which of them hold a value. */
  datatype Flow = Flow(ok: bool, table: set<nat>, sure: Assigned)

  /** No local is read before its `let`; no built-in that the code calls by name
      is shadowed or reassigned; self calls pass as many arguments as there are
      parameters; dynamic forms mention no local; `self` is only called; and the
      float `zero`, a zero of one sign, does not occur. */
  function Check(env: CompileEnv, zero: Ray, arity: nat, f: Flow, e: Ray): Flow
    decreases Size(e), 0, 1
  {
    CheckForm(env, zero, arity, f, e, Classify(env, e))
  }

  function CheckForm(env: CompileEnv, zero: Ray, arity: nat, f: Flow, e: Ray, form: Form): Flow
    requires Fits(form, Size(e)) && CalleeOK(env, form)
    decreases Size(e), 0, 0
  {
    match form
    case Nothing => f.(ok := false)
    case Constant => f.(ok := f.ok && e != zero)
    case NullName => f
    case Name(id) => f.(ok := f.ok && id != SF_SELF && (id in f.table ==> Covers(f.sure, id)))
    case Set(name, v) =>
      var g := Check(env, zero, arity, f, v);
      g.(ok := g.ok && name.Symbol? && name.id !in env.fns)
    case Let(name, v) =>
      var g := Check(env, zero, arity, f, v);
      if !name.Symbol? then g.(ok := false)
      else Flow(g.ok, g.table + {name.id}, if g.sure.Dead? then Dead else Live(g.sure.names + {name.id}))
    case If(c, a, b) =>
      var fc := Check(env, zero, arity, f, c);
      var fa := Check(env, zero, arity, fc, a);
      var f1 := Flow(fa.ok, fa.table, fc.sure);
      var fb := if b.Some? then Check(env, zero, arity, f1, b.value) else f1;
      fb.(sure := Join(fa.sure, fb.sure))
    case Do(es) => CheckAll(env, zero, arity, f, es)
    case Fn => f
    case Try(b, hd) =>
      var fb := Check(env, zero, arity, f, b);
      var fh := Check(env, zero, arity, Flow(fb.ok, fb.table, f.sure), hd);
      fh.(sure := Join(fb.sure, fh.sure))
    case Return(r) =>
      var g := if r.Some? then Check(env, zero, arity, f, r.value) else f;
      g.(sure := Dead)
    case Self(args) =>
      var g := CheckAll(env, zero, arity, f, args);
      g.(ok := g.ok && |args| == arity)
    case Special => f.(ok := f.ok && !RefsLocals(f.table, e))
    case Call(head, callee, args) =>
      var g := if callee.Some? then f.(ok := f.ok && head.id !in f.table) else Check(env, zero, arity, f, head);
      CheckAll(env, zero, arity, g, args)
  }

  function CheckAll(env: CompileEnv, zero: Ray, arity: nat, f: Flow, es: seq<Ray>): Flow
    decreases SizeAll(es), 1, |es|
  {
    if es == [] then f else CheckAll(env, zero, arity, Check(env, zero, arity, f, es[0]), es[1..])
  }

  function CheckBody(env: CompileEnv, zero: Ray, l: Ray): Flow
    requires l.Lambda?
  {
    var ps := Names(l.params);
    CheckAll(env, zero, |l.params|, Flow(true, ps, Live(ps)), l.body)
  }

  /** A lambda whose compiled code is claimed to mean what its source means. */
  predicate Checked(env: CompileEnv, l: Ray)
    requires ValidEnv(env)
  {
    && l.Lambda?
    && l.body != []
    && (CheckBody(env, F64(PLUS_ZERO), l).ok || CheckBody(env, F64(MINUS_ZERO), l).ok)
    && CompileLambda(env, l.params, l.body).Some?
    && |CompileLambda(env, l.params, l.body).value.consts| <= 0x1_0000
  }
}
