/** Which lambdas are checked: a condition that can be read off the source. */
module RayfallPlain {
  import opened Wrappers
  import opened RayfallSyntax
  import opened RayfallCompile
  import opened RayfallMachine
  import opened RayfallEval
  import opened RayfallStatic

  /** No `let` inside; no built-in is assigned or called where a local has its name; special forms
      mention no local; self calls have the right number of arguments, and `self` stands nowhere
      else; no float zero with a plus. */
  predicate Plain(env: CompileEnv, arity: nat, locals: set<nat>, e: Ray)
    decreases Size(e), 0, 1
  {
    PlainForm(env, arity, locals, e, Classify(env, e))
  }

  predicate PlainForm(env: CompileEnv, arity: nat, locals: set<nat>, e: Ray, form: Form)
    requires Fits(form, Size(e)) && CalleeOK(env, form)
    decreases Size(e), 0, 0
  {
    match form
    case Nothing => false
    case Constant => e != F64(PLUS_ZERO)
    case NullName => true
    case Name(id) => id != SF_SELF
    case Set(name, v) => name.Symbol? && name.id !in env.fns && Plain(env, arity, locals, v)
    case Let(_, _) => false
    case If(c, a, b) => Plain(env, arity, locals, c) && Plain(env, arity, locals, a) && (b.Some? ==> Plain(env, arity, locals, b.value))
    case Do(es) => PlainAll(env, arity, locals, es)
    case Fn => true
    case Try(b, hd) => Plain(env, arity, locals, b) && Plain(env, arity, locals, hd)
    case Return(r) => r.Some? ==> Plain(env, arity, locals, r.value)
    case Self(args) => |args| == arity && PlainAll(env, arity, locals, args)
    case Special => !RefsLocals(locals, e)
    case Call(head, callee, args) =>
      && (if callee.Some? then head.id !in locals else Plain(env, arity, locals, head))
      && PlainAll(env, arity, locals, args)
  }

  predicate PlainAll(env: CompileEnv, arity: nat, locals: set<nat>, es: seq<Ray>)
    decreases SizeAll(es), 1, |es|
  {
    es == [] || (Plain(env, arity, locals, es[0]) && PlainAll(env, arity, locals, es[1..]))
  }

  /** A body: plain expressions, and local variables bound to them. */
  predicate PlainBody(env: CompileEnv, arity: nat, locals: set<nat>, es: seq<Ray>)
    decreases |es|
  {
    es == [] ||
    match Classify(env, es[0])
    case Let(name, v) => name.Symbol? && Plain(env, arity, locals, v) && PlainBody(env, arity, locals + {name.id}, es[1..])
    case _ => Plain(env, arity, locals, es[0]) && PlainBody(env, arity, locals, es[1..])
  }

  /** Every local of the table holds a value. */
  ghost predicate Filled(f: Flow) { f.ok && (f.sure.Live? ==> f.table <= f.sure.names) }

  /** A plain expression passes, and leaves the locals as they are, if it is ever left. */
  ghost predicate Passes(f: Flow, g: Flow) { g.ok && g.table == f.table && (g.sure == f.sure || g.sure.Dead?) }

  lemma {:induction false} PlainPasses(env: CompileEnv, arity: nat, f: Flow, e: Ray)
    requires Filled(f) && Plain(env, arity, f.table, e)
    ensures Passes(f, Check(env, F64(PLUS_ZERO), arity, f, e))
    decreases Size(e), 0, 1
  {
    hide Check, Plain;
    var zero := F64(PLUS_ZERO);
    PlainIs(env, arity, f.table, e);
    CheckIs(env, zero, arity, f, e);
    match Classify(env, e)
    case Set(name, v) => PlainPasses(env, arity, f, v);
    case If(c, a, b) => PlainIf(env, arity, f, e);
    case Do(es) => PlainAllPass(env, arity, f, es);
    case Try(b, hd) =>
      PlainPasses(env, arity, f, b);
      var fb := Check(env, zero, arity, f, b);
      PlainPasses(env, arity, Flow(fb.ok, fb.table, f.sure), hd);
    case Return(r) => if r.Some? { PlainPasses(env, arity, f, r.value); }
    case Self(args) => PlainAllPass(env, arity, f, args);
    case Call(head, callee, args) =>
      var g := if callee.Some? then f.(ok := f.ok && head.id !in f.table) else Check(env, zero, arity, f, head);
      if callee.None? { PlainPasses(env, arity, f, head); }
      PlainAllPass(env, arity, g, args);
    case _ =>
  }

  lemma PlainIs(env: CompileEnv, arity: nat, locals: set<nat>, e: Ray)
    ensures Plain(env, arity, locals, e) == PlainForm(env, arity, locals, e, Classify(env, e))
  {
  }

  lemma {:induction false} PlainIf(env: CompileEnv, arity: nat, f: Flow, e: Ray)
    requires Filled(f) && Plain(env, arity, f.table, e) && Classify(env, e).If?
    ensures Passes(f, Check(env, F64(PLUS_ZERO), arity, f, e))
    decreases Size(e), 0, 0
  {
    hide Check, Plain;
    var zero := F64(PLUS_ZERO);
    var If(c, a, b) := Classify(env, e);
    PlainIs(env, arity, f.table, e);
    CheckIs(env, zero, arity, f, e);
    var fc := Check(env, zero, arity, f, c);
    PlainPasses(env, arity, f, c);
    var fa := Check(env, zero, arity, fc, a);
    PlainPasses(env, arity, fc, a);
    if b.Some? { PlainPasses(env, arity, Flow(fa.ok, fa.table, fc.sure), b.value); }
  }

  lemma {:induction false} PlainAllPass(env: CompileEnv, arity: nat, f: Flow, es: seq<Ray>)
    requires Filled(f) && PlainAll(env, arity, f.table, es)
    ensures Passes(f, CheckAll(env, F64(PLUS_ZERO), arity, f, es))
    decreases SizeAll(es), 1, |es|
  {
    if es != [] {
      PlainPasses(env, arity, f, es[0]);
      PlainAllPass(env, arity, Check(env, F64(PLUS_ZERO), arity, f, es[0]), es[1..]);
    }
  }

  lemma {:induction false} BodyPasses(env: CompileEnv, arity: nat, f: Flow, es: seq<Ray>)
    requires Filled(f) && PlainBody(env, arity, f.table, es)
    ensures CheckAll(env, F64(PLUS_ZERO), arity, f, es).ok
    decreases |es|
  {
    if es != [] {
      var g := Check(env, F64(PLUS_ZERO), arity, f, es[0]);
      assert Filled(g) && PlainBody(env, arity, g.table, es[1..]) by {
        if Classify(env, es[0]).Let? {
          CheckIs(env, F64(PLUS_ZERO), arity, f, es[0]);
          PlainPasses(env, arity, f, Classify(env, es[0]).value);
        } else {
          PlainPasses(env, arity, f, es[0]);
        }
      }
      BodyPasses(env, arity, g, es[1..]);
    }
  }

  /** Every lambda with such a body that compiles to no more than 65536 constants is checked. */
  lemma PlainIsChecked(env: CompileEnv, l: Ray)
    requires ValidEnv(env) && l.Lambda? && l.body != [] && PlainBody(env, |l.params|, Names(l.params), l.body)
    requires CompileLambda(env, l.params, l.body).Some? && |CompileLambda(env, l.params, l.body).value.consts| <= 65536
    ensures Checked(env, l)
  {
    hide CheckAll, PlainBody, CompileLambda;
    var ps := Names(l.params);
    BodyPasses(env, |l.params|, Flow(true, ps, Live(ps)), l.body);
  }
}
