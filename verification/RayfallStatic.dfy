/** What the checks on a lambda guarantee about its compilation. */
module RayfallStatic {
  import opened Wrappers
  import opened RayfallSyntax
  import opened RayfallCompile
  import opened RayfallMachine
  import opened RayfallEval

  ghost predicate ZeroOfOneSign(zero: Ray) {
    zero == F64(PLUS_ZERO) || zero == F64(MINUS_ZERO)
  }

  /** In a pool without that zero, a constant is found unchanged where it was put. */
  lemma ConstExact(t: Table, x: Ray, zero: Ray, pool: seq<Ray>)
    requires ZeroOfOneSign(zero) && x != zero && zero !in pool
    requires AddConst(t, x).0.consts <= pool
    ensures pool[AddConst(t, x).1] == x
  {
    var r := AddConst(t, x);
    assert pool[r.1] == r.0.consts[r.1];
    assert pool[r.1] != zero;
  }

  lemma NamesAppend(locals: seq<int>, y: int)
    ensures Names(locals + [y]) == if y >= 0 then Names(locals) + {y} else Names(locals)
  {
    var a, b := Names(locals + [y]), if y >= 0 then Names(locals) + {y} else Names(locals);
    forall x: nat ensures x in a <==> x in b { FindAppend(locals, y, x); }
  }

  /** The checks held so far, they know the local table exactly, and no constant is the excluded zero. */
  ghost predicate Tracks(f: Flow, t: Table, zero: Ray) {
    f.ok && f.table == Names(t.locals) && zero !in t.consts
  }

  lemma {:induction false} Static(env: CompileEnv, zero: Ray, arity: nat, t: Table, td: nat, f: Flow, e: Ray)
    requires ValidEnv(env) && ZeroOfOneSign(zero) && Comp(env, t, td, e).Code?
    requires f.table == Names(t.locals) && zero !in t.consts && Check(env, zero, arity, f, e).ok
    ensures Tracks(f, t, zero) && Tracks(Check(env, zero, arity, f, e), Comp(env, t, td, e).table, zero)
    decreases Size(e), 0, 1
  {
    hide Comp, Check;
    CompIs(env, t, td, e);
    CheckIs(env, zero, arity, f, e);
    match Classify(env, e)
    case Set(name, v) => Static(env, zero, arity, t, td, f, v);
    case Let(name, v) =>
      Static(env, zero, arity, t, td, f, v);
      var t1 := Comp(env, t, td, v).table;
      NamesAppend(t1.locals, name.id);
    case If(c, a, b) => StaticIf(env, zero, arity, t, td, f, e);
    case Do(es) => StaticAll(env, zero, arity, t, td, f, es);
    case Try(b, h) => StaticTry(env, zero, arity, t, td, f, e);
    case Return(r) => if r.Some? { Static(env, zero, arity, t, td, f, r.value); }
    case Self(args) => StaticArgs(env, zero, arity, t, td, f, args);
    case Call(head, callee, args) => StaticCall(env, zero, arity, t, td, f, e);
    case _ =>
  }

  lemma {:induction false} StaticIf(env: CompileEnv, zero: Ray, arity: nat, t: Table, td: nat, f: Flow, e: Ray)
    requires ValidEnv(env) && ZeroOfOneSign(zero) && Comp(env, t, td, e).Code? && Classify(env, e).If?
    requires f.table == Names(t.locals) && zero !in t.consts && Check(env, zero, arity, f, e).ok
    ensures Tracks(f, t, zero) && Tracks(Check(env, zero, arity, f, e), Comp(env, t, td, e).table, zero)
    decreases Size(e), 0, 0
  {
    var If(c, a, b) := Classify(env, e);
    var t1 := Comp(env, t, td, c).table;
    var t2 := Comp(env, t1, td, a).table;
    var fc := Check(env, zero, arity, f, c);
    var fa := Check(env, zero, arity, fc, a);
    IfParts(env, zero, arity, f, e, Classify(env, e));
    Static(env, zero, arity, t, td, f, c);
    Static(env, zero, arity, t1, td, fc, a);
    if b.Some? { Static(env, zero, arity, t2, td, Flow(fa.ok, fa.table, fc.sure), b.value); }
  }

  lemma {:induction false} StaticTry(env: CompileEnv, zero: Ray, arity: nat, t: Table, td: nat, f: Flow, e: Ray)
    requires ValidEnv(env) && ZeroOfOneSign(zero) && Comp(env, t, td, e).Code? && Classify(env, e).Try?
    requires f.table == Names(t.locals) && zero !in t.consts && Check(env, zero, arity, f, e).ok
    ensures Tracks(f, t, zero) && Tracks(Check(env, zero, arity, f, e), Comp(env, t, td, e).table, zero)
    decreases Size(e), 0, 0
  {
    var Try(b, h) := Classify(env, e);
    var t0 := t.(locals := t.locals + [HIDDEN]);
    NamesAppend(t.locals, HIDDEN);
    var t1 := Comp(env, t0, td + 1, b).table;
    var fb := Check(env, zero, arity, f, b);
    TryParts(env, zero, arity, f, e, Classify(env, e));
    Static(env, zero, arity, t0, td + 1, f, b);
    Static(env, zero, arity, t1, td, Flow(fb.ok, fb.table, f.sure), h);
  }

  lemma {:induction false} StaticCall(env: CompileEnv, zero: Ray, arity: nat, t: Table, td: nat, f: Flow, e: Ray)
    requires ValidEnv(env) && ZeroOfOneSign(zero) && Comp(env, t, td, e).Code? && Classify(env, e).Call?
    requires f.table == Names(t.locals) && zero !in t.consts && Check(env, zero, arity, f, e).ok
    ensures Tracks(f, t, zero) && Tracks(Check(env, zero, arity, f, e), Comp(env, t, td, e).table, zero)
    decreases Size(e), 0, 0
  {
    var Call(head, callee, args) := Classify(env, e);
    var t1 := (if callee.Some? then LoadConst(t, callee.value) else Comp(env, t, td, head)).table;
    var g := if callee.Some? then f.(ok := f.ok && head.id !in f.table) else Check(env, zero, arity, f, head);
    CallParts(env, zero, arity, f, e, Classify(env, e));
    if callee.None? { Static(env, zero, arity, t, td, f, head); }
    StaticArgs(env, zero, arity, t1, td, g, args);
  }

  lemma {:induction false} StaticAll(env: CompileEnv, zero: Ray, arity: nat, t: Table, td: nat, f: Flow, es: seq<Ray>)
    requires ValidEnv(env) && ZeroOfOneSign(zero) && es != [] && CompSeq(env, t, td, es).Code?
    requires f.table == Names(t.locals) && zero !in t.consts && CheckAll(env, zero, arity, f, es).ok
    ensures Tracks(f, t, zero) && Tracks(CheckAll(env, zero, arity, f, es), CompSeq(env, t, td, es).table, zero)
    decreases SizeAll(es), 1, |es|
  {
    var g := Check(env, zero, arity, f, es[0]);
    CheckAllMono(env, zero, arity, g, es[1..]);
    Static(env, zero, arity, t, td, f, es[0]);
    if |es| > 1 { StaticAll(env, zero, arity, Comp(env, t, td, es[0]).table, td, g, es[1..]); }
  }

  lemma {:induction false} StaticArgs(env: CompileEnv, zero: Ray, arity: nat, t: Table, td: nat, f: Flow, es: seq<Ray>)
    requires ValidEnv(env) && ZeroOfOneSign(zero) && CompArgs(env, t, td, es).Code?
    requires f.table == Names(t.locals) && zero !in t.consts && CheckAll(env, zero, arity, f, es).ok
    ensures Tracks(f, t, zero) && Tracks(CheckAll(env, zero, arity, f, es), CompArgs(env, t, td, es).table, zero)
    decreases SizeAll(es), 1, |es|
  {
    if es != [] {
      var g := Check(env, zero, arity, f, es[0]);
      CheckAllMono(env, zero, arity, g, es[1..]);
      Static(env, zero, arity, t, td, f, es[0]);
      StaticArgs(env, zero, arity, Comp(env, t, td, es[0]).table, td, g, es[1..]);
    }
  }

  /** A failed check stays failed. */
  lemma CheckIs(env: CompileEnv, zero: Ray, arity: nat, f: Flow, e: Ray)
    ensures Check(env, zero, arity, f, e) == CheckForm(env, zero, arity, f, e, Classify(env, e))
  {
  }

  lemma {:induction false} CheckMono(env: CompileEnv, zero: Ray, arity: nat, f: Flow, e: Ray)
    ensures Check(env, zero, arity, f, e).ok ==> f.ok
    decreases Size(e), 0, 0
  {
    hide Check;
    CheckIs(env, zero, arity, f, e);
    match Classify(env, e)
    case Set(name, v) => CheckMono(env, zero, arity, f, v);
    case Let(name, v) => CheckMono(env, zero, arity, f, v);
    case If(c, a, b) =>
      var fc := Check(env, zero, arity, f, c);
      var fa := Check(env, zero, arity, fc, a);
      CheckMono(env, zero, arity, f, c);
      CheckMono(env, zero, arity, fc, a);
      if b.Some? { CheckMono(env, zero, arity, Flow(fa.ok, fa.table, fc.sure), b.value); }
    case Do(es) => CheckAllMono(env, zero, arity, f, es);
    case Try(b, h) =>
      var fb := Check(env, zero, arity, f, b);
      CheckMono(env, zero, arity, f, b);
      CheckMono(env, zero, arity, Flow(fb.ok, fb.table, f.sure), h);
    case Return(r) => if r.Some? { CheckMono(env, zero, arity, f, r.value); }
    case Self(args) => CheckAllMono(env, zero, arity, f, args);
    case Call(head, callee, args) =>
      var g := if callee.Some? then f.(ok := f.ok && head.id !in f.table) else Check(env, zero, arity, f, head);
      if callee.None? { CheckMono(env, zero, arity, f, head); }
      CheckAllMono(env, zero, arity, g, args);
    case _ =>
  }

  lemma IfParts(env: CompileEnv, zero: Ray, arity: nat, f: Flow, e: Ray, form: Form)
    requires Fits(form, Size(e)) && CalleeOK(env, form) && form.If? && CheckForm(env, zero, arity, f, e, form).ok
    ensures var If(c, a, b) := form;
            var fc := Check(env, zero, arity, f, c);
            f.ok && fc.ok && Check(env, zero, arity, fc, a).ok
  {
    var If(c, a, b) := form;
    var fc := Check(env, zero, arity, f, c);
    var fa := Check(env, zero, arity, fc, a);
    CheckMono(env, zero, arity, f, c);
    CheckMono(env, zero, arity, fc, a);
    if b.Some? { CheckMono(env, zero, arity, Flow(fa.ok, fa.table, fc.sure), b.value); }
  }

  lemma TryParts(env: CompileEnv, zero: Ray, arity: nat, f: Flow, e: Ray, form: Form)
    requires Fits(form, Size(e)) && CalleeOK(env, form) && form.Try? && CheckForm(env, zero, arity, f, e, form).ok
    ensures f.ok && Check(env, zero, arity, f, form.body).ok
  {
    var Try(b, h) := form;
    var fb := Check(env, zero, arity, f, b);
    CheckMono(env, zero, arity, f, b);
    CheckMono(env, zero, arity, Flow(fb.ok, fb.table, f.sure), h);
  }

  lemma CallParts(env: CompileEnv, zero: Ray, arity: nat, f: Flow, e: Ray, form: Form)
    requires Fits(form, Size(e)) && CalleeOK(env, form) && form.Call? && CheckForm(env, zero, arity, f, e, form).ok
    ensures var Call(head, callee, args) := form;
            f.ok && if callee.Some? then head.id !in f.table else Check(env, zero, arity, f, head).ok
  {
    var Call(head, callee, args) := form;
    var g := if callee.Some? then f.(ok := f.ok && head.id !in f.table) else Check(env, zero, arity, f, head);
    CheckAllMono(env, zero, arity, g, args);
    if callee.None? { CheckMono(env, zero, arity, f, head); }
  }

  lemma {:induction false} CheckAllMono(env: CompileEnv, zero: Ray, arity: nat, f: Flow, es: seq<Ray>)
    ensures CheckAll(env, zero, arity, f, es).ok ==> f.ok
    decreases SizeAll(es), 1, |es|
  {
    if es != [] {
      CheckAllMono(env, zero, arity, Check(env, zero, arity, f, es[0]), es[1..]);
      CheckMono(env, zero, arity, f, es[0]);
    }
  }
}
