/** Compiled code means what its source means: the simulation of direct
    evaluation by the bytecode machine. */
module RayfallMeaning {
  import opened Wrappers
  import opened RayfallSyntax
  import opened RayfallCompile
  import opened RayfallMachine
  import opened RayfallEval
  import opened RayfallSteps
  import opened RayfallStatic

  /** Nothing outside the bytecode rebinds a built-in that compiled code calls by name. */
  ghost predicate KeepsBuiltins(h: Host, env: CompileEnv) {
    && (forall f, args, w :: Pinned(h, env, w) ==> Pinned(h, env, h.prim(f, args, w).w))
    && (forall e, w :: Pinned(h, env, w) ==> Pinned(h, env, h.walk(e, w).w))
    && (forall w: World, s: nat, x :: Pinned(h, env, w) && s !in env.fns && h.bind(w.globals, s, x).Stored?
          ==> Pinned(h, env, w.(globals := h.bind(w.globals, s, x).globals)))
  }

  lemma PinnedGlobals(h: Host, env: CompileEnv, w: World, raised: Option<Ray>)
    requires Pinned(h, env, w)
    ensures Pinned(h, env, w.(raised := raised))
  {
  }

  /** Every variable of the source frame sits in its slot. */
  ghost predicate FrameOK(locals: seq<int>, fr: Frame, loc: seq<Cell>) {
    && |locals| <= |loc|
    && forall x: nat :: x in fr ==> Find(locals, x) >= 0 && loc[Find(locals, x)] == Full(fr[x])
  }

  /** Hidden slots are not touched. */
  ghost predicate Kept(keep: seq<int>, a: seq<Cell>, b: seq<Cell>) {
    && |keep| <= |a| == |b|
    && forall i :: 0 <= i < |keep| && keep[i] == HIDDEN ==> b[i] == a[i]
  }

  /** What the code of an expression is to achieve from a state v. */
  datatype Goal = Goal(ip: nat, locals: seq<int>, keep: seq<int>, td: nat, flow: Flow, before: Frame)

  ghost predicate Agrees(h: Host, env: CompileEnv, n: nat, out: Out, v: View, g: Goal, loc: seq<Cell>)
    requires ValidEnv(env)
  {
    match out
    case NoFuel => Run(h, env, n, v.Conf()) == Timeout
    case Beyond => true
    case Val(x, fr, w) =>
      && Pinned(h, env, w) && FrameOK(g.locals, fr, loc) && Kept(g.keep, v.loc, loc)
      && g.flow.sure.Live? && g.flow.sure.names <= fr.Keys && g.before.Keys <= fr.Keys
      && Leads(h, env, v.Conf(), v.(ip := g.ip, loc := loc, ops := v.ops + [x], w := w).Conf())
    case Fail(f, fr, w) =>
      && Pinned(h, env, w) && FrameOK(g.locals, fr, loc) && Kept(g.keep, v.loc, loc)
      && g.before.Keys <= fr.Keys
      && Leads(h, env, v.Conf(), Unwind(v.(loc := loc, w := w).Vm(), f))
    case Ret(x, w) =>
      Pinned(h, env, w) && g.td <= |v.ts| && Leads(h, env, v.Conf(), Left(v, g.td, x, w))
  }

  ghost predicate AgreesArgs(h: Host, env: CompileEnv, n: nat, outs: Outs, v: View, g: Goal, loc: seq<Cell>)
    requires ValidEnv(env)
  {
    match outs
    case Vals(xs, fr, w) =>
      && Pinned(h, env, w) && FrameOK(g.locals, fr, loc) && Kept(g.keep, v.loc, loc)
      && g.flow.sure.Live? && g.flow.sure.names <= fr.Keys && g.before.Keys <= fr.Keys
      && Leads(h, env, v.Conf(), v.(ip := g.ip, loc := loc, ops := v.ops + xs, w := w).Conf())
    case NoVals(out) => !out.Val? && Agrees(h, env, n, out, v, g, loc)
  }

  /** fn is what the checked lambda self compiles to.  Only self calls need to know. */
  ghost predicate CodeOf(env: CompileEnv, self: Ray, fn: Program)
    requires ValidEnv(env) && self.Lambda?
  {
    Checked(env, self) && CompileLambda(env, self.params, self.body) == Some(fn)
  }

  /** fn is the code of the checked lambda self, in which that zero does not occur. */
  ghost predicate Owner(h: Host, env: CompileEnv, self: Ray, zero: Ray, fn: Program) {
    && ValidEnv(env) && KeepsBuiltins(h, env)
    && self.Lambda? && |fn.consts| <= 0x1_0000 && zero !in fn.consts && ZeroOfOneSign(zero)
    && CodeOf(env, self, fn)
  }

  /** v is about to run code of self that was compiled at table t. */
  ghost predicate Ready(h: Host, env: CompileEnv, self: Ray, zero: Ray, t: Table, td: nat, f: Flow, fr: Frame, v: View) {
    && Owner(h, env, self, zero, v.fn)
    && v.Valid() && Pinned(h, env, v.w) && td <= |v.ts|
    && t.consts <= v.fn.consts
    && f.sure.Live? && f.table == Names(t.locals) && f.sure.names <= fr.Keys
    && FrameOK(t.locals, fr, v.loc)
  }

  ghost predicate Placed(env: CompileEnv, c: Emitted, v: View) {
    && c.Code? && c.table.consts <= v.fn.consts && |c.table.locals| <= v.fn.nlocals
    && At(v.fn.code, v.ip, c.bytes)
  }

  // ---------- gluing ----------

  lemma FrameGrows(a: seq<int>, b: seq<int>, fr: Frame, loc: seq<Cell>)
    requires Extends(a, b) && FrameOK(a, fr, loc) && |b| <= |loc|
    ensures FrameOK(b, fr, loc)
  {
    forall x: nat | x in fr ensures Find(b, x) >= 0 && loc[Find(b, x)] == Full(fr[x]) {
      assert Find(a, x) >= 0;
    }
  }

  lemma KeptTrans(keep: seq<int>, more: seq<int>, a: seq<Cell>, b: seq<Cell>, c: seq<Cell>)
    requires keep <= more && Kept(keep, a, b) && Kept(more, b, c)
    ensures Kept(keep, a, c)
  {
    forall i | 0 <= i < |keep| && keep[i] == HIDDEN ensures c[i] == a[i] {
      assert more[i] == HIDDEN;
    }
  }

  /** u is reached from v inside the same frame, with further operands on top. */
  ghost predicate Reaches(h: Host, env: CompileEnv, v: View, u: View, extra: seq<Ray>)
    requires ValidEnv(env)
  {
    && v.Valid() && Leads(h, env, v.Conf(), u.Conf()) && Pinned(h, env, u.w)
    && u == v.(ip := u.ip, loc := u.loc, ops := v.ops + extra, w := u.w) && |u.loc| == |v.loc|
  }

  /** An expression that does not end in a value decides the outcome of the one around it. */
  lemma Abort(h: Host, env: CompileEnv, n: nat, out: Out, v: View, u: View, extra: seq<Ray>, gu: Goal, g: Goal, loc: seq<Cell>)
    requires ValidEnv(env) && !out.Val? && Reaches(h, env, v, u, extra)
    requires Agrees(h, env, n, out, u, gu, loc)
    requires gu.td == g.td && Extends(gu.locals, g.locals) && |g.locals| <= |v.loc|
    requires g.keep <= gu.keep && Kept(g.keep, v.loc, u.loc) && g.before.Keys <= gu.before.Keys
    ensures Agrees(h, env, n, out, v, g, loc)
  {
    match out
    case NoFuel => LeadsTimeout(h, env, v.Conf(), u.Conf(), n);
    case Beyond =>
    case Fail(f, fr, w) =>
      FrameGrows(gu.locals, g.locals, fr, loc);
      KeptTrans(g.keep, gu.keep, v.loc, u.loc, loc);
      UnwindOps(v.(loc := loc, w := w), extra, u.ip, f);
      assert u.(loc := loc, w := w) == v.(loc := loc, w := w).(ip := u.ip, ops := v.ops + extra);
      LeadsTrans(h, env, v.Conf(), u.Conf(), Unwind(v.(loc := loc, w := w).Vm(), f));
    case Ret(x, w) =>
      LeadsTrans(h, env, v.Conf(), u.Conf(), Left(u, g.td, x, w));
  }

  /** The same, when the expression is the first to run. */
  lemma AbortFirst(h: Host, env: CompileEnv, n: nat, out: Out, v: View, gu: Goal, g: Goal, loc: seq<Cell>)
    requires ValidEnv(env) && !out.Val? && Agrees(h, env, n, out, v, gu, loc)
    requires gu.td == g.td && Extends(gu.locals, g.locals) && |g.locals| <= |v.loc|
    requires g.keep == gu.keep && g.before == gu.before
    ensures Agrees(h, env, n, out, v, g, loc)
  {
    if out.Fail? { FrameGrows(gu.locals, g.locals, out.fr, loc); }
  }

  /** The last expression of a form decides its outcome. */
  lemma Finish(h: Host, env: CompileEnv, n: nat, out: Out, v: View, u: View, gu: Goal, g: Goal, loc: seq<Cell>)
    requires ValidEnv(env) && Reaches(h, env, v, u, [])
    requires Agrees(h, env, n, out, u, gu, loc)
    requires gu.ip == g.ip && gu.td == g.td && Extends(gu.locals, g.locals) && |g.locals| <= |v.loc|
    requires g.keep <= gu.keep && Kept(g.keep, v.loc, u.loc) && g.before.Keys <= gu.before.Keys
    requires gu.flow.sure.Live? ==> g.flow.sure.Live? && g.flow.sure.names <= gu.flow.sure.names
    ensures Agrees(h, env, n, out, v, g, loc)
  {
    if out.Val? {
      FrameGrows(gu.locals, g.locals, out.fr, loc);
      KeptTrans(g.keep, gu.keep, v.loc, u.loc, loc);
      assert v.ops + [] == v.ops;
      LeadsTrans(h, env, v.Conf(), u.Conf(), v.(ip := g.ip, loc := loc, ops := v.ops + [out.v], w := out.w).Conf());
    } else {
      Abort(h, env, n, out, v, u, [], gu, g, loc);
    }
  }

  /** An expression ended in a value and the code continues at u with that value gone. */
  lemma Consumed(h: Host, env: CompileEnv, n: nat, out: Out, v: View, g: Goal, loc: seq<Cell>, u: View)
    requires ValidEnv(env) && v.Valid() && out.Val? && Agrees(h, env, n, out, v, g, loc)
    requires u == v.(ip := u.ip, loc := loc, w := out.w)
    requires Leads(h, env, v.(ip := g.ip, loc := loc, ops := v.ops + [out.v], w := out.w).Conf(), u.Conf())
    ensures Reaches(h, env, v, u, [])
  {
    assert v.ops + [] == v.ops;
    LeadsTrans(h, env, v.Conf(), v.(ip := g.ip, loc := loc, ops := v.ops + [out.v], w := out.w).Conf(), u.Conf());
  }

  // ---------- calls ----------

  /** The outcome of a call, seen from the caller just after it was dispatched. */
  ghost predicate ApplyAgrees(h: Host, env: CompileEnv, n: nat, a: Applied, post: View, c: Conf)
    requires ValidEnv(env)
  {
    match a
    case OutOfFuel => n == 0 || Run(h, env, n - 1, c) == Timeout
    case Unchecked => true
    case Gave(x, w) => Pinned(h, env, w) && Leads(h, env, c, post.(ops := post.ops + [x], w := w).Conf())
    case Broke(f, w) => Pinned(h, env, w) && Leads(h, env, c, Unwind(post.(w := w).Vm(), f))
  }

  lemma CallDone(h: Host, env: CompileEnv, n: nat, a: Applied, v: View, pre: View, extra: seq<Ray>,
                 c: Conf, g: Goal, fr: Frame)
    requires ValidEnv(env) && Reaches(h, env, v, pre, extra) && Shifts(h, env, pre.Conf(), c)
    requires ApplyAgrees(h, env, n, a, v.(ip := g.ip, loc := pre.loc, w := pre.w), c)
    requires FrameOK(g.locals, fr, pre.loc) && Kept(g.keep, v.loc, pre.loc)
    requires g.flow.sure.Live? && g.flow.sure.names <= fr.Keys && g.before.Keys <= fr.Keys
    ensures Agrees(h, env, n, Lift(a, fr), v, g, pre.loc)
  {
    LeadsShift(h, env, pre.Conf(), c);
    LeadsTrans(h, env, v.Conf(), pre.Conf(), c);
    var post := v.(ip := g.ip, loc := pre.loc, w := pre.w);
    match a
    case OutOfFuel =>
      if n > 0 { assert Run(h, env, n - 1 + 1, pre.Conf()) == Timeout; }
      LeadsTimeout(h, env, v.Conf(), pre.Conf(), n);
    case Unchecked =>
    case Gave(x, w) =>
      assert post.(ops := post.ops + [x], w := w) == v.(ip := g.ip, loc := pre.loc, ops := v.ops + [x], w := w);
      LeadsTrans(h, env, v.Conf(), c, post.(ops := post.ops + [x], w := w).Conf());
    case Broke(f, w) =>
      UnwindIp(v.(loc := pre.loc), g.ip);
      assert post.(w := w) == v.(loc := pre.loc).(ip := g.ip, w := w);
      LeadsTrans(h, env, v.Conf(), c, Unwind(post.(w := w).Vm(), f));
  }

  /** The outcome of running a lambda's code from its entry state u. */
  ghost predicate BodyAgrees(h: Host, env: CompileEnv, n: nat, a: Applied, u: View, loc: seq<Cell>)
    requires ValidEnv(env)
  {
    match a
    case OutOfFuel => Run(h, env, n, u.Conf()) == Timeout
    case Unchecked => true
    case Gave(x, w) => Pinned(h, env, w) && Leads(h, env, u.Conf(), Left(u, 0, x, w))
    case Broke(f, w) => Pinned(h, env, w) && |loc| == |u.loc| && Leads(h, env, u.Conf(), Unwind(u.(loc := loc, w := w).Vm(), f))
  }

  /** Entry state of a call made from post: saved is the return frame it pushed. */
  function Callee(post: View, p: Program, args: seq<Ray>, saved: Saved): View {
    View(p, 0, post.Vm().ps, Enter(p, args), [], post.rs + [saved], post.ts, post.w)
  }

  lemma Returns(h: Host, env: CompileEnv, n: nat, a: Applied, post: View, p: Program, args: seq<Ray>, saved: Saved, loc: seq<Cell>)
    requires ValidEnv(env) && post.Valid() && n > 0
    requires saved == Saved(Some(post.fn), |post.below|, post.ip) || (saved == Saved(None, |post.below|, post.ip) && p == post.fn)
    requires BodyAgrees(h, env, n - 1, a, Callee(post, p, args, saved), loc)
    ensures ApplyAgrees(h, env, n, a, post, Callee(post, p, args, saved).Conf())
  {
    var u := Callee(post, p, args, saved);
    match a
    case Gave(x, w) =>
      assert u.rs[..|u.rs| - 1] == post.rs;
      assert u.ts[..|u.ts|] == post.ts;
      PushView(post.(w := w), x);
    case Broke(f, w) =>
      var d := u.(loc := loc, w := w);
      assert d.Vm().ps[..|post.Vm().ps|] == post.Vm().ps;
      assert d.rs[..|post.rs|] == post.rs;
      UnwindDrop(post.(w := w), d, f);
    case _ =>
  }

  lemma {:induction false} BindFrame(params: seq<nat>, args: seq<Ray>, loc: seq<Cell>)
    requires |params| == |args| <= |loc| && forall i :: 0 <= i < |args| ==> loc[i] == Full(args[i])
    ensures FrameOK(params, Bind(map[], params, args), loc)
    ensures Bind(map[], params, args).Keys == Names(params)
  {
    if params == [] {
    } else {
      var k := |params| - 1;
      var ps := params[..k];
      BindFrame(ps, args[..k], loc);
      var locals: seq<int> := ps;
      assert params == ps + [params[k]];
      var all: seq<int> := params;
      assert all == locals + [params[k]];
      NamesAppend(locals, params[k]);
      var fr := Bind(map[], params, args);
      forall x: nat | x in fr ensures Find(all, x) >= 0 && loc[Find(all, x)] == Full(fr[x]) {
        FindAppend(locals, params[k], x);
      }
    }
  }

  // ---------- the simulation ----------

  lemma {:induction false} BodySim(h: Host, env: CompileEnv, n: nat, l: Ray, args: seq<Ray>, u: View) returns (loc: seq<Cell>)
    requires ValidEnv(env) && KeepsBuiltins(h, env) && Checked(env, l) && |args| == |l.params|
    requires CompileLambda(env, l.params, l.body) == Some(u.fn)
    requires u.ip == 0 && u.loc == Enter(u.fn, args) && u.ops == [] && u.Valid() && Pinned(h, env, u.w)
    ensures BodyAgrees(h, env, n, Body(h, env, n, l, args, u.w), u, loc)
    decreases n, SizeAll(l.body), 2, 0
  {
    hide Comp, Check, Eval, CompSeq, CheckAll, EvalSeq;
    var zero := if CheckBody(env, F64(PLUS_ZERO), l).ok then F64(PLUS_ZERO) else F64(MINUS_ZERO);
    var t := Table([], l.params);
    var c := CompSeq(env, t, 0, l.body);
    var ps := Names(l.params);
    var f := Flow(true, ps, Live(ps));
    StaticAll(env, zero, |l.params|, t, 0, f, l.body);
    CompSeqGrows(env, t, 0, l.body);
    assert u.fn.code == c.bytes + [OP_RET];
    AtSplit(u.fn.code, 0, c.bytes, [OP_RET]);
    BindFrame(l.params, args, u.loc);
    var fr := Bind(map[], l.params, args);
    loc := SimSeq(h, env, n, l, zero, t, 0, f, l.body, fr, u);
    var out := EvalSeq(h, env, n, l, l.body, fr, u.w);
    match out
    case Val(x, _, w) =>
      var d := u.(ip := |c.bytes|, loc := loc, w := w);
      assert u.ops + [x] == d.ops + [x];
      StepRet(h, env, d, x);
      LeadsTrans(h, env, u.Conf(), d.(ops := d.ops + [x]).Conf(), Left(d, 0, x, w));
      assert Left(d, 0, x, w) == Left(u, 0, x, w);
    case _ =>
  }

  lemma {:induction false} ApplySim(h: Host, env: CompileEnv, n: nat, f: Ray, args: seq<Ray>, post: View)
    requires ValidEnv(env) && KeepsBuiltins(h, env) && post.Valid() && Pinned(h, env, post.w)
    ensures ApplyAgrees(h, env, n, Apply(h, env, n, f, args, post.w), post, Called(h, env, post, f, args))
    decreases n, 0, 1, 0
  {
    if f.Lambda? && CompileLambda(env, f.params, f.body).Some? {
      var p := CompileLambda(env, f.params, f.body).value;
      if |args| == |f.params| && Checked(env, f) && n > 0 {
        var saved := Saved(Some(post.fn), |post.below|, post.ip);
        ProgramSlots(env, f.params, f.body);
        var loc := BodySim(h, env, n - 1, f, args, Callee(post, p, args, saved));
        Returns(h, env, n, Body(h, env, n - 1, f, args, post.w), post, p, args, saved, loc);
      }
    }
  }

  lemma ProgramSlots(env: CompileEnv, params: seq<nat>, body: seq<Ray>)
    requires ValidEnv(env) && CompileLambda(env, params, body).Some?
    ensures |params| <= CompileLambda(env, params, body).value.nlocals
  {
    if body != [] { CompSeqGrows(env, Table([], params), 0, body); }
  }

  lemma {:induction false} SelfSim(h: Host, env: CompileEnv, n: nat, l: Ray, args: seq<Ray>, post: View)
    requires ValidEnv(env) && KeepsBuiltins(h, env) && post.Valid() && Pinned(h, env, post.w)
    requires Checked(env, l) && |args| == |l.params| && CompileLambda(env, l.params, l.body) == Some(post.fn)
    ensures ApplyAgrees(h, env, n, Apply(h, env, n, l, args, post.w), post,
                        Callee(post, post.fn, args, Saved(None, |post.below|, post.ip)).Conf())
    decreases n, 0, 1, 0
  {
    if n > 0 {
      var saved := Saved(None, |post.below|, post.ip);
      ProgramSlots(env, l.params, l.body);
      var loc := BodySim(h, env, n - 1, l, args, Callee(post, post.fn, args, saved));
      Returns(h, env, n, Body(h, env, n - 1, l, args, post.w), post, post.fn, args, saved, loc);
    }
  }

  /** Aim of the code c placed at v. */
  function Aim(v: View, c: Emitted, keep: seq<int>, td: nat, flow: Flow, fr: Frame): Goal
    requires c.Code?
  {
    Goal(v.ip + |c.bytes|, c.table.locals, keep, td, flow, fr)
  }

  lemma {:induction false} SimSeq(h: Host, env: CompileEnv, n: nat, self: Ray, zero: Ray, t: Table, td: nat, f: Flow,
                                  es: seq<Ray>, fr: Frame, v: View) returns (loc: seq<Cell>)
    requires Ready(h, env, self, zero, t, td, f, fr, v) && es != []
    requires Placed(env, CompSeq(env, t, td, es), v) && CheckAll(env, zero, |self.params|, f, es).ok
    ensures Agrees(h, env, n, EvalSeq(h, env, n, self, es, fr, v.w), v,
                   Aim(v, CompSeq(env, t, td, es), t.locals, td, CheckAll(env, zero, |self.params|, f, es), fr), loc)
    decreases n, SizeAll(es), 1, |es|
  {
    hide Comp, Check, Eval, Agrees, Leads, FrameOK, Pinned, KeepsBuiltins, CompileLambda, CodeOf;
    var arity := |self.params|;
    if |es| == 1 {
      SeqOne(env, zero, arity, t, td, f, es);
      loc := Sim(h, env, n, self, zero, t, td, f, es[0], fr, v);
    } else {
      hide CompSeq, CheckAll;
      SeqPlaced(env, zero, arity, t, td, f, es, v);
      var c := Comp(env, t, td, es[0]);
      var f1 := Check(env, zero, arity, f, es[0]);
      var out := Eval(h, env, n, self, es[0], fr, v.w);
      loc := Sim(h, env, n, self, zero, t, td, f, es[0], fr, v);
      var g1 := Aim(v, c, t.locals, td, f1, fr);
      var g := Aim(v, CompSeq(env, t, td, es), t.locals, td, CheckAll(env, zero, arity, f, es), fr);
      if out.Val? {
        loc := SeqRest(h, env, n, self, zero, c.table, td, f1, es[1..], out, v, g1, g, loc);
      } else {
        AbortFirst(h, env, n, out, v, g1, g, loc);
      }
    }
  }

  lemma SeqOne(env: CompileEnv, zero: Ray, arity: nat, t: Table, td: nat, f: Flow, es: seq<Ray>)
    requires ValidEnv(env) && |es| == 1
    ensures CompSeq(env, t, td, es) == Comp(env, t, td, es[0])
    ensures CheckAll(env, zero, arity, f, es) == Check(env, zero, arity, f, es[0])
  {
    assert es[1..] == [];
  }

  /** The code of a sequence: its first expression, a POP, and the rest. */
  lemma SeqPlaced(env: CompileEnv, zero: Ray, arity: nat, t: Table, td: nat, f: Flow, es: seq<Ray>, v: View)
    requires ValidEnv(env) && ZeroOfOneSign(zero) && zero !in t.consts && f.table == Names(t.locals)
    requires |es| > 1 && Placed(env, CompSeq(env, t, td, es), v) && CheckAll(env, zero, arity, f, es).ok
    ensures var c := Comp(env, t, td, es[0]); var f1 := Check(env, zero, arity, f, es[0]);
      && Placed(env, c, v) && At(v.fn.code, v.ip + |c.bytes|, [OP_POP]) && t.locals <= c.table.locals
      && f1.ok && f1.table == Names(c.table.locals)
      && var cs := CompSeq(env, c.table, td, es[1..]);
      && Placed(env, cs, v.(ip := v.ip + |c.bytes| + 1)) && Extends(c.table.locals, cs.table.locals)
      && CheckAll(env, zero, arity, f, es) == CheckAll(env, zero, arity, f1, es[1..])
      && CompSeq(env, t, td, es).table == cs.table && |CompSeq(env, t, td, es).bytes| == |c.bytes| + 1 + |cs.bytes|
  {
    hide Comp, Check;
    var c := Comp(env, t, td, es[0]);
    var cs := CompSeq(env, c.table, td, es[1..]);
    AtSplit(v.fn.code, v.ip, c.bytes, [OP_POP] + cs.bytes);
    AtSplit(v.fn.code, v.ip + |c.bytes|, [OP_POP], cs.bytes);
    CompSeqGrows(env, c.table, td, es[1..]);
    CompGrows(env, t, td, es[0]);
    CheckAllMono(env, zero, arity, Check(env, zero, arity, f, es[0]), es[1..]);
    Static(env, zero, arity, t, td, f, es[0]);
  }

  lemma {:induction false} SeqRest(h: Host, env: CompileEnv, n: nat, self: Ray, zero: Ray, t: Table, td: nat, f: Flow, es: seq<Ray>,
                                   out: Out, v: View, g1: Goal, g: Goal, loc0: seq<Cell>) returns (loc: seq<Cell>)
    requires Owner(h, env, self, zero, v.fn) && v.Valid() && td <= |v.ts| && t.consts <= v.fn.consts && es != []
    requires out.Val? && Agrees(h, env, n, out, v, g1, loc0) && At(v.fn.code, g1.ip, [OP_POP])
    requires g1.locals == t.locals && g1.td == td && g1.flow == f && f.table == Names(t.locals) && g1.keep <= t.locals
    requires CheckAll(env, zero, |self.params|, f, es).ok
    requires var cs := CompSeq(env, t, td, es);
      && Placed(env, cs, v.(ip := g1.ip + 1))
      && g == Goal(g1.ip + 1 + |cs.bytes|, cs.table.locals, g1.keep, td, CheckAll(env, zero, |self.params|, f, es), g1.before)
    ensures Agrees(h, env, n, EvalSeq(h, env, n, self, es, out.fr, out.w), v, g, loc)
    decreases n, SizeAll(es), 2, |es|
  {
    var cs := CompSeq(env, t, td, es);
    var u := v.(ip := g1.ip + 1, loc := loc0, w := out.w);
    PopGlue(h, env, n, out, v, g1, u, loc0);
    loc := SimSeq(h, env, n, self, zero, t, td, f, es, out.fr, u);
    Finish(h, env, n, EvalSeq(h, env, n, self, es, out.fr, out.w), v, u, Aim(u, cs, t.locals, td, g.flow, out.fr), g, loc);
  }

  lemma PopGlue(h: Host, env: CompileEnv, n: nat, out: Out, v: View, g: Goal, u: View, loc: seq<Cell>)
    requires ValidEnv(env) && v.Valid() && out.Val? && Agrees(h, env, n, out, v, g, loc)
    requires u == v.(ip := g.ip + 1, loc := loc, w := out.w) && At(v.fn.code, g.ip, [OP_POP])
    ensures Reaches(h, env, v, u, []) && u.Valid()
  {
    StepPop(h, env, u.(ip := g.ip), out.v);
    Consumed(h, env, n, out, v, g, loc, u);
  }

  lemma {:induction false} SimArgs(h: Host, env: CompileEnv, n: nat, self: Ray, zero: Ray, t: Table, td: nat, f: Flow,
                                   es: seq<Ray>, fr: Frame, v: View) returns (loc: seq<Cell>)
    requires Ready(h, env, self, zero, t, td, f, fr, v)
    requires Placed(env, CompArgs(env, t, td, es), v) && CheckAll(env, zero, |self.params|, f, es).ok
    ensures AgreesArgs(h, env, n, EvalArgs(h, env, n, self, es, fr, v.w), v,
                       Aim(v, CompArgs(env, t, td, es), t.locals, td, CheckAll(env, zero, |self.params|, f, es), fr), loc)
    decreases n, SizeAll(es), 1, |es|
  {
    hide Comp, Check, Eval, Agrees, AgreesArgs, Leads, FrameOK, Pinned, KeepsBuiltins, CompileLambda, CodeOf;
    var arity := |self.params|;
    if es == [] {
      ArgsNone(h, env, n, self, zero, t, td, f, fr, v);
      return v.loc;
    }
    ArgsPlaced(env, zero, arity, t, td, f, es, v);
    var c := Comp(env, t, td, es[0]);
    var f1 := Check(env, zero, arity, f, es[0]);
    var g := Aim(v, CompArgs(env, t, td, es), t.locals, td, CheckAll(env, zero, arity, f, es), fr);
    var out1 := Eval(h, env, n, self, es[0], fr, v.w);
    var g1 := Aim(v, c, t.locals, td, f1, fr);
    loc := Sim(h, env, n, self, zero, t, td, f, es[0], fr, v);
    if out1.Val? {
      loc := ArgsRest(h, env, n, self, zero, c.table, td, f1, es[1..], out1, v, g1, g, loc);
    } else {
      AbortFirst(h, env, n, out1, v, g1, g, loc);
      NoArgs(h, env, n, out1, v, g, loc);
    }
  }

  lemma ArgsNone(h: Host, env: CompileEnv, n: nat, self: Ray, zero: Ray, t: Table, td: nat, f: Flow, fr: Frame, v: View)
    requires Ready(h, env, self, zero, t, td, f, fr, v)
    ensures AgreesArgs(h, env, n, Vals([], fr, v.w), v, Aim(v, Code([], t), t.locals, td, f, fr), v.loc)
  {
    hide KeepsBuiltins, CompileLambda, CodeOf;
    assert v.ops + [] == v.ops;
  }

  lemma NoArgs(h: Host, env: CompileEnv, n: nat, out: Out, v: View, g: Goal, loc: seq<Cell>)
    requires ValidEnv(env) && !out.Val? && Agrees(h, env, n, out, v, g, loc)
    ensures AgreesArgs(h, env, n, NoVals(out), v, g, loc)
  {
  }

  lemma {:induction false} ArgsRest(h: Host, env: CompileEnv, n: nat, self: Ray, zero: Ray, t: Table, td: nat, f: Flow, es: seq<Ray>,
                                    out: Out, v: View, g1: Goal, g: Goal, loc0: seq<Cell>) returns (loc: seq<Cell>)
    requires Owner(h, env, self, zero, v.fn) && v.Valid() && td <= |v.ts| && t.consts <= v.fn.consts
    requires out.Val? && Agrees(h, env, n, out, v, g1, loc0)
    requires g1.locals == t.locals && g1.td == td && g1.flow == f && f.table == Names(t.locals) && g1.keep <= t.locals
    requires CheckAll(env, zero, |self.params|, f, es).ok
    requires var cs := CompArgs(env, t, td, es);
      && Placed(env, cs, v.(ip := g1.ip))
      && g == Goal(g1.ip + |cs.bytes|, cs.table.locals, g1.keep, td, CheckAll(env, zero, |self.params|, f, es), g1.before)
    ensures AgreesArgs(h, env, n, Prepend(out.v, EvalArgs(h, env, n, self, es, out.fr, out.w)), v, g, loc)
    decreases n, SizeAll(es), 2, |es|
  {
    hide CompArgs, CheckAll, EvalArgs, CodeOf;
    var u := v.(ip := g1.ip, loc := loc0, ops := v.ops + [out.v], w := out.w);
    loc := SimArgs(h, env, n, self, zero, t, td, f, es, out.fr, u);
    var gu := Aim(u, CompArgs(env, t, td, es), t.locals, td, g.flow, out.fr);
    ArgsStep(h, env, n, EvalArgs(h, env, n, self, es, out.fr, out.w), v, u, out.v, gu, g, loc);
  }

  /** The code of arguments: that of the first, then that of the rest. */
  lemma ArgsPlaced(env: CompileEnv, zero: Ray, arity: nat, t: Table, td: nat, f: Flow, es: seq<Ray>, v: View)
    requires ValidEnv(env) && ZeroOfOneSign(zero) && zero !in t.consts && f.table == Names(t.locals)
    requires es != [] && Placed(env, CompArgs(env, t, td, es), v) && CheckAll(env, zero, arity, f, es).ok
    ensures var c := Comp(env, t, td, es[0]); var f1 := Check(env, zero, arity, f, es[0]);
      && Placed(env, c, v) && t.locals <= c.table.locals
      && f1.ok && f1.table == Names(c.table.locals)
      && var cs := CompArgs(env, c.table, td, es[1..]);
      && Placed(env, cs, v.(ip := v.ip + |c.bytes|)) && Extends(c.table.locals, cs.table.locals)
      && CheckAll(env, zero, arity, f, es) == CheckAll(env, zero, arity, f1, es[1..])
      && CompArgs(env, t, td, es).table == cs.table && |CompArgs(env, t, td, es).bytes| == |c.bytes| + |cs.bytes|
  {
    hide Comp, Check;
    var c := Comp(env, t, td, es[0]);
    var cs := CompArgs(env, c.table, td, es[1..]);
    AtSplit(v.fn.code, v.ip, c.bytes, cs.bytes);
    CompArgsGrows(env, c.table, td, es[1..]);
    CompGrows(env, t, td, es[0]);
    CheckAllMono(env, zero, arity, Check(env, zero, arity, f, es[0]), es[1..]);
    Static(env, zero, arity, t, td, f, es[0]);
  }

  lemma ArgsStep(h: Host, env: CompileEnv, n: nat, outs: Outs, v: View, u: View, x: Ray, gu: Goal, g: Goal, loc: seq<Cell>)
    requires ValidEnv(env) && Reaches(h, env, v, u, [x]) && AgreesArgs(h, env, n, outs, u, gu, loc)
    requires gu.ip == g.ip && gu.td == g.td && gu.locals == g.locals && gu.flow == g.flow && |g.locals| <= |v.loc|
    requires g.keep <= gu.keep && Kept(g.keep, v.loc, u.loc) && g.before.Keys <= gu.before.Keys
    ensures AgreesArgs(h, env, n, Prepend(x, outs), v, g, loc)
  {
    match outs
    case Vals(xs, fr, w) =>
      KeptTrans(g.keep, gu.keep, v.loc, u.loc, loc);
      assert v.ops + ([x] + xs) == u.ops + xs;
      LeadsTrans(h, env, v.Conf(), u.Conf(), v.(ip := g.ip, loc := loc, ops := v.ops + ([x] + xs), w := w).Conf());
    case NoVals(out) =>
      Abort(h, env, n, out, v, u, [x], gu, g, loc);
  }

  lemma {:induction false} Sim(h: Host, env: CompileEnv, n: nat, self: Ray, zero: Ray, t: Table, td: nat, f: Flow,
                               e: Ray, fr: Frame, v: View) returns (loc: seq<Cell>)
    requires Ready(h, env, self, zero, t, td, f, fr, v)
    requires Placed(env, Comp(env, t, td, e), v) && Check(env, zero, |self.params|, f, e).ok
    ensures Agrees(h, env, n, Eval(h, env, n, self, e, fr, v.w), v,
                   Aim(v, Comp(env, t, td, e), t.locals, td, Check(env, zero, |self.params|, f, e), fr), loc)
    decreases n, Size(e), 0, 2
  {
    hide CodeOf;
    var form := Classify(env, e);
    assert Comp(env, t, td, e) == CompForm(env, t, td, e, form);
    assert Eval(h, env, n, self, e, fr, v.w) == EvalForm(h, env, n, self, e, form, fr, v.w);
    assert Check(env, zero, |self.params|, f, e) == CheckForm(env, zero, |self.params|, f, e, form);
    if form.Name? { assert e == Symbol(form.id, false); }
    if form.Fn? { assert e != zero; }
    if form.Special? { assert e != zero; }
    loc := SimForm(h, env, n, self, zero, t, td, f, e, form, fr, v);
  }

  lemma {:induction false} SimForm(h: Host, env: CompileEnv, n: nat, self: Ray, zero: Ray, t: Table, td: nat, f: Flow,
                                  e: Ray, form: Form, fr: Frame, v: View) returns (loc: seq<Cell>)
    requires Ready(h, env, self, zero, t, td, f, fr, v)
    requires Fits(form, Size(e)) && CalleeOK(env, form)
    requires (form.Name? ==> e == Symbol(form.id, false)) && (form.Fn? || form.Special? ==> e != zero)
    requires Placed(env, CompForm(env, t, td, e, form), v) && CheckForm(env, zero, |self.params|, f, e, form).ok
    ensures Agrees(h, env, n, EvalForm(h, env, n, self, e, form, fr, v.w), v,
                   Aim(v, CompForm(env, t, td, e, form), t.locals, td, CheckForm(env, zero, |self.params|, f, e, form), fr), loc)
    decreases n, Size(e), 0, 1
  {
    hide CodeOf;
    match form
    case Set(_, _) => loc := SimSet(h, env, n, self, zero, t, td, f, e, form, fr, v);
    case Let(_, _) => loc := SimLet(h, env, n, self, zero, t, td, f, e, form, fr, v);
    case If(_, _, _) => loc := SimIf(h, env, n, self, zero, t, td, f, e, form, fr, v);
    case Do(_) => loc := SimDo(h, env, n, self, zero, t, td, f, e, form, fr, v);
    case Try(_, _) => loc := SimTry(h, env, n, self, zero, t, td, f, e, form, fr, v);
    case Return(_) => loc := SimReturn(h, env, n, self, zero, t, td, f, e, form, fr, v);
    case Self(_) => loc := SimSelf(h, env, n, self, zero, t, td, f, e, form, fr, v);
    case Call(_, _, _) => loc := SimCall(h, env, n, self, zero, t, td, f, e, form, fr, v);
    case _ => loc := v.loc; SimLeaf(h, env, n, self, zero, t, td, f, e, form, fr, v);
  }

  lemma {:induction false} SimDo(h: Host, env: CompileEnv, n: nat, self: Ray, zero: Ray, t: Table, td: nat, f: Flow,
                                  e: Ray, form: Form, fr: Frame, v: View) returns (loc: seq<Cell>)
    requires Ready(h, env, self, zero, t, td, f, fr, v)
    requires Fits(form, Size(e)) && CalleeOK(env, form) && form.Do?
    requires Placed(env, CompForm(env, t, td, e, form), v) && CheckForm(env, zero, |self.params|, f, e, form).ok
    ensures Agrees(h, env, n, EvalForm(h, env, n, self, e, form, fr, v.w), v,
                   Aim(v, CompForm(env, t, td, e, form), t.locals, td, CheckForm(env, zero, |self.params|, f, e, form), fr), loc)
    decreases n, Size(e), 0, 0
  {
    assert CompForm(env, t, td, e, form) == CompSeq(env, t, td, form.exprs);
    assert EvalForm(h, env, n, self, e, form, fr, v.w) == EvalSeq(h, env, n, self, form.exprs, fr, v.w);
    assert CheckForm(env, zero, |self.params|, f, e, form) == CheckAll(env, zero, |self.params|, f, form.exprs);
    loc := SimSeq(h, env, n, self, zero, t, td, f, form.exprs, fr, v);
  }

  lemma SimLeaf(h: Host, env: CompileEnv, n: nat, self: Ray, zero: Ray, t: Table, td: nat, f: Flow,
                e: Ray, form: Form, fr: Frame, v: View)
    requires Ready(h, env, self, zero, t, td, f, fr, v)
    requires form.Nothing? || form.Constant? || form.NullName? || form.Name? || form.Fn? || form.Special?
    requires (form.Name? ==> e == Symbol(form.id, false)) && (form.Fn? || form.Special? ==> e != zero)
    requires Placed(env, CompForm(env, t, td, e, form), v) && CheckForm(env, zero, |self.params|, f, e, form).ok
    ensures Agrees(h, env, n, EvalForm(h, env, n, self, e, form, fr, v.w), v,
                   Aim(v, CompForm(env, t, td, e, form), t.locals, td, CheckForm(env, zero, |self.params|, f, e, form), fr), v.loc)
  {
    if form.Name? {
      NameLeaf(h, env, n, self, zero, t, td, f, e, form, fr, v);
    } else if form.Fn? || form.Special? {
      WalkLeaf(h, env, n, self, zero, t, td, f, e, form, fr, v);
    } else {
      ConstLeaf(h, env, n, self, zero, t, td, f, e, form, fr, v);
    }
  }

  lemma ConstLeaf(h: Host, env: CompileEnv, n: nat, self: Ray, zero: Ray, t: Table, td: nat, f: Flow,
                  e: Ray, form: Form, fr: Frame, v: View)
    requires Ready(h, env, self, zero, t, td, f, fr, v) && (form.Nothing? || form.Constant? || form.NullName?)
    requires Placed(env, CompForm(env, t, td, e, form), v) && CheckForm(env, zero, |self.params|, f, e, form).ok
    ensures Agrees(h, env, n, EvalForm(h, env, n, self, e, form, fr, v.w), v,
                   Aim(v, CompForm(env, t, td, e, form), t.locals, td, CheckForm(env, zero, |self.params|, f, e, form), fr), v.loc)
  {
    hide Comp, Check, Eval, Leads, KeepsBuiltins, CompileLambda, AddConst, CodeOf;
    if form.Constant? { ConstSim(h, env, t, zero, e, v); }
    if form.NullName? { ConstSim(h, env, t, zero, Null, v); }
  }

  lemma NameLeaf(h: Host, env: CompileEnv, n: nat, self: Ray, zero: Ray, t: Table, td: nat, f: Flow,
                 e: Ray, form: Form, fr: Frame, v: View)
    requires Ready(h, env, self, zero, t, td, f, fr, v) && form.Name? && e == Symbol(form.id, false)
    requires Placed(env, CompForm(env, t, td, e, form), v) && CheckForm(env, zero, |self.params|, f, e, form).ok
    ensures Agrees(h, env, n, EvalForm(h, env, n, self, e, form, fr, v.w), v,
                   Aim(v, CompForm(env, t, td, e, form), t.locals, td, CheckForm(env, zero, |self.params|, f, e, form), fr), v.loc)
  {
    hide Comp, Check, Eval, Leads, KeepsBuiltins, CompileLambda, AddConst, CodeOf;
    NameSim(h, env, n, t, zero, f, e, form.id, fr, v);
  }

  lemma WalkLeaf(h: Host, env: CompileEnv, n: nat, self: Ray, zero: Ray, t: Table, td: nat, f: Flow,
                 e: Ray, form: Form, fr: Frame, v: View)
    requires Ready(h, env, self, zero, t, td, f, fr, v) && (form.Fn? || form.Special?) && e != zero
    requires Placed(env, CompForm(env, t, td, e, form), v) && CheckForm(env, zero, |self.params|, f, e, form).ok
    ensures Agrees(h, env, n, EvalForm(h, env, n, self, e, form, fr, v.w), v,
                   Aim(v, CompForm(env, t, td, e, form), t.locals, td, CheckForm(env, zero, |self.params|, f, e, form), fr), v.loc)
  {
    hide Comp, Check, Eval, Leads, KeepsBuiltins, CompileLambda, AddConst, Agrees, CodeOf;
    WalkSim(h, env, n, t, zero, e, fr, v, Aim(v, CompDynamic(t, e), t.locals, td, f, fr));
  }

  /** A name: a slot if the compiler knows it, else resolved at run time. */
  lemma NameSim(h: Host, env: CompileEnv, n: nat, t: Table, zero: Ray, f: Flow, e: Ray, id: nat, fr: Frame, v: View)
    requires ValidEnv(env) && ZeroOfOneSign(zero) && zero !in v.fn.consts && |v.fn.consts| <= 0x1_0000
    requires v.Valid() && Pinned(h, env, v.w) && e == Symbol(id, false) && FrameOK(t.locals, fr, v.loc)
    requires f.sure.Live? && f.sure.names <= fr.Keys && (Find(t.locals, id) >= 0 ==> id in fr)
    requires var slot := Find(t.locals, id);
      if slot >= 0 then At(v.fn.code, v.ip, [OP_LOADENV, slot])
      else AddConst(t, e).0.consts <= v.fn.consts && At(v.fn.code, v.ip, WithIndex(OP_RESOLVE, OP_RESOLVE_W, AddConst(t, e).1))
    ensures var slot := Find(t.locals, id);
      var len := if slot >= 0 then 2 else |WithIndex(OP_RESOLVE, OP_RESOLVE_W, AddConst(t, e).1)|;
      Agrees(h, env, n,
        if id in fr then Val(fr[id], fr, v.w)
        else match h.resolve(v.w.globals, id)
             case Undefined => Fail(Bare(ERR_NAME), fr, v.w)
             case Faulty(x) => Fail(Thrown(x), fr, v.w)
             case Bound(x) => Val(x, fr, v.w),
        v, Goal(v.ip + len, t.locals, t.locals, 0, f, fr), v.loc)
  {
    hide AddConst, WithIndex, Comp, Check, Eval;
    if Find(t.locals, id) >= 0 {
      StepLoadEnv(h, env, v, Find(t.locals, id));
    } else {
      ConstExact(t, e, zero, v.fn.consts);
      StepResolve(h, env, v, AddConst(t, e).1, id);
    }
  }

  lemma ConstSim(h: Host, env: CompileEnv, t: Table, zero: Ray, x: Ray, v: View)
    requires ValidEnv(env) && ZeroOfOneSign(zero) && x != zero && zero !in v.fn.consts && |v.fn.consts| <= 0x1_0000
    requires LoadConst(t, x).table.consts <= v.fn.consts && At(v.fn.code, v.ip, LoadConst(t, x).bytes)
    ensures Leads(h, env, v.Conf(), v.(ip := v.ip + |LoadConst(t, x).bytes|, ops := v.ops + [x]).Conf())
  {
    ConstExact(t, x, zero, v.fn.consts);
    StepLoadConst(h, env, v, AddConst(t, x).1);
  }

  lemma WalkSim(h: Host, env: CompileEnv, n: nat, t: Table, zero: Ray, e: Ray, fr: Frame, v: View, g: Goal)
    requires ValidEnv(env) && KeepsBuiltins(h, env) && Pinned(h, env, v.w) && v.Valid()
    requires ZeroOfOneSign(zero) && e != zero && zero !in v.fn.consts && |v.fn.consts| <= 0x1_0000
    requires var c := CompDynamic(t, e); c.table.consts <= v.fn.consts && At(v.fn.code, v.ip, c.bytes) && g.ip == v.ip + |c.bytes|
    requires FrameOK(g.locals, fr, v.loc) && |g.keep| <= |v.loc| && g.before == fr
    requires g.flow.sure.Live? && g.flow.sure.names <= fr.Keys
    ensures Agrees(h, env, n, Answer(h.walk(e, v.w), fr), v, g, v.loc)
  {
    hide Comp, Check, Eval, AddConst;
    var b := LoadConst(t, e).bytes;
    AtSplit(v.fn.code, v.ip, b, [OP_CALLD, 0]);
    ConstSim(h, env, t, zero, e, v);
    var u := v.(ip := v.ip + |b|);
    StepWalk(h, env, u, e);
    LeadsTrans(h, env, v.Conf(), u.(ops := v.ops + [e]).Conf(), Settled(u.(ip := g.ip), h.walk(e, v.w)));
    UnwindIp(v, g.ip);
  }

  // ---------- one lemma per form ----------

  lemma {:induction false} SimSet(h: Host, env: CompileEnv, n: nat, self: Ray, zero: Ray, t: Table, td: nat, f: Flow,
                                  e: Ray, form: Form, fr: Frame, v: View) returns (loc: seq<Cell>)
    requires Ready(h, env, self, zero, t, td, f, fr, v)
    requires Fits(form, Size(e)) && CalleeOK(env, form) && form.Set?
    requires Placed(env, CompForm(env, t, td, e, form), v) && CheckForm(env, zero, |self.params|, f, e, form).ok
    ensures Agrees(h, env, n, EvalForm(h, env, n, self, e, form, fr, v.w), v,
                   Aim(v, CompForm(env, t, td, e, form), t.locals, td, CheckForm(env, zero, |self.params|, f, e, form), fr), loc)
    decreases n, Size(e), 0, 0
  {
    hide Comp, Check, Eval, CodeOf, Agrees;
    var Set(name, e1) := form;
    var c := Comp(env, t, td, e1);
    var f1 := Check(env, zero, |self.params|, f, e1);
    var b := WithIndex(OP_STOREGLOBAL, OP_STOREGLOBAL_W, AddConst(c.table, name).1);
    AtSplit(v.fn.code, v.ip, c.bytes, b);
    ConstExact(c.table, name, zero, v.fn.consts);
    loc := Sim(h, env, n, self, zero, t, td, f, e1, fr, v);
    SetGlue(h, env, n, Eval(h, env, n, self, e1, fr, v.w), name, v, Aim(v, c, t.locals, td, f1, fr), AddConst(c.table, name).1, loc);
  }

  lemma SetGlue(h: Host, env: CompileEnv, n: nat, out: Out, name: Ray, v: View, g: Goal, i: nat, loc: seq<Cell>)
    requires ValidEnv(env) && KeepsBuiltins(h, env) && v.Valid() && Agrees(h, env, n, out, v, g, loc)
    requires name.Symbol? && name.id !in env.fns && i < |v.fn.consts| && i < 0x1_0000 && v.fn.consts[i] == name
    requires At(v.fn.code, g.ip, WithIndex(OP_STOREGLOBAL, OP_STOREGLOBAL_W, i))
    ensures Agrees(h, env, n, Store(h, name.id, out), v, g.(ip := g.ip + |WithIndex(OP_STOREGLOBAL, OP_STOREGLOBAL_W, i)|), loc)
  {
    hide WithIndex, AddConst, Comp, Check, Eval;
    if out.Val? {
      var u := v.(ip := g.ip, loc := loc, w := out.w);
      var ip := g.ip + |WithIndex(OP_STOREGLOBAL, OP_STOREGLOBAL_W, i)|;
      StepStoreGlobal(h, env, u, i, name, out.v);
      LeadsTrans(h, env, v.Conf(), u.(ops := v.ops + [out.v]).Conf(), AfterStore(h, u, ip, name.id, out.v));
      UnwindIp(v.(loc := loc), g.ip);
    }
  }

  lemma {:induction false} SimLet(h: Host, env: CompileEnv, n: nat, self: Ray, zero: Ray, t: Table, td: nat, f: Flow,
                                  e: Ray, form: Form, fr: Frame, v: View) returns (loc: seq<Cell>)
    requires Ready(h, env, self, zero, t, td, f, fr, v)
    requires Fits(form, Size(e)) && CalleeOK(env, form) && form.Let?
    requires Placed(env, CompForm(env, t, td, e, form), v) && CheckForm(env, zero, |self.params|, f, e, form).ok
    ensures Agrees(h, env, n, EvalForm(h, env, n, self, e, form, fr, v.w), v,
                   Aim(v, CompForm(env, t, td, e, form), t.locals, td, CheckForm(env, zero, |self.params|, f, e, form), fr), loc)
    decreases n, Size(e), 0, 0
  {
    hide Comp, Check, Eval, CodeOf;
    var Let(name, e1) := form;
    var c := Comp(env, t, td, e1);
    var f1 := Check(env, zero, |self.params|, f, e1);
    var whole := CompForm(env, t, td, e, form);
    var slot := if Find(c.table.locals, name.id) >= 0 then Find(c.table.locals, name.id) else |c.table.locals|;
    AtSplit(v.fn.code, v.ip, c.bytes, [OP_FORCE, OP_DUP, OP_STOREENV, slot]);
    CompGrows(env, t, td, e1);
    loc := Sim(h, env, n, self, zero, t, td, f, e1, fr, v);
    loc := LetGlue(h, env, n, Eval(h, env, n, self, e1, fr, v.w), name.id, v, Aim(v, c, t.locals, td, f1, fr),
                   Aim(v, whole, t.locals, td, CheckForm(env, zero, |self.params|, f, e, form), fr), slot, loc);
  }

  lemma LetGlue(h: Host, env: CompileEnv, n: nat, out: Out, id: nat, v: View, g1: Goal, g: Goal, slot: nat, loc0: seq<Cell>)
    returns (loc: seq<Cell>)
    requires ValidEnv(env) && v.Valid() && Agrees(h, env, n, out, v, g1, loc0)
    requires At(v.fn.code, g1.ip, [OP_FORCE, OP_DUP, OP_STOREENV, slot]) && g.ip == g1.ip + 4
    requires g.td == g1.td && g.keep == g1.keep && g.before == g1.before && Extends(g.keep, g1.locals)
    requires slot < |v.loc| && |g.locals| <= |v.loc|
    requires if Find(g1.locals, id) >= 0 then slot == Find(g1.locals, id) && g.locals == g1.locals
             else slot == |g1.locals| && g.locals == g1.locals + [id]
    requires g1.flow.sure.Live? ==> g.flow.sure == Live(g1.flow.sure.names + {id})
    ensures Agrees(h, env, n, Assign(id, out), v, g, loc)
  {
    loc := loc0;
    if out.Val? {
      var u := v.(ip := g1.ip, loc := loc0, w := out.w);
      StepLet(h, env, u, slot, out.v);
      loc := loc0[slot := Full(out.v)];
      LeadsTrans(h, env, v.Conf(), u.(ops := v.ops + [out.v]).Conf(),
                 v.(ip := g.ip, loc := loc, ops := v.ops + [out.v], w := out.w).Conf());
      LetFrame(g1.locals, id, out.fr, loc0, out.v);
      LetKept(g.keep, g1.locals, slot, id, v.loc, loc0, out.v);
    } else {
      LetExtends(g1.locals, id);
      AbortFirst(h, env, n, out, v, g1, g, loc0);
    }
  }

  lemma LetExtends(locals: seq<int>, id: nat)
    ensures Find(locals, id) < 0 ==> Extends(locals, locals + [id])
  {
    if Find(locals, id) < 0 { GrowsLocal(Table([], locals), id); }
  }

  lemma LetFrame(locals: seq<int>, id: nat, fr: Frame, loc: seq<Cell>, x: Ray)
    requires FrameOK(locals, fr, loc) && (Find(locals, id) < 0 ==> |locals| < |loc|)
    ensures Find(locals, id) >= 0 ==> FrameOK(locals, fr[id := x], loc[Find(locals, id) := Full(x)])
    ensures Find(locals, id) < 0 ==> FrameOK(locals + [id], fr[id := x], loc[|locals| := Full(x)])
  {
    if Find(locals, id) < 0 {
      forall y: nat ensures Find(locals + [id], y) == if y == id then |locals| else Find(locals, y) {
        FindAppend(locals, id, y);
      }
    }
  }

  lemma LetKept(keep: seq<int>, locals: seq<int>, slot: nat, id: nat, a: seq<Cell>, b: seq<Cell>, x: Ray)
    requires keep <= locals && Kept(keep, a, b) && slot < |b|
    requires slot == |locals| || (slot < |locals| && locals[slot] == id)
    ensures Kept(keep, a, b[slot := Full(x)])
  {
    forall i | 0 <= i < |keep| && keep[i] == HIDDEN ensures b[slot := Full(x)][i] == a[i] {
      assert locals[i] == HIDDEN;
    }
  }

  lemma {:induction false} SimReturn(h: Host, env: CompileEnv, n: nat, self: Ray, zero: Ray, t: Table, td: nat, f: Flow,
                                  e: Ray, form: Form, fr: Frame, v: View) returns (loc: seq<Cell>)
    requires Ready(h, env, self, zero, t, td, f, fr, v)
    requires Fits(form, Size(e)) && CalleeOK(env, form) && form.Return?
    requires Placed(env, CompForm(env, t, td, e, form), v) && CheckForm(env, zero, |self.params|, f, e, form).ok
    ensures Agrees(h, env, n, EvalForm(h, env, n, self, e, form, fr, v.w), v,
                   Aim(v, CompForm(env, t, td, e, form), t.locals, td, CheckForm(env, zero, |self.params|, f, e, form), fr), loc)
    decreases n, Size(e), 0, 0
  {
    hide Comp, Check, Eval, AddConst, Agrees, Leads, FrameOK, KeepsBuiltins, CompileLambda, CodeOf;
    var Return(r) := form;
    var c := if r.Some? then Comp(env, t, td, r.value) else LoadConst(t, Null);
    AtSplit(v.fn.code, v.ip, c.bytes, Repeat(OP_TRAP_END, td) + [OP_RET]);
    var g := Aim(v, CompForm(env, t, td, e, form), t.locals, td, CheckForm(env, zero, |self.params|, f, e, form), fr);
    if r.Some? {
      var f1 := Check(env, zero, |self.params|, f, r.value);
      loc := Sim(h, env, n, self, zero, t, td, f, r.value, fr, v);
      ReturnGlue(h, env, n, Eval(h, env, n, self, r.value, fr, v.w), v, Aim(v, c, t.locals, td, f1, fr), g, loc);
    } else {
      ConstSim(h, env, t, zero, Null, v);
      loc := v.loc;
      ReturnNull(h, env, n, v, v.ip + |c.bytes|, g);
    }
  }

  lemma ReturnNull(h: Host, env: CompileEnv, n: nat, v: View, ip: nat, g: Goal)
    requires ValidEnv(env) && v.Valid() && Pinned(h, env, v.w) && g.td <= |v.ts|
    requires Leads(h, env, v.Conf(), v.(ip := ip, ops := v.ops + [Null]).Conf())
    requires At(v.fn.code, ip, Repeat(OP_TRAP_END, g.td) + [OP_RET])
    ensures Agrees(h, env, n, Ret(Null, v.w), v, g, v.loc)
  {
    hide FrameOK, KeepsBuiltins;
    var u := v.(ip := ip);
    StepReturn(h, env, u, g.td, Null);
    LeadsTrans(h, env, v.Conf(), u.(ops := v.ops + [Null]).Conf(), Left(u, g.td, Null, u.w));
  }

  lemma ReturnGlue(h: Host, env: CompileEnv, n: nat, out: Out, v: View, g1: Goal, g: Goal, loc: seq<Cell>)
    requires ValidEnv(env) && v.Valid() && Agrees(h, env, n, out, v, g1, loc) && g.td <= |v.ts|
    requires At(v.fn.code, g1.ip, Repeat(OP_TRAP_END, g.td) + [OP_RET])
    requires g.td == g1.td && g.locals == g1.locals && |g.locals| <= |v.loc| && g.keep == g1.keep && g.before == g1.before
    ensures Agrees(h, env, n, Leave(out), v, g, loc)
  {
    if out.Val? {
      var u := v.(ip := g1.ip, loc := loc, w := out.w);
      StepReturn(h, env, u, g.td, out.v);
      LeadsTrans(h, env, v.Conf(), u.(ops := v.ops + [out.v]).Conf(), Left(u, g.td, out.v, u.w));
    } else {
      AbortFirst(h, env, n, out, v, g1, g, loc);
    }
  }

  lemma {:induction false} SimIf(h: Host, env: CompileEnv, n: nat, self: Ray, zero: Ray, t: Table, td: nat, f: Flow,
                                  e: Ray, form: Form, fr: Frame, v: View) returns (loc: seq<Cell>)
    requires Ready(h, env, self, zero, t, td, f, fr, v)
    requires Fits(form, Size(e)) && CalleeOK(env, form) && form.If?
    requires Placed(env, CompForm(env, t, td, e, form), v) && CheckForm(env, zero, |self.params|, f, e, form).ok
    ensures Agrees(h, env, n, EvalForm(h, env, n, self, e, form, fr, v.w), v,
                   Aim(v, CompForm(env, t, td, e, form), t.locals, td, CheckForm(env, zero, |self.params|, f, e, form), fr), loc)
    decreases n, Size(e), 0, 0
  {
    hide CodeOf;
    var If(c, a, b) := form;
    var arity := |self.params|;
    var cc := Comp(env, t, td, c);
    var ca := Comp(env, cc.table, td, a);
    var cb := if b.Some? then Comp(env, ca.table, td, b.value) else LoadConst(ca.table, I64(0));
    var fc := Check(env, zero, arity, f, c);
    var fa := Check(env, zero, arity, fc, a);
    var fb := if b.Some? then Check(env, zero, arity, fa.(sure := fc.sure), b.value) else fa.(sure := fc.sure);
    assert CompForm(env, t, td, e, form) == CompIf(cc.bytes, ca.bytes, cb);
    assert CheckForm(env, zero, arity, f, e, form) == fb.(sure := Join(fa.sure, fb.sure));
    assert EvalForm(h, env, n, self, e, form, fr, v.w) == Choose(h, env, n, self, Size(e), Eval(h, env, n, self, c, fr, v.w), a, b);
    IfParts(env, zero, arity, f, e, form);
    loc := IfCore(h, env, n, self, zero, t, td, f, Size(e), c, a, b, cc, ca, cb, fc, fa, fb, fr, v);
  }

  lemma {:induction false} IfCore(h: Host, env: CompileEnv, n: nat, self: Ray, zero: Ray, t: Table, td: nat, f: Flow,
                                  size: nat, c: Ray, a: Ray, b: Option<Ray>, cc: Emitted, ca: Emitted, cb: Emitted,
                                  fc: Flow, fa: Flow, fb: Flow, fr: Frame, v: View) returns (loc: seq<Cell>)
    requires Ready(h, env, self, zero, t, td, f, fr, v)
    requires Size(c) < size && Size(a) + (if b.Some? then Size(b.value) else 0) < size
    requires cc.Code? && ca.Code? && cb.Code? && cc == Comp(env, t, td, c) && ca == Comp(env, cc.table, td, a)
    requires cb == if b.Some? then Comp(env, ca.table, td, b.value) else LoadConst(ca.table, I64(0))
    requires Placed(env, CompIf(cc.bytes, ca.bytes, cb), v)
    requires fc.ok && fa.ok && fb.ok && fc == Check(env, zero, |self.params|, f, c) && fa == Check(env, zero, |self.params|, fc, a)
    requires fb == if b.Some? then Check(env, zero, |self.params|, fa.(sure := fc.sure), b.value) else fa.(sure := fc.sure)
    ensures Agrees(h, env, n, Choose(h, env, n, self, size, Eval(h, env, n, self, c, fr, v.w), a, b), v,
                   Aim(v, CompIf(cc.bytes, ca.bytes, cb), t.locals, td, fb.(sure := Join(fa.sure, fb.sure)), fr), loc)
    decreases n, size, 0, -1
  {
    hide Comp, Check, Eval, Agrees, CodeOf;
    IfLayout(v, cc.bytes, ca.bytes, cb.bytes);
    IfGrows2(env, t, td, c, a, b, cc, ca, cb);
    loc := Sim(h, env, n, self, zero, t, td, f, c, fr, v);
    var out := Eval(h, env, n, self, c, fr, v.w);
    var g1 := Aim(v, cc, t.locals, td, fc, fr);
    var g := Aim(v, CompIf(cc.bytes, ca.bytes, cb), t.locals, td, fb.(sure := Join(fa.sure, fb.sure)), fr);
    if out.Val? {
      Static(env, zero, |self.params|, t, td, f, c);
      loc := IfRest(h, env, n, self, zero, t.locals, cc.table, td, fc, fa, fb, a, b, ca, cb, out, v, g1, g, loc);
    } else {
      AbortFirst(h, env, n, out, v, g1, g, loc);
    }
  }

  lemma {:induction false} IfRest(h: Host, env: CompileEnv, n: nat, self: Ray, zero: Ray, keep: seq<int>, t: Table,
                                  td: nat, fc: Flow, fa: Flow, fb: Flow,
                                  a: Ray, b: Option<Ray>, ca: Emitted, cb: Emitted, out: Out, v: View, g1: Goal, g: Goal, loc0: seq<Cell>)
    returns (loc: seq<Cell>)
    requires Owner(h, env, self, zero, v.fn) && v.Valid() && td <= |v.ts| && t.consts <= v.fn.consts
    requires out.Val? && Agrees(h, env, n, out, v, g1, loc0)
    requires g1.locals == t.locals && g1.td == td && g1.flow == fc && g1.keep == keep && keep <= t.locals
    requires ca.Code? && cb.Code? && ca == Comp(env, t, td, a)
    requires cb == if b.Some? then Comp(env, ca.table, td, b.value) else LoadConst(ca.table, I64(0))
    requires Grows(t, ca.table) && Grows(ca.table, cb.table) && cb.table.consts <= v.fn.consts && |cb.table.locals| <= v.fn.nlocals
    requires fc.table == Names(t.locals) && fa.ok && fb.ok && fa == Check(env, zero, |self.params|, fc, a)
    requires fb == if b.Some? then Check(env, zero, |self.params|, fa.(sure := fc.sure), b.value) else fa.(sure := fc.sure)
    requires |ca.bytes| + 3 <= MAX_JUMP && |cb.bytes| <= MAX_JUMP
    requires At(v.fn.code, g1.ip, Jump(OP_JMPF, |ca.bytes| + 3)) && At(v.fn.code, g1.ip + 3, ca.bytes)
    requires At(v.fn.code, g1.ip + 3 + |ca.bytes|, Jump(OP_JMP, |cb.bytes|)) && At(v.fn.code, g1.ip + 6 + |ca.bytes|, cb.bytes)
    requires g == Goal(g1.ip + 6 + |ca.bytes| + |cb.bytes|, cb.table.locals, keep, td, g.flow, g1.before)
    requires g.flow.sure == Join(fa.sure, fb.sure)
    ensures Agrees(h, env, n, if h.truthy(out.v) then Eval(h, env, n, self, a, out.fr, out.w)
                              else if b.Some? then Eval(h, env, n, self, b.value, out.fr, out.w)
                              else Val(I64(0), out.fr, out.w), v, g, loc)
    decreases n, Size(a) + if b.Some? then Size(b.value) else 0, 3, 0
  {
    hide Comp, CompSeq, Check, Eval, EvalSeq, CodeOf;
    var u := Branch(h, env, n, out, v, g1, |ca.bytes| + 3, loc0);
    GrowsTrans(t, ca.table, cb.table);
    if h.truthy(out.v) {
      loc := SimThen(h, env, n, self, zero, t, td, fc, a, |cb.bytes|, out.fr, v, u, g);
    } else {
      loc := IfElse(h, env, n, self, zero, t, ca.table, td, fc, fa, a, b, cb, out.fr, v, u, g);
    }
  }

  lemma {:induction false} IfElse(h: Host, env: CompileEnv, n: nat, self: Ray, zero: Ray, t: Table, ta: Table, td: nat, fc: Flow, fa: Flow,
                                  a: Ray, b: Option<Ray>, cb: Emitted, fr: Frame, v: View, u: View, g: Goal) returns (loc: seq<Cell>)
    requires Ready(h, env, self, zero, t, td, fc, fr, u) && Reaches(h, env, v, u, [])
    requires Comp(env, t, td, a).Code? && Comp(env, t, td, a).table == ta && fa.ok && fa == Check(env, zero, |self.params|, fc, a)
    requires b.Some? ==> Check(env, zero, |self.params|, fa.(sure := fc.sure), b.value).ok
    requires cb == if b.Some? then Comp(env, ta, td, b.value) else LoadConst(ta, I64(0))
    requires Placed(env, cb, u) && g.ip == u.ip + |cb.bytes| && g.td == td && g.locals == cb.table.locals
    requires Grows(t, ta) && Grows(ta, cb.table)
    requires g.keep <= t.locals && Kept(g.keep, v.loc, u.loc) && g.before.Keys <= fr.Keys
    requires var fb := if b.Some? then Check(env, zero, |self.params|, fa.(sure := fc.sure), b.value) else fa.(sure := fc.sure);
      fb.sure.Live? ==> g.flow.sure.Live? && g.flow.sure.names <= fb.sure.names
    ensures Agrees(h, env, n, if b.Some? then Eval(h, env, n, self, b.value, fr, u.w) else Val(I64(0), fr, u.w), v, g, loc)
    decreases n, if b.Some? then Size(b.value) else 0, 2, 0
  {
    hide CodeOf;
    Static(env, zero, |self.params|, t, td, fc, a);
    FrameGrows(t.locals, ta.locals, fr, u.loc);
    loc := SimElse(h, env, n, self, zero, ta, td, fa.(sure := fc.sure), b, fr, v, u, g);
  }

  lemma IfGrows2(env: CompileEnv, t: Table, td: nat, c: Ray, a: Ray, b: Option<Ray>, cc: Emitted, ca: Emitted, cb: Emitted)
    requires ValidEnv(env)
    requires cc.Code? && ca.Code? && cb.Code? && cc == Comp(env, t, td, c) && ca == Comp(env, cc.table, td, a)
    requires cb == if b.Some? then Comp(env, ca.table, td, b.value) else LoadConst(ca.table, I64(0))
    ensures Grows(t, cc.table) && Grows(cc.table, ca.table) && Grows(ca.table, cb.table)
    ensures Grows(cc.table, cb.table)
  {
    CompGrows(env, t, td, c);
    CompGrows(env, cc.table, td, a);
    if b.Some? { CompGrows(env, ca.table, td, b.value); }
    GrowsTrans(cc.table, ca.table, cb.table);
  }

  lemma Branch(h: Host, env: CompileEnv, n: nat, out: Out, v: View, g: Goal, len: nat, loc: seq<Cell>) returns (u: View)
    requires ValidEnv(env) && v.Valid() && out.Val? && Agrees(h, env, n, out, v, g, loc)
    requires len <= MAX_JUMP && At(v.fn.code, g.ip, Jump(OP_JMPF, len))
    ensures u == v.(ip := g.ip + 3 + if h.truthy(out.v) then 0 else len, loc := loc, w := out.w)
    ensures Reaches(h, env, v, u, []) && u.Valid()
  {
    var u0 := v.(ip := g.ip, loc := loc, w := out.w);
    StepJumpFalse(h, env, u0, len, out.v);
    u := u0.(ip := g.ip + 3 + if h.truthy(out.v) then 0 else len);
    Consumed(h, env, n, out, v, g, loc, u);
  }

  lemma IfLayout(v: View, bc: seq<nat>, ba: seq<nat>, bb: seq<nat>)
    requires At(v.fn.code, v.ip, bc + (Jump(OP_JMPF, |ba| + 3) + (ba + (Jump(OP_JMP, |bb|) + bb))))
    ensures At(v.fn.code, v.ip, bc) && At(v.fn.code, v.ip + |bc|, Jump(OP_JMPF, |ba| + 3))
    ensures At(v.fn.code, v.ip + |bc| + 3, ba) && At(v.fn.code, v.ip + |bc| + 3 + |ba|, Jump(OP_JMP, |bb|))
    ensures At(v.fn.code, v.ip + |bc| + 3 + |ba| + 3, bb)
  {
    var r3 := Jump(OP_JMP, |bb|) + bb;
    var r2 := ba + r3;
    var r1 := Jump(OP_JMPF, |ba| + 3) + r2;
    AtSplit(v.fn.code, v.ip, bc, r1);
    AtSplit(v.fn.code, v.ip + |bc|, Jump(OP_JMPF, |ba| + 3), r2);
    AtSplit(v.fn.code, v.ip + |bc| + 3, ba, r3);
    AtSplit(v.fn.code, v.ip + |bc| + 3 + |ba|, Jump(OP_JMP, |bb|), bb);
  }

  lemma {:induction false} SimThen(h: Host, env: CompileEnv, n: nat, self: Ray, zero: Ray, t: Table, td: nat, f: Flow,
                                   a: Ray, skip: nat, fr: Frame, v: View, u: View, g: Goal) returns (loc: seq<Cell>)
    requires Ready(h, env, self, zero, t, td, f, fr, u) && Reaches(h, env, v, u, [])
    requires Placed(env, Comp(env, t, td, a), u) && Check(env, zero, |self.params|, f, a).ok
    requires var c := Comp(env, t, td, a);
      && skip <= MAX_JUMP && At(u.fn.code, u.ip + |c.bytes|, Jump(OP_JMP, skip)) && g.ip == u.ip + |c.bytes| + 3 + skip
      && g.td == td && Extends(c.table.locals, g.locals) && |g.locals| <= |v.loc|
    requires g.keep <= t.locals && Kept(g.keep, v.loc, u.loc) && g.before.Keys <= fr.Keys
    requires var fa := Check(env, zero, |self.params|, f, a);
      fa.sure.Live? ==> g.flow.sure.Live? && g.flow.sure.names <= fa.sure.names
    ensures Agrees(h, env, n, Eval(h, env, n, self, a, fr, u.w), v, g, loc)
    decreases n, Size(a), 1, 0
  {
    hide CodeOf;
    var c := Comp(env, t, td, a);
    loc := Sim(h, env, n, self, zero, t, td, f, a, fr, u);
    var out := Eval(h, env, n, self, a, fr, u.w);
    var gu := Aim(u, c, t.locals, td, Check(env, zero, |self.params|, f, a), fr);
    JumpOver(h, env, n, out, u, gu, skip, loc);
    Finish(h, env, n, out, v, u, gu.(ip := g.ip), g, loc);
  }

  lemma JumpOver(h: Host, env: CompileEnv, n: nat, out: Out, v: View, g: Goal, skip: nat, loc: seq<Cell>)
    requires ValidEnv(env) && Agrees(h, env, n, out, v, g, loc)
    requires skip <= MAX_JUMP && At(v.fn.code, g.ip, Jump(OP_JMP, skip))
    ensures Agrees(h, env, n, out, v, g.(ip := g.ip + 3 + skip), loc)
  {
    if out.Val? {
      var d := v.(ip := g.ip, loc := loc, ops := v.ops + [out.v], w := out.w);
      StepJump(h, env, d, skip);
      LeadsTrans(h, env, v.Conf(), d.Conf(), d.(ip := g.ip + 3 + skip).Conf());
    }
  }

  lemma {:induction false} SimElse(h: Host, env: CompileEnv, n: nat, self: Ray, zero: Ray, t: Table, td: nat, f: Flow,
                                   b: Option<Ray>, fr: Frame, v: View, u: View, g: Goal) returns (loc: seq<Cell>)
    requires Ready(h, env, self, zero, t, td, f, fr, u) && Reaches(h, env, v, u, [])
    requires b.Some? ==> Check(env, zero, |self.params|, f, b.value).ok
    requires var c := if b.Some? then Comp(env, t, td, b.value) else LoadConst(t, I64(0));
      && Placed(env, c, u) && g.ip == u.ip + |c.bytes| && g.td == td && g.locals == c.table.locals
    requires g.keep <= t.locals && Kept(g.keep, v.loc, u.loc) && g.before.Keys <= fr.Keys
    requires var fb := if b.Some? then Check(env, zero, |self.params|, f, b.value) else f;
      fb.sure.Live? ==> g.flow.sure.Live? && g.flow.sure.names <= fb.sure.names
    ensures Agrees(h, env, n, if b.Some? then Eval(h, env, n, self, b.value, fr, u.w) else Val(I64(0), fr, u.w), v, g, loc)
    decreases n, if b.Some? then Size(b.value) else 0, 1, 0
  {
    hide CodeOf;
    var c := if b.Some? then Comp(env, t, td, b.value) else LoadConst(t, I64(0));
    if b.Some? {
      loc := Sim(h, env, n, self, zero, t, td, f, b.value, fr, u);
      Finish(h, env, n, Eval(h, env, n, self, b.value, fr, u.w), v, u,
             Aim(u, c, t.locals, td, Check(env, zero, |self.params|, f, b.value), fr), g, loc);
    } else {
      ConstSim(h, env, t, zero, I64(0), u);
      loc := u.loc;
      Finish(h, env, n, Val(I64(0), fr, u.w), v, u, Aim(u, c, t.locals, td, f, fr), g, loc);
    }
  }

  lemma {:induction false} SimSelf(h: Host, env: CompileEnv, n: nat, self: Ray, zero: Ray, t: Table, td: nat, f: Flow,
                                  e: Ray, form: Form, fr: Frame, v: View) returns (loc: seq<Cell>)
    requires Ready(h, env, self, zero, t, td, f, fr, v)
    requires Fits(form, Size(e)) && CalleeOK(env, form) && form.Self?
    requires Placed(env, CompForm(env, t, td, e, form), v) && CheckForm(env, zero, |self.params|, f, e, form).ok
    ensures Agrees(h, env, n, EvalForm(h, env, n, self, e, form, fr, v.w), v,
                   Aim(v, CompForm(env, t, td, e, form), t.locals, td, CheckForm(env, zero, |self.params|, f, e, form), fr), loc)
    decreases n, Size(e), 0, 0
  {
    hide Size, Comp, CompSeq, Check, Eval, EvalSeq, CompLet, CompSet, CompTry, CompIf, CompSpecial;
    var args := form.args;
    var c := CompArgs(env, t, td, args);
    var f1 := CheckAll(env, zero, |self.params|, f, args);
    AtSplit(v.fn.code, v.ip, c.bytes, [OP_CALLS, |args|]);
    loc := SimArgs(h, env, n, self, zero, t, td, f, args, fr, v);
    var g1 := Aim(v, c, t.locals, td, f1, fr);
    var g := Aim(v, CompForm(env, t, td, e, form), t.locals, td, CheckForm(env, zero, |self.params|, f, e, form), fr);
    assert g == g1.(ip := g.ip, flow := g.flow) && g.ip == g1.ip + 2 && g.flow.sure == g1.flow.sure;
    SelfGlue(h, env, n, self, EvalArgs(h, env, n, self, args, fr, v.w), v, g1, g, loc);
  }

  lemma {:induction false} SelfGlue(h: Host, env: CompileEnv, n: nat, self: Ray, outs: Outs, v: View, g1: Goal, g: Goal, loc: seq<Cell>)
    requires ValidEnv(env) && KeepsBuiltins(h, env) && v.Valid() && AgreesArgs(h, env, n, outs, v, g1, loc)
    requires Checked(env, self) && CompileLambda(env, self.params, self.body) == Some(v.fn)
    requires g == g1.(ip := g1.ip + 2, flow := g.flow) && g.flow.sure == g1.flow.sure && |g.locals| <= |v.loc|
    requires At(v.fn.code, g1.ip, [OP_CALLS, |self.params|]) && (outs.Vals? ==> |outs.vs| == |self.params|)
    ensures Agrees(h, env, n, Invoke(h, env, n, self, outs), v, g, loc)
    decreases n, 0, 3, 0
  {
    match outs
    case NoVals(out) => AbortFirst(h, env, n, out, v, g1, g, loc);
    case Vals(xs, fr, w) =>
      var u := v.(ip := g1.ip, loc := loc, w := w);
      ProgramSlots(env, self.params, self.body);
      StepCallSelf(h, env, u, xs);
      SelfSim(h, env, n, self, xs, u.(ip := g.ip));
      CallDone(h, env, n, Apply(h, env, n, self, xs, w), v, u.(ops := v.ops + xs), xs,
               Callee(u, u.fn, xs, Saved(None, |u.below|, u.ip + 2)).Conf(), g, fr);
  }

  /** The code of a call: its head, its arguments, the call itself. */
  lemma CallPlaced(env: CompileEnv, zero: Ray, arity: nat, t: Table, td: nat, f: Flow, e: Ray, form: Form, v: View)
    requires ValidEnv(env) && ZeroOfOneSign(zero) && zero !in t.consts && f.table == Names(t.locals)
    requires Fits(form, Size(e)) && CalleeOK(env, form) && form.Call?
    requires Placed(env, CompForm(env, t, td, e, form), v) && CheckForm(env, zero, arity, f, e, form).ok
    ensures var Call(head, callee, args) := form;
      var ch := if callee.Some? then LoadConst(t, callee.value) else Comp(env, t, td, head);
      var fh := if callee.Some? then f.(ok := f.ok && head.id !in f.table) else Check(env, zero, arity, f, head);
      && Placed(env, ch, v) && f.ok && fh.ok && fh.table == Names(ch.table.locals) && t.locals <= ch.table.locals
      && var ca := CompArgs(env, ch.table, td, args);
      && Placed(env, ca, v.(ip := v.ip + |ch.bytes|)) && At(v.fn.code, v.ip + |ch.bytes| + |ca.bytes|, CallOp(callee, |args|))
      && Extends(ch.table.locals, ca.table.locals) && |args| <= MAX_ARGS && CompForm(env, t, td, e, form).table == ca.table
      && |CompForm(env, t, td, e, form).bytes| == |ch.bytes| + |ca.bytes| + |CallOp(callee, |args|)|
      && CheckForm(env, zero, arity, f, e, form) == CheckAll(env, zero, arity, fh, args)
  {
    hide Comp, Check, Classify;
    var Call(head, callee, args) := form;
    var ch := if callee.Some? then LoadConst(t, callee.value) else Comp(env, t, td, head);
    var ca := CompArgs(env, ch.table, td, args);
    var b := CallOp(callee, |args|);
    assert CompForm(env, t, td, e, form) == Code(ch.bytes + (ca.bytes + b), ca.table);
    CallParts(env, zero, arity, f, e, form);
    CompArgsGrows(env, ch.table, td, args);
    if callee.None? {
      CompGrows(env, t, td, head);
      Static(env, zero, arity, t, td, f, head);
    }
    AtSplit(v.fn.code, v.ip, ch.bytes, ca.bytes + b);
    AtSplit(v.fn.code, v.ip + |ch.bytes|, ca.bytes, b);
  }

  /** An operand is there: what follows is ready to run on top of it. */
  lemma ValueReady(h: Host, env: CompileEnv, n: nat, self: Ray, zero: Ray, t: Table, out: Out, v: View, g: Goal, loc: seq<Cell>)
    requires Owner(h, env, self, zero, v.fn) && v.Valid() && g.td <= |v.ts| && t.consts <= v.fn.consts
    requires out.Val? && Agrees(h, env, n, out, v, g, loc) && g.locals == t.locals && g.flow.table == Names(t.locals)
    ensures var u := v.(ip := g.ip, loc := loc, ops := v.ops + [out.v], w := out.w);
      && Ready(h, env, self, zero, t, g.td, g.flow, out.fr, u) && Reaches(h, env, v, u, [out.v])
      && Kept(g.keep, v.loc, u.loc) && g.before.Keys <= out.fr.Keys
  {
    hide Leads, Pinned, KeepsBuiltins, CompileLambda, CodeOf;
  }

  lemma {:induction false} SimCall(h: Host, env: CompileEnv, n: nat, self: Ray, zero: Ray, t: Table, td: nat, f: Flow,
                                  e: Ray, form: Form, fr: Frame, v: View) returns (loc: seq<Cell>)
    requires Ready(h, env, self, zero, t, td, f, fr, v)
    requires Fits(form, Size(e)) && CalleeOK(env, form) && form.Call?
    requires Placed(env, CompForm(env, t, td, e, form), v) && CheckForm(env, zero, |self.params|, f, e, form).ok
    ensures Agrees(h, env, n, EvalForm(h, env, n, self, e, form, fr, v.w), v,
                   Aim(v, CompForm(env, t, td, e, form), t.locals, td, CheckForm(env, zero, |self.params|, f, e, form), fr), loc)
    decreases n, Size(e), 0, 0
  {
    hide CompForm, CheckForm, Comp, Check, CompArgs, CheckAll, LoadConst, CallOp, Eval, Agrees, Kept, Leads,
         FrameOK, Pinned, KeepsBuiltins, CompileLambda, CodeOf, Names, Extends;
    var Call(head, callee, args) := form;
    var arity := |self.params|;
    CallPlaced(env, zero, arity, t, td, f, e, form, v);
    var ch := if callee.Some? then LoadConst(t, callee.value) else Comp(env, t, td, head);
    var fh := if callee.Some? then f.(ok := f.ok && head.id !in f.table) else Check(env, zero, arity, f, head);
    loc := SimHead(h, env, n, self, zero, t, td, f, head, callee, fr, v);
    var out := Eval(h, env, n, self, head, fr, v.w);
    var g := Aim(v, CompForm(env, t, td, e, form), t.locals, td, CheckForm(env, zero, arity, f, e, form), fr);
    var gh := Aim(v, ch, t.locals, td, fh, fr);
    if !out.Val? {
      AbortFirst(h, env, n, out, v, gh, g, loc);
      return;
    }
    ValueReady(h, env, n, self, zero, ch.table, out, v, gh, loc);
    loc := SimCallArgs(h, env, n, self, zero, ch.table, td, fh, callee, args, out.v, out.fr, v,
                       v.(ip := gh.ip, loc := loc, ops := v.ops + [out.v], w := out.w), g);
  }

  /** The head of a call: a built-in known at compile time, or any expression. */
  lemma {:induction false} SimHead(h: Host, env: CompileEnv, n: nat, self: Ray, zero: Ray, t: Table, td: nat, f: Flow,
                                   head: Ray, callee: Option<Ray>, fr: Frame, v: View) returns (loc: seq<Cell>)
    requires Ready(h, env, self, zero, t, td, f, fr, v) && f.ok
    requires callee.Some? ==> head.Symbol? && !head.quoted && head.id in env.fns && callee.value == env.fns[head.id] && head.id !in f.table
    requires callee.None? ==> Check(env, zero, |self.params|, f, head).ok
    requires Placed(env, if callee.Some? then LoadConst(t, callee.value) else Comp(env, t, td, head), v)
    ensures var ch := if callee.Some? then LoadConst(t, callee.value) else Comp(env, t, td, head);
            var fh := if callee.Some? then f else Check(env, zero, |self.params|, f, head);
            && Agrees(h, env, n, Eval(h, env, n, self, head, fr, v.w), v, Aim(v, ch, t.locals, td, fh, fr), loc)
            && fh.table == Names(ch.table.locals) && Extends(t.locals, ch.table.locals)
    decreases n, Size(head), 1, 0
  {
    hide Comp, Check, CodeOf;
    if callee.Some? {
      loc := v.loc;
      ConstSim(h, env, t, zero, callee.value, v);
      assert Classify(env, head) == Name(head.id);
      assert Eval(h, env, n, self, head, fr, v.w) == EvalForm(h, env, n, self, head, Name(head.id), fr, v.w);
      assert head.id !in fr;
    } else {
      CompGrows(env, t, td, head);
      Static(env, zero, |self.params|, t, td, f, head);
      loc := Sim(h, env, n, self, zero, t, td, f, head, fr, v);
    }
  }

  lemma {:induction false} SimCallArgs(h: Host, env: CompileEnv, n: nat, self: Ray, zero: Ray, t: Table, td: nat, f: Flow,
      callee: Option<Ray>, args: seq<Ray>, fv: Ray, fr: Frame, v: View, u: View, g: Goal) returns (loc: seq<Cell>)
    requires Ready(h, env, self, zero, t, td, f, fr, u) && Reaches(h, env, v, u, [fv])
    requires CheckAll(env, zero, |self.params|, f, args).ok && |args| <= MAX_ARGS && (callee.Some? ==> callee.value.Builtin?)
    requires var c := CompArgs(env, t, td, args);
      && Placed(env, c, u) && At(u.fn.code, u.ip + |c.bytes|, CallOp(callee, |args|))
      && g.ip == u.ip + |c.bytes| + |CallOp(callee, |args|)| && g.locals == c.table.locals
      && g.td == td && g.flow == CheckAll(env, zero, |self.params|, f, args)
    requires g.keep <= t.locals && Kept(g.keep, v.loc, u.loc) && g.before.Keys <= fr.Keys
    ensures Agrees(h, env, n, Invoke(h, env, n, fv, EvalArgs(h, env, n, self, args, fr, u.w)), v, g, loc)
    decreases n, SizeAll(args), 4, |args|
  {
    hide Comp, Check, Eval, Agrees, Leads, FrameOK, Pinned, KeepsBuiltins, CompileLambda, CodeOf;
    var c := CompArgs(env, t, td, args);
    loc := SimArgs(h, env, n, self, zero, t, td, f, args, fr, u);
    var gu := Aim(u, c, t.locals, td, g.flow, fr);
    match EvalArgs(h, env, n, self, args, fr, u.w)
    case NoVals(out) =>
      Abort(h, env, n, out, v, u, [fv], gu, g, loc);
    case Vals(xs, fr1, w1) =>
      CallGlue(h, env, n, callee, fv, xs, fr1, w1, v, u, gu, g, loc);
  }

  lemma {:induction false} CallGlue(h: Host, env: CompileEnv, n: nat, callee: Option<Ray>, fv: Ray, xs: seq<Ray>, fr: Frame, w: World,
                                    v: View, u: View, gu: Goal, g: Goal, loc: seq<Cell>)
    requires ValidEnv(env) && KeepsBuiltins(h, env) && Reaches(h, env, v, u, [fv])
    requires AgreesArgs(h, env, n, Vals(xs, fr, w), u, gu, loc)
    requires |xs| <= MAX_ARGS && (callee.Some? ==> callee.value.Builtin?)
    requires At(u.fn.code, gu.ip, CallOp(callee, |xs|))
    requires g == gu.(ip := gu.ip + |CallOp(callee, |xs|)|, keep := g.keep, before := g.before)
    requires g.keep <= gu.keep && Kept(g.keep, v.loc, u.loc) && g.before.Keys <= gu.before.Keys
    ensures Agrees(h, env, n, Lift(Apply(h, env, n, fv, xs, w), fr), v, g, loc)
    decreases n, 0, 3, 0
  {
    hide Called, Apply, CallOp, Unwind;
    var d := v.(ip := gu.ip, loc := loc, w := w);
    var pre := d.(ops := v.ops + [fv] + xs);
    assert pre == u.(ip := gu.ip, loc := loc, ops := u.ops + xs, w := w);
    LeadsTrans(h, env, v.Conf(), u.Conf(), pre.Conf());
    assert v.ops + [fv] + xs == v.ops + ([fv] + xs);
    StepCall(h, env, d, callee, fv, xs);
    ApplySim(h, env, n, fv, xs, d.(ip := g.ip));
    KeptTrans(g.keep, gu.keep, v.loc, u.loc, loc);
    CallDone(h, env, n, Apply(h, env, n, fv, xs, w), v, pre, [fv] + xs, Called(h, env, d.(ip := g.ip), fv, xs), g, fr);
  }

  lemma {:induction false} SimTry(h: Host, env: CompileEnv, n: nat, self: Ray, zero: Ray, t: Table, td: nat, f: Flow,
                                  e: Ray, form: Form, fr: Frame, v: View) returns (loc: seq<Cell>)
    requires Ready(h, env, self, zero, t, td, f, fr, v)
    requires Fits(form, Size(e)) && CalleeOK(env, form) && form.Try?
    requires Placed(env, CompForm(env, t, td, e, form), v) && CheckForm(env, zero, |self.params|, f, e, form).ok
    ensures Agrees(h, env, n, EvalForm(h, env, n, self, e, form, fr, v.w), v,
                   Aim(v, CompForm(env, t, td, e, form), t.locals, td, CheckForm(env, zero, |self.params|, f, e, form), fr), loc)
    decreases n, Size(e), 0, 0
  {
    var Try(b, hd) := form;
    var arity := |self.params|;
    var cb := Comp(env, t.(locals := t.locals + [HIDDEN]), td + 1, b);
    var ch := Comp(env, cb.table, td, hd);
    var fb := Check(env, zero, arity, f, b);
    var fh := Check(env, zero, arity, fb.(sure := f.sure), hd);
    assert CompForm(env, t, td, e, form) == CompTry(|t.locals|, cb.bytes, ch);
    assert CheckForm(env, zero, arity, f, e, form) == fh.(sure := Join(fb.sure, fh.sure));
    assert EvalForm(h, env, n, self, e, form, fr, v.w) == Guard(h, env, n, self, Size(e), Eval(h, env, n, self, b, fr, v.w), hd);
    TryParts(env, zero, arity, f, e, form);
    loc := TryCore(h, env, n, self, zero, t, td, f, Size(e), b, hd, cb, ch, fb, fh, fr, v);
  }

  lemma {:induction false} TryCore(h: Host, env: CompileEnv, n: nat, self: Ray, zero: Ray, t: Table, td: nat, f: Flow,
                                   size: nat, b: Ray, hd: Ray, cb: Emitted, ch: Emitted, fb: Flow, fh: Flow,
                                   fr: Frame, v: View) returns (loc: seq<Cell>)
    requires Ready(h, env, self, zero, t, td, f, fr, v) && Size(b) < size && Size(hd) < size
    requires cb.Code? && ch.Code? && cb == Comp(env, t.(locals := t.locals + [HIDDEN]), td + 1, b) && ch == Comp(env, cb.table, td, hd)
    requires Placed(env, CompTry(|t.locals|, cb.bytes, ch), v)
    requires fb.ok && fh.ok && fb == Check(env, zero, |self.params|, f, b) && fh == Check(env, zero, |self.params|, fb.(sure := f.sure), hd)
    ensures Agrees(h, env, n, Guard(h, env, n, self, size, Eval(h, env, n, self, b, fr, v.w), hd), v,
                   Aim(v, CompTry(|t.locals|, cb.bytes, ch), t.locals, td, fh.(sure := Join(fb.sure, fh.sure)), fr), loc)
    decreases n, size, 0, -1
  {
    hide Comp, Check, Eval, Agrees, CodeOf;
    var v1 := v.(ip := v.ip + 3, ts := v.ts + [TrapOf(v, |cb.bytes| + 4)]);
    TryLayout(v, |t.locals|, cb.bytes, ch.bytes);
    TryGrows2(env, t, td, b, hd, cb, ch);
    loc := TryBody(h, env, n, self, zero, t, td, f, b, cb, fb, fr, v, v1);
    var out := Eval(h, env, n, self, b, fr, v.w);
    var g := Aim(v, CompTry(|t.locals|, cb.bytes, ch), t.locals, td, fh.(sure := Join(fb.sure, fh.sure)), fr);
    var gb := Aim(v1, cb, t.locals + [HIDDEN], td + 1, fb, fr);
    if out.Fail? {
      loc := TryFail(h, env, n, self, zero, cb.table, td, fb.(sure := f.sure), hd, ch, fh, out, v, v1, gb, g,
                     |t.locals|, |cb.bytes| + 4, loc);
    } else {
      TryGlue(h, env, n, out, v, v1, gb, g, |cb.bytes|, |ch.bytes|, loc);
      assert Guard(h, env, n, self, size, out, hd) == out;
    }
  }

  lemma {:induction false} TryFail(h: Host, env: CompileEnv, n: nat, self: Ray, zero: Ray, t: Table, td: nat, f: Flow, hd: Ray,
                                   ch: Emitted, fh: Flow, out: Out, v: View, v1: View, gb: Goal, g: Goal, slot: nat, len: nat,
                                   loc0: seq<Cell>) returns (loc: seq<Cell>)
    requires Owner(h, env, self, zero, v.fn) && v.Valid() && td <= |v.ts| && Leads(h, env, v.Conf(), v1.Conf())
    requires out.Fail? && Agrees(h, env, n, out, v1, gb, loc0)
    requires ch.Code? && ch == Comp(env, t, td, hd) && Placed(env, ch, v.(ip := gb.ip + 6)) && t.consts <= v.fn.consts
    requires v1 == v.(ip := v.ip + 3, ts := v.ts + [TrapOf(v, len)]) && v.ip + len == gb.ip + 1
    requires At(v.fn.code, gb.ip + 4, [OP_STOREENV, slot])
    requires At(v.fn.code, gb.ip + 6 + |ch.bytes|, [OP_LOADENV, slot]) && At(v.fn.code, gb.ip + 8 + |ch.bytes|, [OP_TRYH])
    requires f.sure.Live? && f.table == Names(t.locals) && f.sure.names <= gb.before.Keys
    requires fh.ok && fh == Check(env, zero, |self.params|, f, hd)
    requires slot < |gb.keep| && gb.keep[slot] == HIDDEN && gb.keep <= gb.locals && gb.locals == t.locals && gb.keep[..slot] == g.keep
    requires g.ip == gb.ip + 9 + |ch.bytes| && g.locals == ch.table.locals && g.td == td && g.before == gb.before
    requires fh.sure.Live? ==> g.flow.sure.Live? && g.flow.sure.names <= fh.sure.names
    ensures Agrees(h, env, n,
                   Recover(h, env, n, Caught(out.f, out.w),
                           Eval(h, env, n, self, hd, out.fr, out.w.(raised := None))), v, g, loc)
    decreases n, Size(hd), 2, 0
  {
    hide Comp, Check, Eval, CodeOf;
    var u := Catch(h, env, n, out, v, v1, gb, slot, len, loc0);
    loc := SimHandler(h, env, n, self, zero, t, td, f, hd, slot, Caught(out.f, out.w), out.fr, v, u, g);
  }

  lemma {:induction false} TryBody(h: Host, env: CompileEnv, n: nat, self: Ray, zero: Ray, t: Table, td: nat, f: Flow,
                                   b: Ray, cb: Emitted, fb: Flow, fr: Frame, v: View, v1: View) returns (loc: seq<Cell>)
    requires Ready(h, env, self, zero, t, td, f, fr, v)
    requires cb.Code? && cb == Comp(env, t.(locals := t.locals + [HIDDEN]), td + 1, b)
    requires cb.table.consts <= v.fn.consts && |cb.table.locals| <= v.fn.nlocals
    requires |cb.bytes| + 4 <= MAX_JUMP && At(v.fn.code, v.ip, Jump(OP_TRAP, |cb.bytes| + 4)) && At(v.fn.code, v.ip + 3, cb.bytes)
    requires v1 == v.(ip := v.ip + 3, ts := v.ts + [TrapOf(v, |cb.bytes| + 4)])
    requires fb.ok && fb == Check(env, zero, |self.params|, f, b)
    ensures Leads(h, env, v.Conf(), v1.Conf())
    ensures Agrees(h, env, n, Eval(h, env, n, self, b, fr, v.w), v1, Aim(v1, cb, t.locals + [HIDDEN], td + 1, fb, fr), loc)
    ensures fb.table == Names(cb.table.locals)
    decreases n, Size(b), 1, 0
  {
    hide Size, CompSeq, EvalSeq, Comp, Check, Eval, CodeOf;
    var t0 := t.(locals := t.locals + [HIDDEN]);
    GrowsLocal(t, HIDDEN);
    NamesAppend(t.locals, HIDDEN);
    Static(env, zero, |self.params|, t0, td + 1, f, b);
    StepTrap(h, env, v, |cb.bytes| + 4);
    CompGrows(env, t0, td + 1, b);
    FrameGrows(t.locals, t0.locals, fr, v.loc);
    loc := Sim(h, env, n, self, zero, t0, td + 1, f, b, fr, v1);
  }

  lemma TryGrows2(env: CompileEnv, t: Table, td: nat, b: Ray, hd: Ray, cb: Emitted, ch: Emitted)
    requires ValidEnv(env) && cb.Code? && ch.Code?
    requires cb == Comp(env, t.(locals := t.locals + [HIDDEN]), td + 1, b) && ch == Comp(env, cb.table, td, hd)
    ensures var t0 := t.(locals := t.locals + [HIDDEN]);
      Grows(t, t0) && Grows(t0, cb.table) && Grows(cb.table, ch.table) && Names(t0.locals) == Names(t.locals)
  {
    GrowsLocal(t, HIDDEN);
    NamesAppend(t.locals, HIDDEN);
    CompGrows(env, t.(locals := t.locals + [HIDDEN]), td + 1, b);
    CompGrows(env, cb.table, td, hd);
  }

  lemma TryLayout(v: View, slot: nat, bb: seq<nat>, bh: seq<nat>)
    requires At(v.fn.code, v.ip, Jump(OP_TRAP, |bb| + 4)
                + (bb + ([OP_TRAP_END] + (Jump(OP_JMP, |bh| + 5)
                + ([OP_STOREENV, slot] + (bh + [OP_LOADENV, slot, OP_TRYH]))))))
    ensures At(v.fn.code, v.ip, Jump(OP_TRAP, |bb| + 4)) && At(v.fn.code, v.ip + 3, bb)
    ensures At(v.fn.code, v.ip + 3 + |bb|, [OP_TRAP_END]) && At(v.fn.code, v.ip + 4 + |bb|, Jump(OP_JMP, |bh| + 5))
    ensures At(v.fn.code, v.ip + 7 + |bb|, [OP_STOREENV, slot]) && At(v.fn.code, v.ip + 9 + |bb|, bh)
    ensures At(v.fn.code, v.ip + 9 + |bb| + |bh|, [OP_LOADENV, slot]) && At(v.fn.code, v.ip + 11 + |bb| + |bh|, [OP_TRYH])
  {
    var code := v.fn.code;
    var r6 := [OP_LOADENV, slot, OP_TRYH];
    var r5 := bh + r6;
    var r4 := [OP_STOREENV, slot] + r5;
    var r3 := Jump(OP_JMP, |bh| + 5) + r4;
    var r2 := [OP_TRAP_END] + r3;
    AtSplit(code, v.ip, Jump(OP_TRAP, |bb| + 4), bb + r2);
    AtSplit(code, v.ip + 3, bb, r2);
    AtSplit(code, v.ip + 3 + |bb|, [OP_TRAP_END], r3);
    AtSplit(code, v.ip + 4 + |bb|, Jump(OP_JMP, |bh| + 5), r4);
    AtSplit(code, v.ip + 7 + |bb|, [OP_STOREENV, slot], r5);
    AtSplit(code, v.ip + 9 + |bb|, bh, r6);
    assert r6 == [OP_LOADENV, slot] + [OP_TRYH];
    AtSplit(code, v.ip + 9 + |bb| + |bh|, [OP_LOADENV, slot], [OP_TRYH]);
  }

  /** The body of a try does not fail: close the trap and jump over the handler. */
  lemma TryGlue(h: Host, env: CompileEnv, n: nat, out: Out, v: View, v1: View, gb: Goal, g: Goal, bb: nat, bh: nat, loc: seq<Cell>)
    requires ValidEnv(env) && v.Valid() && Leads(h, env, v.Conf(), v1.Conf())
    requires v1 == v.(ip := v.ip + 3, ts := v.ts + [TrapOf(v, bb + 4)]) && !out.Fail? && Agrees(h, env, n, out, v1, gb, loc)
    requires gb.ip == v.ip + 3 + bb && bh + 5 <= MAX_JUMP && g.ip == gb.ip + 9 + bh
    requires At(v.fn.code, gb.ip, [OP_TRAP_END]) && At(v.fn.code, gb.ip + 1, Jump(OP_JMP, bh + 5))
    requires gb.td == g.td + 1 && g.td <= |v.ts| && Extends(gb.locals, g.locals) && |g.locals| <= |v.loc|
    requires g.keep <= gb.keep && |g.keep| <= |v.loc| && g.before == gb.before
    requires gb.flow.sure.Live? ==> g.flow.sure.Live? && g.flow.sure.names <= gb.flow.sure.names
    ensures Agrees(h, env, n, out, v, g, loc)
  {
    match out
    case NoFuel => LeadsTimeout(h, env, v.Conf(), v1.Conf(), n);
    case Beyond =>
    case Ret(x, w) =>
      assert v1.ts[..|v1.ts| - gb.td] == v.ts[..|v.ts| - g.td];
      LeadsTrans(h, env, v.Conf(), v1.Conf(), Left(v1, gb.td, x, w));
    case Val(x, fr, w) =>
      var trap := TrapOf(v, bb + 4);
      var d := v.(ip := gb.ip, loc := loc, ops := v.ops + [x], w := w);
      StepTrapEnd(h, env, d, trap);
      StepJump(h, env, d.(ip := gb.ip + 1), bh + 5);
      LeadsTrans(h, env, v.Conf(), v1.Conf(), d.(ts := v.ts + [trap]).Conf());
      LeadsTrans(h, env, v.Conf(), d.(ts := v.ts + [trap]).Conf(), d.(ip := gb.ip + 1).Conf());
      LeadsTrans(h, env, v.Conf(), d.(ip := gb.ip + 1).Conf(), d.(ip := g.ip).Conf());
      FrameGrows(gb.locals, g.locals, fr, loc);
      KeptTrans(g.keep, gb.keep, v.loc, v.loc, loc);
  }

  /** The body fails: its handler starts with the error in the hidden slot. */
  lemma Catch(h: Host, env: CompileEnv, n: nat, out: Out, v: View, v1: View, gb: Goal, slot: nat, len: nat, loc: seq<Cell>)
    returns (u: View)
    requires ValidEnv(env) && v.Valid() && Leads(h, env, v.Conf(), v1.Conf())
    requires v1 == v.(ip := v.ip + 3, ts := v.ts + [TrapOf(v, len)]) && out.Fail? && Agrees(h, env, n, out, v1, gb, loc)
    requires slot < |gb.keep| && gb.keep[slot] == HIDDEN && gb.keep <= gb.locals && At(v.fn.code, v.ip + 3 + len, [OP_STOREENV, slot])
    ensures u == v.(ip := v.ip + 3 + len + 2, loc := loc[slot := Full(Caught(out.f, out.w))], w := out.w.(raised := None))
    ensures u.Valid() && Reaches(h, env, v, u, []) && slot < |loc| && FrameOK(gb.locals, out.fr, u.loc)
    ensures |gb.keep| <= |v.loc| && Kept(gb.keep[..slot], v.loc, u.loc)
  {
    hide Exec, Step, Run, Comp, CompSeq, CompArgs, Pinned, KeepsBuiltins, Leads, Shifts, ReadIndex, ReadOffset,
         Ends, Nests;
    var Fail(f, fr, w) := out;
    var err := Caught(f, w);
    UnwindHere(v.(loc := loc, w := w), TrapOf(v, len), f);
    PinnedGlobals(h, env, w, None);
    var u0 := v.(ip := v.ip + 3 + len, loc := loc, w := w.(raised := None));
    assert Leads(h, env, v1.Conf(), u0.(ops := v.ops + [err]).Conf());
    StepStoreEnv(h, env, u0, slot, err);
    u := u0.(ip := u0.ip + 2, loc := loc[slot := Full(err)]);
    LeadsTrans(h, env, v.Conf(), v1.Conf(), u0.(ops := v.ops + [err]).Conf());
    LeadsTrans(h, env, v.Conf(), u0.(ops := v.ops + [err]).Conf(), u.Conf());
    assert v.ops + [] == v.ops;
    assert gb.locals[slot] == HIDDEN;
  }

  lemma {:induction false} SimHandler(h: Host, env: CompileEnv, n: nat, self: Ray, zero: Ray, t: Table, td: nat, f: Flow,
      hd: Ray, slot: nat, err: Ray, fr: Frame, v: View, u: View, g: Goal) returns (loc: seq<Cell>)
    requires Ready(h, env, self, zero, t, td, f, fr, u) && Reaches(h, env, v, u, [])
    requires Check(env, zero, |self.params|, f, hd).ok
    requires slot < |t.locals| && t.locals[slot] == HIDDEN && u.loc[slot] == Full(err)
    requires var c := Comp(env, t, td, hd);
      && Placed(env, c, u) && At(u.fn.code, u.ip + |c.bytes|, [OP_LOADENV, slot]) && At(u.fn.code, u.ip + |c.bytes| + 2, [OP_TRYH])
      && g.ip == u.ip + |c.bytes| + 3 && g.locals == c.table.locals && g.td == td
    requires var fh := Check(env, zero, |self.params|, f, hd);
      fh.sure.Live? ==> g.flow.sure.Live? && g.flow.sure.names <= fh.sure.names
    requires g.keep <= t.locals && Kept(g.keep, v.loc, u.loc) && g.before.Keys <= fr.Keys
    ensures Agrees(h, env, n, Recover(h, env, n, err, Eval(h, env, n, self, hd, fr, u.w)), v, g, loc)
    decreases n, Size(hd), 1, 0
  {
    hide CodeOf;
    var c := Comp(env, t, td, hd);
    loc := Sim(h, env, n, self, zero, t, td, f, hd, fr, u);
    var out := Eval(h, env, n, self, hd, fr, u.w);
    var gu := Aim(u, c, t.locals, td, Check(env, zero, |self.params|, f, hd), fr);
    if out.Val? {
      HandlerGlue(h, env, n, out, slot, err, v, u, gu, g, loc);
    } else {
      Abort(h, env, n, out, v, u, [], gu, g, loc);
    }
  }

  lemma {:induction false} HandlerGlue(h: Host, env: CompileEnv, n: nat, out: Out, slot: nat, err: Ray, v: View, u: View,
                                       gu: Goal, g: Goal, loc: seq<Cell>)
    requires ValidEnv(env) && KeepsBuiltins(h, env) && Reaches(h, env, v, u, []) && out.Val? && Agrees(h, env, n, out, u, gu, loc)
    requires slot < |gu.keep| && gu.keep[slot] == HIDDEN && u.loc[slot] == Full(err)
    requires At(u.fn.code, gu.ip, [OP_LOADENV, slot]) && At(u.fn.code, gu.ip + 2, [OP_TRYH])
    requires g.ip == gu.ip + 3 && g.locals == gu.locals
    requires gu.flow.sure.Live? ==> g.flow.sure.Live? && g.flow.sure.names <= gu.flow.sure.names
    requires g.keep <= gu.keep && Kept(g.keep, v.loc, u.loc) && g.before.Keys <= gu.before.Keys
    ensures Agrees(h, env, n, Lift(Handle(h, env, n, out.v, err, out.w), out.fr), v, g, loc)
    decreases n, 0, 3, 0
  {
    KeptTrans(g.keep, gu.keep, v.loc, u.loc, loc);
    assert loc[slot] == Full(err);
    var d := v.(ip := gu.ip, loc := loc, ops := v.ops + [out.v], w := out.w);
    assert u.ops + [out.v] == d.ops;
    LeadsTrans(h, env, v.Conf(), u.Conf(), d.Conf());
    StepLoadEnv(h, env, d, slot);
    var pre := d.(ip := gu.ip + 2, ops := d.ops + [err]);
    LeadsTrans(h, env, v.Conf(), d.Conf(), pre.Conf());
    HandleSim(h, env, n, out.v, err, v.(ip := gu.ip + 2, loc := loc, w := out.w));
    HandleDone(h, env, n, Handle(h, env, n, out.v, err, out.w), v, pre, g, out.fr);
  }

  /** TRYH, with the handler and the error on the stack. */
  ghost predicate HandleAgrees(h: Host, env: CompileEnv, n: nat, a: Applied, post: View, c: Conf)
    requires ValidEnv(env)
  {
    match a
    case OutOfFuel => Run(h, env, n, c) == Timeout
    case Unchecked => true
    case Gave(x, w) => Pinned(h, env, w) && Leads(h, env, c, post.(ops := post.ops + [x], w := w).Conf())
    case Broke(f, w) => Pinned(h, env, w) && Leads(h, env, c, Unwind(post.(w := w).Vm(), f))
  }

  lemma HandleDone(h: Host, env: CompileEnv, n: nat, a: Applied, v: View, pre: View, g: Goal, fr: Frame)
    requires ValidEnv(env) && v.Valid() && Leads(h, env, v.Conf(), pre.Conf()) && Pinned(h, env, pre.w) && |pre.loc| == |v.loc|
    requires HandleAgrees(h, env, n, a, v.(ip := g.ip, loc := pre.loc, w := pre.w), pre.Conf())
    requires FrameOK(g.locals, fr, pre.loc) && Kept(g.keep, v.loc, pre.loc)
    requires g.flow.sure.Live? && g.flow.sure.names <= fr.Keys && g.before.Keys <= fr.Keys
    ensures Agrees(h, env, n, Lift(a, fr), v, g, pre.loc)
  {
    var post := v.(ip := g.ip, loc := pre.loc, w := pre.w);
    match a
    case OutOfFuel => LeadsTimeout(h, env, v.Conf(), pre.Conf(), n);
    case Unchecked =>
    case Gave(x, w) =>
      assert post.(ops := post.ops + [x], w := w) == v.(ip := g.ip, loc := pre.loc, ops := v.ops + [x], w := w);
      LeadsTrans(h, env, v.Conf(), pre.Conf(), post.(ops := post.ops + [x], w := w).Conf());
    case Broke(f, w) =>
      UnwindIp(v.(loc := pre.loc), g.ip);
      assert post.(w := w) == v.(loc := pre.loc).(ip := g.ip, w := w);
      LeadsTrans(h, env, v.Conf(), pre.Conf(), Unwind(post.(w := w).Vm(), f));
  }

  /** TRYH consumes the handler and the error, and continues with the call's outcome. */
  function Handled(d: View, handler: Ray, o: Outcome): Conf {
    var post := d.(ip := d.ip + 1);
    if handler.Lambda? || (handler.Builtin? && handler.arity.Unary?) then
      match o
      case Value(x, w) => post.(ops := d.ops + [x], w := w).Conf()
      case Raised(e, w) => Unwind(post.(w := w).Vm(), Thrown(e))
      case other => Halted(other)
    else post.(ops := d.ops + [handler]).Conf()
  }

  lemma TryhStack(d: View, handler: Ray, err: Ray)
    ensures var m1 := d.(ip := d.ip + 1, ops := d.ops + [handler] + [err]).Vm();
      Top(m1, 0) == Some(err) && Top(m1, 1) == Some(handler) && Drop(m1, 2) == d.(ip := d.ip + 1).Vm()
  {
    var u := d.(ip := d.ip + 1, ops := d.ops + [handler] + [err]);
    TopView(u, 0);
    TopView(u, 1);
    DropView(d.(ip := d.ip + 1), [handler, err]);
    assert d.ops + [handler, err] == d.ops + [handler] + [err];
  }

  lemma HandledView(d: View, handler: Ray, o: Outcome)
    ensures Handled(d, handler, o) ==
      var m2 := d.(ip := d.ip + 1).Vm();
      if handler.Lambda? || (handler.Builtin? && handler.arity.Unary?) then
        match o
        case Value(x, w) => Running(Push(m2.(w := w), x))
        case Raised(e, w) => Unwind(m2.(w := w), Thrown(e))
        case other => Halted(other)
      else Running(Push(m2, handler))
  {
    var post := d.(ip := d.ip + 1);
    PushView(post, handler);
    if o.Value? { PushView(post.(w := o.w), o.v); }
  }

  lemma TryhView(h: Host, env: CompileEnv, k: nat, d: View, handler: Ray, err: Ray)
    requires ValidEnv(env) && At(d.fn.code, d.ip, [OP_TRYH])
    ensures Step(h, env, k, d.(ops := d.ops + [handler] + [err]).Vm())
         == Handled(d, handler, CallFresh(h, env, k, handler, [err], d.w))
  {
    AtByte(d.fn.code, d.ip, [OP_TRYH], 0);
    TryhStack(d, handler, err);
    HandledView(d, handler, CallFresh(h, env, k, handler, [err], d.w));
  }

  lemma {:induction false} HandleSim(h: Host, env: CompileEnv, n: nat, handler: Ray, err: Ray, d: View)
    requires ValidEnv(env) && KeepsBuiltins(h, env) && Pinned(h, env, d.w) && At(d.fn.code, d.ip, [OP_TRYH])
    ensures HandleAgrees(h, env, n, Handle(h, env, n, handler, err, d.w), d.(ip := d.ip + 1),
                         d.(ops := d.ops + [handler] + [err]).Conf())
    decreases n, 0, 2, 0
  {
    if handler.Lambda? && CompileLambda(env, handler.params, handler.body).Some? && |handler.params| == 1 {
      if Checked(env, handler) {
        HandleLambda(h, env, n, handler, err, d);
      } else {
        assert Apply(h, env, n, handler, [err], d.w) == Unchecked;
      }
    } else {
      HandleDirect(h, env, n, handler, err, d);
    }
  }

  /** Handlers that run no bytecode. */
  lemma HandleDirect(h: Host, env: CompileEnv, n: nat, handler: Ray, err: Ray, d: View)
    requires ValidEnv(env) && KeepsBuiltins(h, env) && Pinned(h, env, d.w) && At(d.fn.code, d.ip, [OP_TRYH])
    requires handler.Lambda? && CompileLambda(env, handler.params, handler.body).Some? ==> |handler.params| != 1
    ensures HandleAgrees(h, env, n, Handle(h, env, n, handler, err, d.w), d.(ip := d.ip + 1),
                         d.(ops := d.ops + [handler] + [err]).Conf())
  {
    var c := d.(ops := d.ops + [handler] + [err]).Conf();
    var post := d.(ip := d.ip + 1);
    var a := Handle(h, env, n, handler, err, d.w);
    var direct := Apply(h, env, n, handler, [err], d.w);
    assert direct.Gave? || direct.Broke?;
    var to := if a.Gave? then post.(ops := d.ops + [a.v], w := a.w).Conf() else Unwind(post.(w := a.w).Vm(), a.f);
    forall k: nat ensures Step(h, env, k, c.vm) == to {
      TryhView(h, env, k, d, handler, err);
    }
    FixedStep(h, env, c, to);
  }

  lemma FixedStep(h: Host, env: CompileEnv, c: Conf, d: Conf)
    requires ValidEnv(env) && c.Running? && forall k: nat :: Step(h, env, k, c.vm) == d
    ensures Leads(h, env, c, d)
  {
    forall k: nat ensures Run(h, env, k + 1, c) == Run(h, env, k, d) {
      assert Step(h, env, k, c.vm) == d;
      RunStep(h, env, k, c.vm, d);
    }
    LeadsShift(h, env, c, d);
  }

  lemma {:induction false} HandleLambda(h: Host, env: CompileEnv, n: nat, l: Ray, err: Ray, d: View)
    requires ValidEnv(env) && KeepsBuiltins(h, env) && Pinned(h, env, d.w) && At(d.fn.code, d.ip, [OP_TRYH])
    requires Checked(env, l) && |l.params| == 1
    ensures HandleAgrees(h, env, n, Handle(h, env, n, l, err, d.w), d.(ip := d.ip + 1),
                         d.(ops := d.ops + [l] + [err]).Conf())
    decreases n, 0, 1, 0
  {
    hide Comp, CompSeq, Check, Eval, EvalSeq, Agrees, Leads;
    var p := CompileLambda(env, l.params, l.body).value;
    var m := d.(ops := d.ops + [l] + [err]).Vm();
    var post := d.(ip := d.ip + 1);
    var u := View(p, 0, [], Enter(p, [err]), [], [], [], d.w);
    var c0 := Start(p, [err], d.w);
    assert u.Conf() == c0 by { assert Cells([]) == []; assert [] + u.loc + [] == u.loc; }
    forall k: nat { TryhView(h, env, k, d, l, err); }
    if n > 0 {
      ProgramSlots(env, l.params, l.body);
      var loc := BodySim(h, env, n - 1, l, [err], u);
      match Body(h, env, n - 1, l, [err], d.w)
      case OutOfFuel =>
        assert Step(h, env, n - 1, m) == Halted(Timeout);
        RunStep(h, env, n - 1, m, Halted(Timeout));
      case Unchecked =>
      case Gave(x, w) =>
        Ended(h, env, c0, Value(x, w));
        NestLambda(h, env, d, l, err, c0, Value(x, w));
        LeadsTry(h, env, m, c0, Value(x, w), post.(ops := d.ops + [x], w := w).Conf());
      case Broke(f, w) =>
        Ended(h, env, c0, Raised(Report(f), w));
        NestLambda(h, env, d, l, err, c0, Raised(Report(f), w));
        LeadsTry(h, env, m, c0, Raised(Report(f), w), Unwind(post.(w := w).Vm(), Thrown(Report(f))));
    }
  }

  lemma Ended(h: Host, env: CompileEnv, c: Conf, r: Outcome)
    requires ValidEnv(env) && r != Timeout && Leads(h, env, c, Halted(r))
    ensures Ends(h, env, c, r)
  {
    assert Run(h, env, 0, Halted(r)) == r;
    assert Ends(h, env, Halted(r), r);
  }

  lemma NestLambda(h: Host, env: CompileEnv, d: View, l: Ray, err: Ray, c0: Conf, r: Outcome)
    requires ValidEnv(env) && l.Lambda? && CompileLambda(env, l.params, l.body).Some? && |l.params| == 1
    requires At(d.fn.code, d.ip, [OP_TRYH]) && (r.Value? || r.Raised?)
    requires c0 == Start(CompileLambda(env, l.params, l.body).value, [err], d.w)
    ensures var post := d.(ip := d.ip + 1);
      Nests(h, env, d.(ops := d.ops + [l] + [err]).Vm(), c0, r,
            if r.Value? then post.(ops := d.ops + [r.v], w := r.w).Conf() else Unwind(post.(w := r.w).Vm(), Thrown(r.error)))
  {
    forall k: nat { TryhView(h, env, k, d, l, err); }
  }
}
