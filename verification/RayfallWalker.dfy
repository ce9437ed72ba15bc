/** The tree walker, which evaluates what is not compiled, and when it gives a body the
    meaning that compiled code gives it.  Its rules differ: `do` has a scope of its own,
    `return` is a built-in that gives back its argument, a handler never sees the error
    object, and a call is refused before its arguments are evaluated. */
module RayfallWalker {
  import opened Wrappers
  import opened RayfallSyntax
  import opened RayfallCompile
  import opened RayfallMachine
  import opened RayfallEval

  const ERR_TYPE: nat := 4
  const ERR_RESERVE: nat := 5

  // ---------- the walker ----------

  function WalkName(h: Host, id: nat, fr: Frame, w: World): Lookup {
    if id in fr then Bound(fr[id]) else h.resolve(w.globals, id)
  }

  function Found(l: Lookup, fr: Frame, w: World): Out {
    match l
    case Undefined => Fail(Bare(ERR_NAME), fr, w)
    case Faulty(x) => Fail(Thrown(x), fr, w)
    case Bound(v) => Val(v, fr, w)
  }

  /** The error object of a call refused for its head or for the number of its arguments. */
  function Refusal(f: Ray, argc: nat): Option<nat> {
    if f.Lambda? || (f.Builtin? && f.arity.Vary?) then (if argc > MAX_ARGS then Some(ERR_DOMAIN) else None)
    else if f.Builtin? then (if argc != (if f.arity.Unary? then 1 else 2) then Some(ERR_ARITY) else None)
    else Some(ERR_TYPE)
  }

  /** The walker's `do`: its own scope is gone afterwards. */
  function Scoped(out: Out, fr: Frame): Out {
    match out
    case Val(v, _, w) => Val(v, fr, w)
    case Fail(f, _, w) => Fail(f, fr, w)
    case other => other
  }

  /** The error a handler sees under the tree walker: it never sees the error object. */
  function WalkerCaught(w: World): Ray {
    if w.raised.Some? then w.raised.value else I64(0)
  }

  function WalkLet(env: CompileEnv, id: nat, out: Out): Out {
    match out
    case Val(_, fr, w) => if id in env.reserved then Fail(Thrown(Error(ERR_RESERVE)), fr, w) else Assign(id, out)
    case other => other
  }

  function Walk(h: Host, env: CompileEnv, n: nat, e: Ray, fr: Frame, w: World): Out
    requires ValidEnv(env)
    decreases Size(e), 2
  {
    WalkForm(h, env, n, e, Classify(env, e), fr, w)
  }

  function WalkForm(h: Host, env: CompileEnv, n: nat, e: Ray, form: Form, fr: Frame, w: World): Out
    requires ValidEnv(env) && Fits(form, Size(e))
    decreases Size(e), 1
  {
    match form
    case Nothing => Beyond
    case Constant => Val(e, fr, w)
    case NullName => Val(Null, fr, w)
    case Name(id) => Found(WalkName(h, id, fr, w), fr, w)
    case Set(name, v) =>
      if !name.Symbol? then Fail(Thrown(Error(ERR_TYPE)), fr, w) else Store(h, name.id, Walk(h, env, n, v, fr, w))
    case Let(name, v) =>
      if !name.Symbol? then Fail(Thrown(Error(ERR_TYPE)), fr, w) else WalkLet(env, name.id, Walk(h, env, n, v, fr, w))
    case If(c, a, b) => WalkChoose(h, env, n, Size(e), Walk(h, env, n, c, fr, w), a, b)
    case Do(es) => Scoped(WalkSeq(h, env, n, es, fr, w), fr)
    case Fn => Answer(h.walk(e, w), fr)
    case Try(b, hd) => WalkGuard(h, env, n, Size(e), Walk(h, env, n, b, fr, w), hd)
    case Return(r) => if r.None? then Val(Null, fr, w) else Walk(h, env, n, r.value, fr, w)
    case Self(args) => WalkCall(h, env, n, e, Found(WalkName(h, SF_SELF, fr, w), fr, w), args)
    case Special => Answer(h.walk(e, w), fr)
    case Call(head, _, args) => WalkCall(h, env, n, e, Walk(h, env, n, head, fr, w), args)
  }

  function WalkChoose(h: Host, env: CompileEnv, n: nat, size: nat, cond: Out, a: Ray, b: Option<Ray>): Out
    requires ValidEnv(env) && Size(a) < size && (b.Some? ==> Size(b.value) < size)
    decreases size, 0
  {
    match cond
    case Val(x, fr, w) =>
      if h.truthy(x) then Walk(h, env, n, a, fr, w)
      else if b.Some? then Walk(h, env, n, b.value, fr, w)
      else Val(I64(0), fr, w)
    case other => other
  }

  function WalkGuard(h: Host, env: CompileEnv, n: nat, size: nat, body: Out, hd: Ray): Out
    requires ValidEnv(env) && Size(hd) < size
    decreases size, 0
  {
    match body
    case Fail(f, fr, w) => Recover(h, env, n, WalkerCaught(w), Walk(h, env, n, hd, fr, w.(raised := None)))
    case other => other
  }

  /** A call once its head is known.  A symbol stands for what it names; a special form gets
      its arguments unevaluated. */
  function WalkCall(h: Host, env: CompileEnv, n: nat, e: Ray, head: Out, args: seq<Ray>): Out
    requires ValidEnv(env) && SizeAll(args) < Size(e)
    decreases Size(e), 0
  {
    match head
    case Val(v, fr, w) =>
      (match Found(if v.Symbol? then WalkName(h, v.id, fr, w) else Bound(v), fr, w)
       case Val(f, _, _) =>
         if f.Builtin? && f.special && f.arity.Vary? then Answer(h.walk(e, w), fr)
         else if Refusal(f, |args|).Some? then Fail(Thrown(Error(Refusal(f, |args|).value)), fr, w)
         else if f.Builtin? && f.special && f.arity.Binary? then Answer(h.walk(e, w), fr)
         else Invoke(h, env, n, f, WalkArgs(h, env, n, args, fr, w))
       case other => other)
    case other => other
  }

  function WalkSeq(h: Host, env: CompileEnv, n: nat, es: seq<Ray>, fr: Frame, w: World): Out
    requires ValidEnv(env) && es != []
    decreases SizeAll(es), 3
  {
    match Walk(h, env, n, es[0], fr, w)
    case Val(x, fr1, w1) => if |es| == 1 then Val(x, fr1, w1) else WalkSeq(h, env, n, es[1..], fr1, w1)
    case other => other
  }

  function WalkArgs(h: Host, env: CompileEnv, n: nat, es: seq<Ray>, fr: Frame, w: World): Outs
    requires ValidEnv(env)
    decreases SizeAll(es), 3
  {
    if es == [] then Vals([], fr, w)
    else
      match Walk(h, env, n, es[0], fr, w)
      case Val(x, fr1, w1) => Prepend(x, WalkArgs(h, env, n, es[1..], fr1, w1))
      case other => NoVals(other)
  }

  /** A lambda's body in a fresh scope, which also binds `self`. */
  function WalkBody(h: Host, env: CompileEnv, n: nat, f: Ray, args: seq<Ray>, w: World): Applied
    requires ValidEnv(env) && f.Lambda? && |args| == |f.params| && f.body != []
  {
    match WalkSeq(h, env, n, f.body, Bind(map[SF_SELF := f], f.params, args), w)
    case NoFuel => OutOfFuel
    case Beyond => Unchecked
    case Val(v, _, w1) => Gave(v, w1)
    case Ret(v, w1) => Gave(v, w1)
    case Fail(x, _, w1) => Broke(x, w1)
  }

  // ---------- names bound ----------

  /** Names an expression binds with `let`. */
  function Lets(env: CompileEnv, e: Ray): set<nat>
    decreases Size(e), 1
  {
    LetsOf(env, Classify(env, e), Size(e))
  }

  function LetsOf(env: CompileEnv, form: Form, size: nat): set<nat>
    requires Fits(form, size)
    decreases size, 0
  {
    match form
    case Set(_, v) => Lets(env, v)
    case Let(name, v) => Lets(env, v) + (if name.Symbol? then {name.id} else {})
    case If(c, a, b) => Lets(env, c) + Lets(env, a) + (if b.Some? then Lets(env, b.value) else {})
    case Do(es) => LetsAll(env, es)
    case Try(b, h) => Lets(env, b) + Lets(env, h)
    case Return(r) => if r.Some? then Lets(env, r.value) else {}
    case Self(args) => LetsAll(env, args)
    case Call(head, _, args) => Lets(env, head) + LetsAll(env, args)
    case _ => {}
  }

  function LetsAll(env: CompileEnv, es: seq<Ray>): set<nat>
    decreases SizeAll(es), 2
  {
    if es == [] then {} else Lets(env, es[0]) + LetsAll(env, es[1..])
  }

  /** Names bound inside a `do`: gone for the walker after it, and still there for compiled code. */
  function Hidden(env: CompileEnv, e: Ray): set<nat>
    decreases Size(e), 1
  {
    HiddenOf(env, Classify(env, e), Size(e))
  }

  function HiddenOf(env: CompileEnv, form: Form, size: nat): set<nat>
    requires Fits(form, size)
    decreases size, 0
  {
    match form
    case Set(_, v) => Hidden(env, v)
    case Let(_, v) => Hidden(env, v)
    case If(c, a, b) => Hidden(env, c) + Hidden(env, a) + (if b.Some? then Hidden(env, b.value) else {})
    case Do(es) => LetsAll(env, es)
    case Try(b, h) => Hidden(env, b) + Hidden(env, h)
    case Return(r) => if r.Some? then Hidden(env, r.value) else {}
    case Self(args) => HiddenAll(env, args)
    case Call(head, _, args) => Hidden(env, head) + HiddenAll(env, args)
    case _ => {}
  }

  function HiddenAll(env: CompileEnv, es: seq<Ray>): set<nat>
    decreases SizeAll(es), 2
  {
    if es == [] then {} else Hidden(env, es[0]) + HiddenAll(env, es[1..])
  }

  // ---------- what can be seen in the source ----------

  /** No name is read that is in x or was bound in a `do` evaluated before; no `let` binds
      a reserved name or `self`; calls have at most as many arguments as one can have. */
  predicate Clear(env: CompileEnv, x: set<nat>, e: Ray)
    decreases Size(e), 1
  {
    ClearForm(env, x, Classify(env, e), Size(e))
  }

  predicate ClearForm(env: CompileEnv, x: set<nat>, form: Form, size: nat)
    requires Fits(form, size)
    decreases size, 0
  {
    match form
    case Name(id) => id !in x
    case Set(_, v) => Clear(env, x, v)
    case Let(name, v) => Clear(env, x, v) && (name.Symbol? ==> name.id !in env.reserved && name.id != SF_SELF)
    case If(c, a, b) =>
      var y := x + Hidden(env, c);
      Clear(env, x, c) && Clear(env, y, a) && (b.Some? ==> Clear(env, y, b.value))
    case Do(es) => ClearAll(env, x, es)
    case Try(b, h) => Clear(env, x, b) && Clear(env, x + Hidden(env, b), h)
    case Return(r) => r.Some? ==> Clear(env, x, r.value)
    case Self(args) => |args| <= MAX_ARGS && ClearAll(env, x, args)
    case Call(head, _, args) => Clear(env, x, head) && ClearAll(env, x + Hidden(env, head), args)
    case _ => true
  }

  predicate ClearAll(env: CompileEnv, x: set<nat>, es: seq<Ray>)
    decreases SizeAll(es), 2
  {
    es == [] || (Clear(env, x, es[0]) && ClearAll(env, x + Hidden(env, es[0]), es[1..]))
  }

  /** `return` does not occur. */
  predicate NoReturn(env: CompileEnv, e: Ray)
    decreases Size(e), 1
  {
    NoReturnForm(env, Classify(env, e), Size(e))
  }

  predicate NoReturnForm(env: CompileEnv, form: Form, size: nat)
    requires Fits(form, size)
    decreases size, 0
  {
    match form
    case Set(_, v) => NoReturn(env, v)
    case Let(_, v) => NoReturn(env, v)
    case If(c, a, b) => NoReturn(env, c) && NoReturn(env, a) && (b.Some? ==> NoReturn(env, b.value))
    case Do(es) => NoReturnAll(env, es)
    case Try(b, h) => NoReturn(env, b) && NoReturn(env, h)
    case Return(_) => false
    case Self(args) => NoReturnAll(env, args)
    case Call(head, _, args) => NoReturn(env, head) && NoReturnAll(env, args)
    case _ => true
  }

  predicate NoReturnAll(env: CompileEnv, es: seq<Ray>)
    decreases SizeAll(es), 2
  {
    es == [] || (NoReturn(env, es[0]) && NoReturnAll(env, es[1..]))
  }

  /** `return` occurs at most where nothing of the body is left to do. */
  predicate TailReturn(env: CompileEnv, e: Ray)
    decreases Size(e), 1
  {
    NoReturn(env, e) || TailForm(env, Classify(env, e), Size(e))
  }

  predicate TailForm(env: CompileEnv, form: Form, size: nat)
    requires Fits(form, size)
    decreases size, 0
  {
    match form
    case Let(name, v) => name.Symbol? && TailReturn(env, v)
    case If(c, a, b) => NoReturn(env, c) && TailReturn(env, a) && (b.Some? ==> TailReturn(env, b.value))
    case Do(es) => TailAll(env, es)
    case Try(b, h) => TailReturn(env, b) && NoReturn(env, h)
    case Return(r) => r.Some? ==> TailReturn(env, r.value)
    case _ => false
  }

  predicate TailAll(env: CompileEnv, es: seq<Ray>)
    decreases SizeAll(es), 2
  {
    es != [] && if |es| == 1 then TailReturn(env, es[0]) else NoReturn(env, es[0]) && TailAll(env, es[1..])
  }

  // ---------- what must hold where a handler or a function is called ----------

  predicate Callable(x: Ray) { x.Lambda? || (x.Builtin? && x.arity.Unary?) }

  /** The handler sees the same under both rules. */
  predicate SeesSame(f: Fault, w: World) { w.raised.Some? || f.Bare? || f.error == I64(0) }

  lemma SeesSameIff(f: Fault, w: World)
    ensures SeesSame(f, w) <==> WalkerCaught(w) == Caught(f, w)
  {
  }

  /** A function that is called with so many arguments under both rules. */
  predicate Takes(f: Ray, argc: nat) { (f.Builtin? ==> !f.special) && Refusal(f, argc).None? }

  /** On the way of this evaluation, what a call finds at its head takes so many arguments,
      and a failure that reaches a handler that is called looks the same to it. */
  ghost predicate Tame(h: Host, env: CompileEnv, n: nat, self: Ray, e: Ray, fr: Frame, w: World)
    requires ValidEnv(env) && self.Lambda?
    decreases Size(e), 1
  {
    TameForm(h, env, n, self, Classify(env, e), Size(e), fr, w)
  }

  ghost predicate TameForm(h: Host, env: CompileEnv, n: nat, self: Ray, form: Form, size: nat, fr: Frame, w: World)
    requires ValidEnv(env) && self.Lambda? && Fits(form, size)
    decreases size, 0
  {
    match form
    case Set(_, v) => Tame(h, env, n, self, v, fr, w)
    case Let(_, v) => Tame(h, env, n, self, v, fr, w)
    case If(c, a, b) =>
      Tame(h, env, n, self, c, fr, w) &&
      (match Eval(h, env, n, self, c, fr, w)
       case Val(x, fr1, w1) =>
         if h.truthy(x) then Tame(h, env, n, self, a, fr1, w1) else b.Some? ==> Tame(h, env, n, self, b.value, fr1, w1)
       case _ => true)
    case Do(es) => TameSeq(h, env, n, self, es, fr, w)
    case Try(b, hd) =>
      Tame(h, env, n, self, b, fr, w) &&
      (match Eval(h, env, n, self, b, fr, w)
       case Fail(f, fr1, w1) =>
         var w2 := w1.(raised := None);
         Tame(h, env, n, self, hd, fr1, w2) &&
         (match Eval(h, env, n, self, hd, fr1, w2) case Val(x, _, _) => Callable(x) ==> SeesSame(f, w1) case _ => true)
       case _ => true)
    case Return(r) => r.Some? ==> Tame(h, env, n, self, r.value, fr, w)
    case Self(args) => TameSeq(h, env, n, self, args, fr, w)
    case Call(head, _, args) =>
      Tame(h, env, n, self, head, fr, w) &&
      (match Eval(h, env, n, self, head, fr, w)
       case Val(f, fr1, w1) => Takes(f, |args|) && TameSeq(h, env, n, self, args, fr1, w1)
       case _ => true)
    case _ => true
  }

  ghost predicate TameSeq(h: Host, env: CompileEnv, n: nat, self: Ray, es: seq<Ray>, fr: Frame, w: World)
    requires ValidEnv(env) && self.Lambda?
    decreases SizeAll(es), 2
  {
    es == [] ||
    (&& Tame(h, env, n, self, es[0], fr, w)
     && match Eval(h, env, n, self, es[0], fr, w)
        case Val(_, fr1, w1) => TameSeq(h, env, n, self, es[1..], fr1, w1)
        case _ => true)
  }

  // ---------- frames that differ in some names ----------

  ghost predicate Alike(a: Frame, b: Frame, x: set<nat>) {
    forall k: nat :: k !in x ==> (k in a <==> k in b) && (k in a ==> a[k] == b[k])
  }

  lemma EvalIs(h: Host, env: CompileEnv, n: nat, self: Ray, e: Ray, fr: Frame, w: World)
    requires ValidEnv(env) && self.Lambda?
    ensures Eval(h, env, n, self, e, fr, w) == EvalForm(h, env, n, self, e, Classify(env, e), fr, w)
    ensures Lets(env, e) == LetsOf(env, Classify(env, e), Size(e))
  {
  }

  // ---------- what a frame keeps ----------

  /** The frame left by an outcome differs from fr at most in the names x. */
  ghost predicate Leaves(fr: Frame, out: Out, x: set<nat>) {
    out.Val? || out.Fail? ==> Alike(fr, out.fr, x)
  }

  ghost predicate LeavesArgs(fr: Frame, outs: Outs, x: set<nat>) {
    match outs
    case Vals(_, fr1, _) => Alike(fr, fr1, x)
    case NoVals(out) => Leaves(fr, out, x)
  }

  /** Only `let` changes a frame. */
  lemma {:induction false} EvalLeaves(h: Host, env: CompileEnv, n: nat, self: Ray, e: Ray, fr: Frame, w: World)
    requires ValidEnv(env) && self.Lambda?
    ensures Leaves(fr, Eval(h, env, n, self, e, fr, w), Lets(env, e))
    decreases Size(e), 1
  {
    hide Eval, Lets, LetsAll, Classify, Apply, Handle, Choose, Guard, EvalSeq, EvalArgs;
    EvalIs(h, env, n, self, e, fr, w);
    var form := Classify(env, e);
    match form
    case Set(_, v) => EvalLeaves(h, env, n, self, v, fr, w);
    case Let(_, v) => EvalLeaves(h, env, n, self, v, fr, w);
    case If(c, _, _) =>
      EvalLeaves(h, env, n, self, c, fr, w);
      ChooseLeaves(h, env, n, self, e, form, fr, Eval(h, env, n, self, c, fr, w));
    case Do(es) => EvalSeqLeaves(h, env, n, self, es, fr, w);
    case Try(body, _) =>
      EvalLeaves(h, env, n, self, body, fr, w);
      GuardLeaves(h, env, n, self, e, form, fr, Eval(h, env, n, self, body, fr, w));
    case Return(r) => if r.Some? { EvalLeaves(h, env, n, self, r.value, fr, w); }
    case Self(args) => EvalArgsLeaves(h, env, n, self, args, fr, w);
    case Call(head, _, args) =>
      EvalLeaves(h, env, n, self, head, fr, w);
      CallLeaves(h, env, n, self, head, args, fr, Eval(h, env, n, self, head, fr, w));
    case _ =>
  }

  lemma {:induction false} ChooseLeaves(h: Host, env: CompileEnv, n: nat, self: Ray, e: Ray, form: Form, fr: Frame,
                                        p: Out)
    requires ValidEnv(env) && self.Lambda? && Fits(form, Size(e)) && form.If? && Leaves(fr, p, Lets(env, form.cond))
    ensures Leaves(fr, Choose(h, env, n, self, Size(e), p, form.then_, form.else_), LetsOf(env, form, Size(e)))
    decreases Size(e), 0
  {
    hide Eval, Lets;
    if p.Val? {
      if h.truthy(p.v) { EvalLeaves(h, env, n, self, form.then_, p.fr, p.w); }
      else if form.else_.Some? { EvalLeaves(h, env, n, self, form.else_.value, p.fr, p.w); }
    }
  }

  lemma {:induction false} GuardLeaves(h: Host, env: CompileEnv, n: nat, self: Ray, e: Ray, form: Form, fr: Frame,
                                       p: Out)
    requires ValidEnv(env) && self.Lambda? && Fits(form, Size(e)) && form.Try? && Leaves(fr, p, Lets(env, form.body))
    ensures Leaves(fr, Guard(h, env, n, self, Size(e), p, form.handler), LetsOf(env, form, Size(e)))
    decreases Size(e), 0
  {
    hide Eval, Lets, Handle;
    if p.Fail? { EvalLeaves(h, env, n, self, form.handler, p.fr, p.w.(raised := None)); }
  }

  lemma {:induction false} CallLeaves(h: Host, env: CompileEnv, n: nat, self: Ray, head: Ray, args: seq<Ray>, fr: Frame,
                                      p: Out)
    requires ValidEnv(env) && self.Lambda? && Leaves(fr, p, Lets(env, head))
    ensures p.Val? ==> Leaves(fr, Invoke(h, env, n, p.v, EvalArgs(h, env, n, self, args, p.fr, p.w)),
                              Lets(env, head) + LetsAll(env, args))
    decreases SizeAll(args), 3
  {
    hide Apply, EvalArgs, Lets;
    if p.Val? { EvalArgsLeaves(h, env, n, self, args, p.fr, p.w); }
  }

  lemma {:induction false} EvalSeqLeaves(h: Host, env: CompileEnv, n: nat, self: Ray, es: seq<Ray>, fr: Frame, w: World)
    requires ValidEnv(env) && self.Lambda? && es != []
    ensures Leaves(fr, EvalSeq(h, env, n, self, es, fr, w), LetsAll(env, es))
    decreases SizeAll(es), 2
  {
    hide Eval, Lets;
    EvalLeaves(h, env, n, self, es[0], fr, w);
    var p := Eval(h, env, n, self, es[0], fr, w);
    if p.Val? && |es| > 1 { EvalSeqLeaves(h, env, n, self, es[1..], p.fr, p.w); }
  }

  lemma {:induction false} EvalArgsLeaves(h: Host, env: CompileEnv, n: nat, self: Ray, es: seq<Ray>, fr: Frame,
                                          w: World)
    requires ValidEnv(env) && self.Lambda?
    ensures LeavesArgs(fr, EvalArgs(h, env, n, self, es, fr, w), LetsAll(env, es))
    decreases SizeAll(es), 2
  {
    hide Eval, Lets;
    if es != [] {
      EvalLeaves(h, env, n, self, es[0], fr, w);
      var p := Eval(h, env, n, self, es[0], fr, w);
      if p.Val? { EvalArgsLeaves(h, env, n, self, es[1..], p.fr, p.w); }
    }
  }

  // ---------- the two rules side by side ----------

  /** The walker's frame a and compiled code's b: they differ at most in x, and a binds `self`. */
  ghost predicate Linked(a: Frame, b: Frame, x: set<nat>, self: Ray) {
    SF_SELF in x && SF_SELF in a && a[SF_SELF] == self && Alike(a, b, x)
  }

  /** The walker's outcome p and the other's q.  Beyond: nothing is claimed. */
  ghost predicate Same(p: Out, q: Out, x: set<nat>, self: Ray) {
    match q
    case Beyond => true
    case Val(v, fr, w) => p.Val? && p.v == v && p.w == w && Linked(p.fr, fr, x, self)
    case Fail(f, fr, w) => p.Fail? && p.f == f && p.w == w && Linked(p.fr, fr, x, self)
    case NoFuel => p.NoFuel?
    case Ret(_, _) => false
  }

  ghost predicate SameArgs(p: Outs, q: Outs, x: set<nat>, self: Ray) {
    match q
    case Vals(vs, fr, w) => p.Vals? && p.vs == vs && p.w == w && Linked(p.fr, fr, x, self)
    case NoVals(out) => out.Beyond? || (p.NoVals? && Same(p.out, out, x, self))
  }

  /** At the end of a body: a value and a returned value are one. */
  ghost predicate SameEnd(p: Out, q: Out, x: set<nat>, self: Ray) {
    match q
    case Beyond => true
    case Val(v, _, w) => p.Val? && p.v == v && p.w == w
    case Ret(v, w) => p.Val? && p.v == v && p.w == w
    case Fail(f, fr, w) => p.Fail? && p.f == f && p.w == w && Linked(p.fr, fr, x, self)
    case NoFuel => p.NoFuel?
  }

  lemma SameMore(p: Out, q: Out, x: set<nat>, y: set<nat>, self: Ray)
    requires Same(p, q, x, self) && x <= y
    ensures Same(p, q, y, self)
  {
  }

  lemma SameEndMore(p: Out, q: Out, x: set<nat>, y: set<nat>, self: Ray)
    requires SameEnd(p, q, x, self) && x <= y
    ensures SameEnd(p, q, y, self)
  {
  }

  /** What is unfolded of an expression and its parts. */
  lemma WalkIs(h: Host, env: CompileEnv, n: nat, self: Ray, x: set<nat>, e: Ray, fr: Frame, w: World)
    requires ValidEnv(env) && self.Lambda?
    ensures var form, size := Classify(env, e), Size(e);
      && Walk(h, env, n, e, fr, w) == WalkForm(h, env, n, e, form, fr, w)
      && Hidden(env, e) == HiddenOf(env, form, size) && Clear(env, x, e) == ClearForm(env, x, form, size)
      && NoReturn(env, e) == NoReturnForm(env, form, size)
      && TailReturn(env, e) == (NoReturn(env, e) || TailForm(env, form, size))
      && Tame(h, env, n, self, e, fr, w) == TameForm(h, env, n, self, form, size, fr, w)
  {
  }

  lemma {:induction false} WalkAgrees(h: Host, env: CompileEnv, n: nat, self: Ray, e: Ray, a: Frame, b: Frame, w: World,
                                      x: set<nat>)
    requires ValidEnv(env) && self.Lambda? && Linked(a, b, x, self)
    requires Clear(env, x, e) && NoReturn(env, e) && Tame(h, env, n, self, e, b, w)
    ensures Same(Walk(h, env, n, e, a, w), Eval(h, env, n, self, e, b, w), x + Hidden(env, e), self)
    decreases Size(e), 1
  {
    hide Walk, Eval, Hidden, Clear, NoReturn, Tame, TailReturn, Classify, WalkChoose, Choose, WalkGuard, Guard,
         WalkCall, Invoke, Store, Assign, WalkSeq, EvalSeq, EvalArgs, Size, SizeAll, Linked;
    EvalIs(h, env, n, self, e, b, w);
    WalkIs(h, env, n, self, x, e, a, w);
    WalkIs(h, env, n, self, x, e, b, w);
    var form := Classify(env, e);
    match form
    case Set(name, v) =>
      WalkAgrees(h, env, n, self, v, a, b, w, x);
      if name.Symbol? { StoreSame(h, name.id, Walk(h, env, n, v, a, w), Eval(h, env, n, self, v, b, w),
                                  x + Hidden(env, v), self); }
    case Let(name, v) =>
      WalkAgrees(h, env, n, self, v, a, b, w, x);
      if name.Symbol? { LetSame(env, name.id, Walk(h, env, n, v, a, w), Eval(h, env, n, self, v, b, w),
                                x + Hidden(env, v), self); }
    case If(c, _, _) =>
      WalkAgrees(h, env, n, self, c, a, b, w, x);
      ChooseAgrees(h, env, n, self, e, form, a, b, w, x);
    case Do(es) =>
      WalkSeqAgrees(h, env, n, self, es, a, b, w, x);
      EvalSeqLeaves(h, env, n, self, es, b, w);
      DoSame(WalkSeq(h, env, n, es, a, w), EvalSeq(h, env, n, self, es, b, w), a, b, x, HiddenAll(env, es),
             LetsAll(env, es), self);
    case Try(c, _) =>
      WalkAgrees(h, env, n, self, c, a, b, w, x);
      GuardAgrees(h, env, n, self, e, form, a, b, w, x);
    case Self(args) => SelfAgrees(h, env, n, self, e, args, a, b, w, x);
    case Call(head, _, args) =>
      WalkAgrees(h, env, n, self, head, a, b, w, x);
      CallAgrees(h, env, n, self, e, head, args, Walk(h, env, n, head, a, w), Eval(h, env, n, self, head, b, w), x);
    case _ => LeafAgrees(h, env, n, self, e, form, a, b, w, x);
  }

  predicate IsLeaf(form: Form) {
    form.Nothing? || form.Constant? || form.NullName? || form.Name? || form.Fn? || form.Special?
  }

  lemma LeafAgrees(h: Host, env: CompileEnv, n: nat, self: Ray, e: Ray, form: Form, a: Frame, b: Frame, w: World,
                   x: set<nat>)
    requires ValidEnv(env) && self.Lambda? && Linked(a, b, x, self) && Fits(form, Size(e)) && IsLeaf(form)
    requires ClearForm(env, x, form, Size(e))
    ensures Same(WalkForm(h, env, n, e, form, a, w), EvalForm(h, env, n, self, e, form, b, w),
                 x + HiddenOf(env, form, Size(e)), self)
  {
    hide Eval, Walk, Hidden, HiddenAll, Clear, ClearAll, Size, EvalSeq, EvalArgs, WalkSeq;
    assert x + HiddenOf(env, form, Size(e)) == x;
    if form.Name? { assert form.id in a <==> form.id in b; }
  }

  lemma StoreSame(h: Host, id: nat, p: Out, q: Out, x: set<nat>, self: Ray)
    requires Same(p, q, x, self)
    ensures Same(Store(h, id, p), Store(h, id, q), x, self)
  {
  }

  lemma LetSame(env: CompileEnv, id: nat, p: Out, q: Out, x: set<nat>, self: Ray)
    requires Same(p, q, x, self) && id !in env.reserved && id != SF_SELF
    ensures Same(WalkLet(env, id, p), Assign(id, q), x, self)
  {
  }

  lemma InvokeSame(h: Host, env: CompileEnv, n: nat, f: Ray, p: Outs, q: Outs, x: set<nat>, self: Ray)
    requires ValidEnv(env) && SameArgs(p, q, x, self)
    ensures Same(Invoke(h, env, n, f, p), Invoke(h, env, n, f, q), x, self)
  {
    hide Apply;
  }

  /** The walker's frame is the old one again; the other differs from its own in what was bound. */
  lemma DoSame(p: Out, q: Out, a: Frame, b: Frame, x: set<nat>, y: set<nat>, z: set<nat>, self: Ray)
    requires Linked(a, b, x, self) && Same(p, q, x + y, self) && Leaves(b, q, z)
    ensures Same(Scoped(p, a), q, x + z, self)
  {
  }

  lemma {:induction false} ChooseAgrees(h: Host, env: CompileEnv, n: nat, self: Ray, e: Ray, form: Form, a: Frame,
                                        b: Frame, w: World, x: set<nat>)
    requires ValidEnv(env) && self.Lambda? && Fits(form, Size(e)) && form.If?
    requires ClearForm(env, x, form, Size(e)) && NoReturnForm(env, form, Size(e))
    requires TameForm(h, env, n, self, form, Size(e), b, w)
    requires Same(Walk(h, env, n, form.cond, a, w), Eval(h, env, n, self, form.cond, b, w), x + Hidden(env, form.cond),
                  self)
    ensures Same(WalkForm(h, env, n, e, form, a, w), EvalForm(h, env, n, self, e, form, b, w),
                 x + HiddenOf(env, form, Size(e)), self)
    decreases Size(e), 0
  {
    hide Walk, Eval, Hidden, Clear, NoReturn, Tame, Linked;
    var y, z := x + Hidden(env, form.cond), x + HiddenOf(env, form, Size(e));
    var p, q := Walk(h, env, n, form.cond, a, w), Eval(h, env, n, self, form.cond, b, w);
    if q.Val? {
      if h.truthy(q.v) {
        WalkAgrees(h, env, n, self, form.then_, p.fr, q.fr, q.w, y);
        SameMore(Walk(h, env, n, form.then_, p.fr, q.w), Eval(h, env, n, self, form.then_, q.fr, q.w),
                 y + Hidden(env, form.then_), z, self);
      } else if form.else_.Some? {
        var r := form.else_.value;
        WalkAgrees(h, env, n, self, r, p.fr, q.fr, q.w, y);
        SameMore(Walk(h, env, n, r, p.fr, q.w), Eval(h, env, n, self, r, q.fr, q.w), y + Hidden(env, r), z, self);
      } else {
        SameMore(Val(I64(0), p.fr, q.w), Val(I64(0), q.fr, q.w), y, z, self);
      }
    } else {
      SameMore(p, q, y, z, self);
    }
  }

  lemma {:induction false} GuardAgrees(h: Host, env: CompileEnv, n: nat, self: Ray, e: Ray, form: Form, a: Frame,
                                       b: Frame, w: World, x: set<nat>)
    requires ValidEnv(env) && self.Lambda? && Fits(form, Size(e)) && form.Try?
    requires ClearForm(env, x, form, Size(e)) && NoReturnForm(env, form, Size(e))
    requires TameForm(h, env, n, self, form, Size(e), b, w)
    requires Same(Walk(h, env, n, form.body, a, w), Eval(h, env, n, self, form.body, b, w), x + Hidden(env, form.body),
                  self)
    ensures Same(WalkForm(h, env, n, e, form, a, w), EvalForm(h, env, n, self, e, form, b, w),
                 x + HiddenOf(env, form, Size(e)), self)
    decreases Size(e), 0
  {
    hide Walk, Eval, Hidden, Clear, NoReturn, Tame, Linked, Recover;
    var y, z := x + Hidden(env, form.body), x + HiddenOf(env, form, Size(e));
    var p, q := Walk(h, env, n, form.body, a, w), Eval(h, env, n, self, form.body, b, w);
    if q.Fail? {
      HandlerAgrees(h, env, n, self, form.handler, p.fr, q.fr, q.f, q.w, y);
      var w1 := q.w.(raised := None);
      SameMore(Recover(h, env, n, WalkerCaught(q.w), Walk(h, env, n, form.handler, p.fr, w1)),
               Recover(h, env, n, Caught(q.f, q.w), Eval(h, env, n, self, form.handler, q.fr, w1)), y + Hidden(env,
                   form.handler), z, self);
    } else {
      SameMore(p, q, y, z, self);
    }
  }

  /** A handler: what it is called with is the same, or it is not called. */
  lemma {:induction false} HandlerAgrees(h: Host, env: CompileEnv, n: nat, self: Ray, hd: Ray, a: Frame, b: Frame,
                                         f: Fault, w: World, x: set<nat>)
    requires ValidEnv(env) && self.Lambda? && Linked(a, b, x, self) && Clear(env, x, hd) && NoReturn(env, hd)
    requires var w1 := w.(raised := None);
      && Tame(h, env, n, self, hd, b, w1)
      && match Eval(h, env, n, self, hd, b, w1) case Val(v, _, _) => Callable(v) ==> SeesSame(f, w) case _ => true
    ensures var w1 := w.(raised := None);
      Same(Recover(h, env, n, WalkerCaught(w), Walk(h, env, n, hd, a, w1)),
           Recover(h, env, n, Caught(f, w), Eval(h, env, n, self, hd, b, w1)),
           x + Hidden(env, hd), self)
    decreases Size(hd), 2
  {
    hide Walk, Eval, Hidden, Clear, NoReturn, Tame, Linked, Apply;
    var w1 := w.(raised := None);
    WalkAgrees(h, env, n, self, hd, a, b, w1, x);
    SeesSameIff(f, w);
  }

  lemma {:induction false} SelfAgrees(h: Host, env: CompileEnv, n: nat, self: Ray, e: Ray, args: seq<Ray>, a: Frame,
                                      b: Frame, w: World, x: set<nat>)
    requires ValidEnv(env) && self.Lambda? && Linked(a, b, x, self) && SizeAll(args) < Size(e) && |args| <= MAX_ARGS
    requires ClearAll(env, x, args) && NoReturnAll(env, args) && TameSeq(h, env, n, self, args, b, w)
    ensures Same(WalkCall(h, env, n, e, Found(WalkName(h, SF_SELF, a, w), a, w), args),
                 Invoke(h, env, n, self, EvalArgs(h, env, n, self, args, b, w)),
                 x + HiddenAll(env, args), self)
    decreases SizeAll(args), 3
  {
    hide WalkArgs, EvalArgs, ClearAll, NoReturnAll, TameSeq, HiddenAll, Invoke;
    WalkArgsAgrees(h, env, n, self, args, a, b, w, x);
    InvokeSame(h, env, n, self, WalkArgs(h, env, n, args, a, w), EvalArgs(h, env, n, self, args, b, w),
               x + HiddenAll(env, args), self);
  }

  lemma {:induction false} CallAgrees(h: Host, env: CompileEnv, n: nat, self: Ray, e: Ray, head: Ray, args: seq<Ray>,
                                      p: Out, q: Out, x: set<nat>)
    requires ValidEnv(env) && self.Lambda? && SizeAll(args) < Size(e) && Same(p, q, x + Hidden(env, head), self)
    requires ClearAll(env, x + Hidden(env, head), args) && NoReturnAll(env, args)
    requires match q case Val(f, fr, w) => Takes(f, |args|) && TameSeq(h, env, n, self, args, fr, w) case _ => true
    ensures Same(WalkCall(h, env, n, e, p, args),
                 match q case Val(f, fr, w) => Invoke(h, env, n, f,
                                                      EvalArgs(h, env, n, self, args, fr, w)) case other => other,
                 x + (Hidden(env, head) + HiddenAll(env, args)), self)
    decreases SizeAll(args), 3
  {
    hide WalkArgs, EvalArgs, ClearAll, NoReturnAll, TameSeq, Hidden, HiddenAll, Invoke, Linked;
    var y, z := x + Hidden(env, head), x + (Hidden(env, head) + HiddenAll(env, args));
    if q.Val? {
      WalkArgsAgrees(h, env, n, self, args, p.fr, q.fr, q.w, y);
      assert y + HiddenAll(env, args) == z;
      InvokeSame(h, env, n, q.v, WalkArgs(h, env, n, args, p.fr, q.w), EvalArgs(h, env, n, self, args, q.fr, q.w), z,
                 self);
    } else {
      SameMore(p, q, y, z, self);
    }
  }

  lemma {:induction false} WalkSeqAgrees(h: Host, env: CompileEnv, n: nat, self: Ray, es: seq<Ray>, a: Frame, b: Frame,
                                         w: World, x: set<nat>)
    requires ValidEnv(env) && self.Lambda? && es != [] && Linked(a, b, x, self)
    requires ClearAll(env, x, es) && NoReturnAll(env, es) && TameSeq(h, env, n, self, es, b, w)
    ensures Same(WalkSeq(h, env, n, es, a, w), EvalSeq(h, env, n, self, es, b, w), x + HiddenAll(env, es), self)
    decreases SizeAll(es), 2
  {
    hide Walk, Eval, Clear, NoReturn, Tame, Hidden, Linked;
    WalkAgrees(h, env, n, self, es[0], a, b, w, x);
    var y, z := x + Hidden(env, es[0]), x + HiddenAll(env, es);
    var p, q := Walk(h, env, n, es[0], a, w), Eval(h, env, n, self, es[0], b, w);
    if q.Val? && |es| > 1 {
      WalkSeqAgrees(h, env, n, self, es[1..], p.fr, q.fr, q.w, y);
      assert y + HiddenAll(env, es[1..]) == z;
    } else {
      SameMore(p, q, y, z, self);
    }
  }

  lemma {:induction false} WalkArgsAgrees(h: Host, env: CompileEnv, n: nat, self: Ray, es: seq<Ray>, a: Frame, b: Frame,
                                          w: World, x: set<nat>)
    requires ValidEnv(env) && self.Lambda? && Linked(a, b, x, self)
    requires ClearAll(env, x, es) && NoReturnAll(env, es) && TameSeq(h, env, n, self, es, b, w)
    ensures SameArgs(WalkArgs(h, env, n, es, a, w), EvalArgs(h, env, n, self, es, b, w), x + HiddenAll(env, es), self)
    decreases SizeAll(es), 2
  {
    hide Walk, Eval, Clear, NoReturn, Tame, Hidden, Linked;
    if es == [] {
      assert x + HiddenAll(env, es) == x;
    } else {
      WalkAgrees(h, env, n, self, es[0], a, b, w, x);
      var y, z := x + Hidden(env, es[0]), x + HiddenAll(env, es);
      var p, q := Walk(h, env, n, es[0], a, w), Eval(h, env, n, self, es[0], b, w);
      if q.Val? {
        WalkArgsAgrees(h, env, n, self, es[1..], p.fr, q.fr, q.w, y);
        assert y + HiddenAll(env, es[1..]) == z;
      } else {
        SameMore(p, q, y, z, self);
      }
    }
  }

  // ---------- returning at the end ----------

  lemma EndOfSame(p: Out, q: Out, x: set<nat>, self: Ray)
    requires Same(p, q, x, self)
    ensures SameEnd(p, q, x, self)
  {
  }

  lemma {:induction false} WalkEnds(h: Host, env: CompileEnv, n: nat, self: Ray, e: Ray, a: Frame, b: Frame, w: World,
                                    x: set<nat>)
    requires ValidEnv(env) && self.Lambda? && Linked(a, b, x, self)
    requires Clear(env, x, e) && TailReturn(env, e) && Tame(h, env, n, self, e, b, w)
    ensures SameEnd(Walk(h, env, n, e, a, w), Eval(h, env, n, self, e, b, w), x + Hidden(env, e), self)
    decreases Size(e), 2
  {
    hide Walk, Eval, Hidden, Clear, NoReturn, Tame, TailReturn, Classify, WalkChoose, Choose, WalkGuard, Guard,
         WalkSeq, EvalSeq, Size, SizeAll, Linked;
    if NoReturn(env, e) {
      WalkAgrees(h, env, n, self, e, a, b, w, x);
      EndOfSame(Walk(h, env, n, e, a, w), Eval(h, env, n, self, e, b, w), x + Hidden(env, e), self);
      return;
    }
    EvalIs(h, env, n, self, e, b, w);
    WalkIs(h, env, n, self, x, e, a, w);
    WalkIs(h, env, n, self, x, e, b, w);
    var form := Classify(env, e);
    match form
    case Let(_, v) => WalkEnds(h, env, n, self, v, a, b, w, x);
    case If(c, _, _) =>
      WalkAgrees(h, env, n, self, c, a, b, w, x);
      ChooseEnds(h, env, n, self, e, form, a, b, w, x);
    case Do(es) =>
      WalkSeqEnds(h, env, n, self, es, a, b, w, x);
      EvalSeqLeaves(h, env, n, self, es, b, w);
      DoEnds(WalkSeq(h, env, n, es, a, w), EvalSeq(h, env, n, self, es, b, w), a, b, x, HiddenAll(env, es),
             LetsAll(env, es), self);
    case Try(c, _) =>
      WalkEnds(h, env, n, self, c, a, b, w, x);
      GuardEnds(h, env, n, self, e, form, a, b, w, x);
    case Return(r) => if r.Some? { WalkEnds(h, env, n, self, r.value, a, b, w, x); }
  }

  lemma DoEnds(p: Out, q: Out, a: Frame, b: Frame, x: set<nat>, y: set<nat>, z: set<nat>, self: Ray)
    requires Linked(a, b, x, self) && SameEnd(p, q, x + y, self) && Leaves(b, q, z)
    ensures SameEnd(Scoped(p, a), q, x + z, self)
  {
  }

  lemma {:induction false} ChooseEnds(h: Host, env: CompileEnv, n: nat, self: Ray, e: Ray, form: Form, a: Frame,
                                      b: Frame, w: World, x: set<nat>)
    requires ValidEnv(env) && self.Lambda? && Fits(form, Size(e)) && form.If?
    requires ClearForm(env, x, form, Size(e)) && TailForm(env, form, Size(e))
    requires TameForm(h, env, n, self, form, Size(e), b, w)
    requires Same(Walk(h, env, n, form.cond, a, w), Eval(h, env, n, self, form.cond, b, w), x + Hidden(env, form.cond),
                  self)
    ensures SameEnd(WalkForm(h, env, n, e, form, a, w), EvalForm(h, env, n, self, e, form, b, w),
                    x + HiddenOf(env, form, Size(e)), self)
    decreases Size(e), 0
  {
    hide Walk, Eval, Hidden, Clear, NoReturn, TailReturn, Tame, Linked;
    var y, z := x + Hidden(env, form.cond), x + HiddenOf(env, form, Size(e));
    var p, q := Walk(h, env, n, form.cond, a, w), Eval(h, env, n, self, form.cond, b, w);
    if q.Val? {
      if h.truthy(q.v) {
        WalkEnds(h, env, n, self, form.then_, p.fr, q.fr, q.w, y);
        SameEndMore(Walk(h, env, n, form.then_, p.fr, q.w), Eval(h, env, n, self, form.then_, q.fr, q.w),
                    y + Hidden(env, form.then_), z, self);
      } else if form.else_.Some? {
        var r := form.else_.value;
        WalkEnds(h, env, n, self, r, p.fr, q.fr, q.w, y);
        SameEndMore(Walk(h, env, n, r, p.fr, q.w), Eval(h, env, n, self, r, q.fr, q.w), y + Hidden(env, r), z, self);
      }
    } else {
      EndOfSame(p, q, y, self);
      SameEndMore(p, q, y, z, self);
    }
  }

  lemma {:induction false} GuardEnds(h: Host, env: CompileEnv, n: nat, self: Ray, e: Ray, form: Form, a: Frame,
                                     b: Frame, w: World, x: set<nat>)
    requires ValidEnv(env) && self.Lambda? && Fits(form, Size(e)) && form.Try?
    requires ClearForm(env, x, form, Size(e)) && TailForm(env, form, Size(e))
    requires TameForm(h, env, n, self, form, Size(e), b, w)
    requires SameEnd(Walk(h, env, n, form.body, a, w), Eval(h, env, n, self, form.body, b, w),
                     x + Hidden(env, form.body), self)
    ensures SameEnd(WalkForm(h, env, n, e, form, a, w), EvalForm(h, env, n, self, e, form, b, w),
                    x + HiddenOf(env, form, Size(e)), self)
    decreases Size(e), 0
  {
    hide Walk, Eval, Hidden, Clear, NoReturn, TailReturn, Tame, Linked, Recover;
    var y, z := x + Hidden(env, form.body), x + HiddenOf(env, form, Size(e));
    var p, q := Walk(h, env, n, form.body, a, w), Eval(h, env, n, self, form.body, b, w);
    if q.Fail? {
      HandlerAgrees(h, env, n, self, form.handler, p.fr, q.fr, q.f, q.w, y);
      var w1 := q.w.(raised := None);
      var p1 := Recover(h, env, n, WalkerCaught(q.w), Walk(h, env, n, form.handler, p.fr, w1));
      var q1 := Recover(h, env, n, Caught(q.f, q.w), Eval(h, env, n, self, form.handler, q.fr, w1));
      EndOfSame(p1, q1, y + Hidden(env, form.handler), self);
      SameEndMore(p1, q1, y + Hidden(env, form.handler), z, self);
    } else {
      SameEndMore(p, q, y, z, self);
    }
  }

  lemma {:induction false} WalkSeqEnds(h: Host, env: CompileEnv, n: nat, self: Ray, es: seq<Ray>, a: Frame, b: Frame,
                                       w: World, x: set<nat>)
    requires ValidEnv(env) && self.Lambda? && es != [] && Linked(a, b, x, self)
    requires ClearAll(env, x, es) && TailAll(env, es) && TameSeq(h, env, n, self, es, b, w)
    ensures SameEnd(WalkSeq(h, env, n, es, a, w), EvalSeq(h, env, n, self, es, b, w), x + HiddenAll(env, es), self)
    decreases SizeAll(es), 3
  {
    hide Walk, Eval, Clear, NoReturn, TailReturn, Tame, Hidden, Linked;
    var y, z := x + Hidden(env, es[0]), x + HiddenAll(env, es);
    var p, q := Walk(h, env, n, es[0], a, w), Eval(h, env, n, self, es[0], b, w);
    if |es| == 1 {
      WalkEnds(h, env, n, self, es[0], a, b, w, x);
      SameEndMore(p, q, y, z, self);
    } else {
      WalkAgrees(h, env, n, self, es[0], a, b, w, x);
      if q.Val? {
        WalkSeqEnds(h, env, n, self, es[1..], p.fr, q.fr, q.w, y);
        assert y + HiddenAll(env, es[1..]) == z;
      } else {
        EndOfSame(p, q, y, self);
        SameEndMore(p, q, y, z, self);
      }
    }
  }

  // ---------- whole bodies ----------

  lemma {:induction false} BindLinked(params: seq<nat>, args: seq<Ray>, self: Ray)
    requires |params| == |args| && SF_SELF !in params
    ensures Linked(Bind(map[SF_SELF := self], params, args), Bind(map[], params, args), {SF_SELF}, self)
    decreases |params|
  {
    if params != [] {
      BindLinked(params[..|params| - 1], args[..|args| - 1], self);
    }
  }

  /** What the source shows of a lambda: no `return` but at the end, no name read after the
      `do` that binds it, no reserved name and no `self` bound. */
  predicate Plain(env: CompileEnv, f: Ray) {
    f.Lambda? && f.body != [] && SF_SELF !in f.params && ClearAll(env, {SF_SELF}, f.body) && TailAll(env, f.body)
  }

  /** A lambda's body gives the same result, error and world under the walker's rules as by
      direct evaluation, if it is plain and, where it calls a handler or a function, that
      call is one both rules make alike. */
  lemma WalkedBodyAgrees(h: Host, env: CompileEnv, n: nat, f: Ray, args: seq<Ray>, w: World)
    requires ValidEnv(env) && Plain(env, f) && |args| == |f.params|
    requires TameSeq(h, env, n, f, f.body, Bind(map[], f.params, args), w)
    ensures var q := Body(h, env, n, f, args, w); q.Unchecked? || WalkBody(h, env, n, f, args, w) == q
  {
    hide WalkSeq, EvalSeq, TameSeq, ClearAll, TailAll;
    BindLinked(f.params, args, f);
    WalkSeqEnds(h, env, n, f, f.body, Bind(map[SF_SELF := f], f.params, args), Bind(map[], f.params, args), w,
                {SF_SELF});
  }

  // ---------- programs on which the rules differ ----------

  const X: nat := 20

  /** A built-in that fails, and one that gives back its argument. */
  const FAIL: Ray := Builtin(Unary, false, 1)
  const GIVE: Ray := Builtin(Unary, false, 2)

  function Failing(): Host {
    Host((f: Ray, args: seq<Ray>, w) =>
           if f == FAIL then Refused(Error(ERR_DOMAIN), w) else Returned(if args == [] then Null else args[0], w),
         (e, w) => Returned(Null, w),
         (g: map<nat, Ray>, id) => if id in g then Bound(g[id]) else Undefined,
         (g: map<nat, Ray>, id, v) => Stored(g[id := v]),
         v => v != I64(0))
  }

  lemma Unfold(h: Host, env: CompileEnv, n: nat, self: Ray, e: Ray, fr: Frame, w: World)
    requires ValidEnv(env) && self.Lambda?
    ensures Eval(h, env, n, self, e, fr, w) == EvalForm(h, env, n, self, e, Classify(env, e), fr, w)
    ensures Walk(h, env, n, e, fr, w) == WalkForm(h, env, n, e, Classify(env, e), fr, w)
  {
  }

  /** A call of a built-in that stands there itself. */
  lemma CallOfConstant(h: Host, env: CompileEnv, n: nat, self: Ray, e: Ray, f: Ray, args: seq<Ray>, fr: Frame, w: World)
    requires ValidEnv(env) && self.Lambda? && f.Builtin? && !f.special && Classify(env, e) == Call(f, None, args)
    ensures Eval(h, env, n, self, e, fr, w) == Invoke(h, env, n, f, EvalArgs(h, env, n, self, args, fr, w))
    ensures Walk(h, env, n, e, fr, w) == if Refusal(f, |args|).Some? then Fail(Thrown(Error(Refusal(f, |args|).value)),
        fr, w)
                                         else Invoke(h, env, n, f, WalkArgs(h, env, n, args, fr, w))
  {
    hide Eval, Walk, Invoke, EvalArgs, WalkArgs, Classify, Refusal;
    Unfold(h, env, n, self, e, fr, w);
    Constants(h, env, n, self, f, fr, w);
  }

  lemma Constants(h: Host, env: CompileEnv, n: nat, self: Ray, e: Ray, fr: Frame, w: World)
    requires ValidEnv(env) && self.Lambda? && (e.Builtin? || e.I64?)
    ensures Eval(h, env, n, self, e, fr, w) == Val(e, fr, w) == Walk(h, env, n, e, fr, w)
  {
  }

  lemma Names1(h: Host, env: CompileEnv, n: nat, self: Ray, id: nat, fr: Frame, w: World)
    requires ValidEnv(env) && self.Lambda? && id in fr && id != SF_NULL
    ensures Eval(h, env, n, self, Symbol(id, false), fr, w) == Val(fr[id], fr, w) == Walk(h, env, n, Symbol(id, false),
        fr, w)
  {
    assert Classify(env, Symbol(id, false)) == Name(id);
  }

  lemma SeqOf1(h: Host, env: CompileEnv, n: nat, self: Ray, e: Ray, fr: Frame, w: World)
    requires ValidEnv(env) && self.Lambda?
    ensures EvalSeq(h, env, n, self, [e], fr, w) == Eval(h, env, n, self, e, fr, w)
    ensures WalkSeq(h, env, n, [e], fr, w) == Walk(h, env, n, e, fr, w)
  {
    hide Eval, Walk;
  }

  /** Two expressions, one after the other. */
  lemma SeqOf2(h: Host, env: CompileEnv, n: nat, self: Ray, e: Ray, e1: Ray, fr: Frame, w: World)
    requires ValidEnv(env) && self.Lambda?
    ensures var p := Eval(h, env, n, self, e, fr, w);
      EvalSeq(h, env, n, self, [e, e1], fr, w) == if p.Val? then Eval(h, env, n, self, e1, p.fr, p.w) else p
    ensures var p := Walk(h, env, n, e, fr, w);
      WalkSeq(h, env, n, [e, e1], fr, w) == if p.Val? then Walk(h, env, n, e1, p.fr, p.w) else p
  {
    hide Eval, Walk;
    assert [e, e1][1..] == [e1];
    var p, q := Eval(h, env, n, self, e, fr, w), Walk(h, env, n, e, fr, w);
    if p.Val? { SeqOf1(h, env, n, self, e1, p.fr, p.w); }
    if q.Val? { SeqOf1(h, env, n, self, e1, q.fr, q.w); }
  }

  lemma DoForm2(env: CompileEnv, e: Ray, e1: Ray)
    ensures Classify(env, List([Symbol(SF_DO, false), e, e1])) == Do([e, e1])
  {
    assert [Symbol(SF_DO, false), e, e1][1..] == [e, e1];
  }

  function LetTwo(): Ray { List([Symbol(SF_LET, false), Symbol(X, false), I64(2)]) }
  function DoLetTwo(): Ray { List([Symbol(SF_DO, false), LetTwo(), I64(0)]) }

  lemma LetTwoBinds(h: Host, env: CompileEnv, self: Ray, fr: Frame, w: World)
    requires ValidEnv(env) && self.Lambda? && X !in env.reserved
    ensures Eval(h, env, 0, self, LetTwo(), fr, w) == Val(I64(2), fr[X := I64(2)], w) == Walk(h, env, 0, LetTwo(), fr,
        w)
  {
    hide Eval, Walk;
    assert Classify(env, LetTwo()) == Let(Symbol(X, false), I64(2));
    Unfold(h, env, 0, self, LetTwo(), fr, w);
    Constants(h, env, 0, self, I64(2), fr, w);
  }

  /** (do (let x 2) 0) x, where x was 1: 2 in one frame, 1 with a scope. */
  lemma ScopedDoDiffers(h: Host, env: CompileEnv, self: Ray, w: World)
    requires ValidEnv(env) && self.Lambda? && X !in env.reserved
    ensures var fr: Frame := map[X := I64(1)]; var es := [DoLetTwo(), Symbol(X, false)];
      && EvalSeq(h, env, 0, self, es, fr, w) == Val(I64(2), fr[X := I64(2)], w)
      && WalkSeq(h, env, 0, es, fr, w) == Val(I64(1), fr, w)
  {
    hide Eval, Walk, EvalSeq, WalkSeq, Classify;
    var fr: Frame := map[X := I64(1)];
    DoForm2(env, LetTwo(), I64(0));
    Unfold(h, env, 0, self, DoLetTwo(), fr, w);
    LetTwoBinds(h, env, self, fr, w);
    SeqOf2(h, env, 0, self, LetTwo(), I64(0), fr, w);
    Constants(h, env, 0, self, I64(0), fr[X := I64(2)], w);
    SeqOf2(h, env, 0, self, DoLetTwo(), Symbol(X, false), fr, w);
    Names1(h, env, 0, self, X, fr, w);
    Names1(h, env, 0, self, X, fr[X := I64(2)], w);
  }

  function ReturnOne(): Ray { List([Symbol(SF_RETURN, false), I64(1)]) }
  function DoReturnOne(): Ray { List([Symbol(SF_DO, false), ReturnOne()]) }

  /** (do (return 1)) 2: compiled code leaves with 1, the walker goes on to 2. */
  lemma ReturnDiffers(h: Host, env: CompileEnv, self: Ray, fr: Frame, w: World)
    requires ValidEnv(env) && self.Lambda?
    ensures var es := [DoReturnOne(), I64(2)];
      EvalSeq(h, env, 0, self, es, fr, w) == Ret(I64(1), w) && WalkSeq(h, env, 0, es, fr, w) == Val(I64(2), fr, w)
  {
    hide Eval, Walk, EvalSeq, WalkSeq;
    assert Classify(env, ReturnOne()) == Return(Some(I64(1)));
    assert Classify(env, DoReturnOne()) == Do([ReturnOne()]) by {
      assert [Symbol(SF_DO, false), ReturnOne()][1..] == [ReturnOne()];
    }
    Unfold(h, env, 0, self, ReturnOne(), fr, w);
    Unfold(h, env, 0, self, DoReturnOne(), fr, w);
    Constants(h, env, 0, self, I64(1), fr, w);
    Constants(h, env, 0, self, I64(2), fr, w);
    SeqOf1(h, env, 0, self, ReturnOne(), fr, w);
    SeqOf2(h, env, 0, self, DoReturnOne(), I64(2), fr, w);
  }

  /** One argument that is a constant. */
  lemma OneArg(h: Host, env: CompileEnv, n: nat, self: Ray, i: int, fr: Frame, w: World)
    requires ValidEnv(env) && self.Lambda?
    ensures EvalArgs(h, env, n, self, [I64(i)], fr, w) == Vals([I64(i)], fr, w) == WalkArgs(h, env, n, [I64(i)], fr, w)
  {
    hide Eval, Walk;
    Constants(h, env, n, self, I64(i), fr, w);
    assert [I64(i)][1..] == [];
    assert EvalArgs(h, env, n, self, [I64(i)], fr, w) == Vals([I64(i)] + [], fr, w);
    assert WalkArgs(h, env, n, [I64(i)], fr, w) == Vals([I64(i)] + [], fr, w);
  }

  function NoNames(): (env: CompileEnv) ensures ValidEnv(env) { CompileEnv(map[], {}) }
  function FailCall(): Ray { List([FAIL, I64(5)]) }
  function TryFail(): Ray { List([Symbol(SF_TRY, false), FailCall(), GIVE]) }

  lemma FailRefuses(args: seq<Ray>, w: World)
    ensures Apply(Failing(), NoNames(), 0, FAIL, args, w) == Broke(Thrown(Error(ERR_DOMAIN)), w)
  {
  }

  lemma GiveBack(x: Ray, w: World)
    ensures Handle(Failing(), NoNames(), 0, GIVE, x, w) == Gave(x, w)
  {
  }

  lemma FailCallForms()
    ensures Classify(NoNames(), FailCall()) == Call(FAIL, None, [I64(5)])
    ensures Classify(NoNames(), TryFail()) == Try(FailCall(), GIVE)
  {
    assert [FAIL, I64(5)][1..] == [I64(5)];
  }

  /** (fail 5) */
  lemma FailCallFails(self: Ray, fr: Frame, w: World)
    requires self.Lambda?
    ensures var out := Fail(Thrown(Error(ERR_DOMAIN)), fr, w);
      Eval(Failing(), NoNames(), 0, self, FailCall(), fr, w) == out == Walk(Failing(), NoNames(), 0, FailCall(), fr, w)
  {
    hide Eval, Walk, EvalSeq, EvalArgs, WalkArgs, Apply, Classify, Failing;
    var env, h := NoNames(), Failing();
    FailCallForms();
    CallOfConstant(h, env, 0, self, FailCall(), FAIL, [I64(5)], fr, w);
    OneArg(h, env, 0, self, 5, fr, w);
    FailRefuses([I64(5)], w);
  }

  /** A failure reaches the handler `give`. */
  lemma GivenError(self: Ray, size: nat, fr: Frame, w: World)
    requires self.Lambda? && w.raised.None? && size > 1
    ensures var out := Fail(Thrown(Error(ERR_DOMAIN)), fr, w);
      && Guard(Failing(), NoNames(), 0, self, size, out, GIVE) == Val(Error(ERR_DOMAIN), fr, w)
      && WalkGuard(Failing(), NoNames(), 0, size, out, GIVE) == Val(I64(0), fr, w)
  {
    hide Eval, Walk, Handle, Apply, Failing;
    assert w.(raised := None) == w;
    Constants(Failing(), NoNames(), 0, self, GIVE, fr, w);
    GiveBack(Error(ERR_DOMAIN), w);
    GiveBack(I64(0), w);
  }

  /** (try (fail 5) give): compiled code gives the error, the walker 0. */
  lemma HandlersDiffer(self: Ray, fr: Frame, w: World)
    requires self.Lambda? && w.raised.None?
    ensures Eval(Failing(), NoNames(), 0, self, TryFail(), fr, w) == Val(Error(ERR_DOMAIN), fr, w)
    ensures Walk(Failing(), NoNames(), 0, TryFail(), fr, w) == Val(I64(0), fr, w)
  {
    hide Eval, Walk, Guard, WalkGuard, Classify, Failing;
    FailCallForms();
    Unfold(Failing(), NoNames(), 0, self, TryFail(), fr, w);
    FailCallFails(self, fr, w);
    GivenError(self, Size(TryFail()), fr, w);
  }

  function SetX(): Ray { List([Symbol(SF_SET, false), Symbol(X, false), I64(1)]) }
  function GiveTwo(): Ray { List([GIVE, SetX(), I64(2)]) }

  lemma SetXStores(self: Ray, fr: Frame, w: World)
    requires self.Lambda?
    ensures Eval(Failing(), NoNames(), 0, self, SetX(), fr, w) == Val(I64(1), fr, w.(globals := w.globals[X := I64(1)]))
  {
    hide Eval, Walk;
    assert Classify(NoNames(), SetX()) == Set(Symbol(X, false), I64(1));
    EvalIs(Failing(), NoNames(), 0, self, SetX(), fr, w);
    Constants(Failing(), NoNames(), 0, self, I64(1), fr, w);
  }

  lemma GiveTwoArgs(self: Ray, fr: Frame, w: World)
    requires self.Lambda?
    ensures EvalArgs(Failing(), NoNames(), 0, self, [SetX(), I64(2)], fr, w)
         == Vals([I64(1), I64(2)], fr, w.(globals := w.globals[X := I64(1)]))
  {
    hide Eval, Walk, WalkArgs, Failing;
    var args, w1 := [SetX(), I64(2)], w.(globals := w.globals[X := I64(1)]);
    SetXStores(self, fr, w);
    OneArg(Failing(), NoNames(), 0, self, 2, fr, w1);
    assert args[1..] == [I64(2)];
    assert EvalArgs(Failing(), NoNames(), 0, self, args, fr, w) == Vals([I64(1)] + [I64(2)], fr, w1);
  }

  lemma GiveTwoForm()
    ensures Classify(NoNames(), GiveTwo()) == Call(GIVE, None, [SetX(), I64(2)])
  {
    assert [GIVE, SetX(), I64(2)][1..] == [SetX(), I64(2)];
  }

  lemma GiveTakes(args: seq<Ray>, w: World)
    requires args != []
    ensures Apply(Failing(), NoNames(), 0, GIVE, args, w) == Gave(args[0], w)
  {
  }

  /** (give (set x 1) 2), with one argument too many: compiled code evaluates the arguments
      first and so sets x, and the walker refuses the call before. */
  lemma CallsDiffer(self: Ray, fr: Frame, w: World)
    requires self.Lambda?
    ensures var q := Eval(Failing(), NoNames(), 0, self, GiveTwo(), fr, w);
      q.Val? && q.w.globals == w.globals[X := I64(1)]
    ensures Walk(Failing(), NoNames(), 0, GiveTwo(), fr, w) == Fail(Thrown(Error(ERR_ARITY)), fr, w)
  {
    hide Eval, Walk, WalkArgs, EvalArgs, Apply, Classify, Failing;
    GiveTwoForm();
    CallOfConstant(Failing(), NoNames(), 0, self, GiveTwo(), GIVE, [SetX(), I64(2)], fr, w);
    GiveTwoArgs(self, fr, w);
    GiveTakes([I64(1), I64(2)], w.(globals := w.globals[X := I64(1)]));
  }
}
