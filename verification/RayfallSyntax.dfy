/** Rayfall values.  Source text, constants and runtime values are the same
    objects, so one datatype serves the parser output, the constant pool and
    the operand stack. */
module RayfallSyntax {
  import opened Wrappers

  datatype Arity = Unary | Binary | Vary

  datatype Ray =
    | Null
    | I64(i: int)
    | F64(bits: nat)                       // IEEE 754 double, as its 64-bit pattern
    | Bool(b: bool)
    | Symbol(id: nat, quoted: bool)        // unquoted: a name reference
    | Atom(tag: int, data: int)            // any other atom
    | SymVec(ids: seq<nat>)
    | I64Vec(elems64: seq<int>)
    | Dict(keys: Ray, vals: Ray)
    | Data(tag: int, data: int)            // any other vector or table
    | List(elems: seq<Ray>)
    | Builtin(arity: Arity, special: bool, fn: int)
    | Lambda(params: seq<nat>, body: seq<Ray>)
    | Error(code: nat)

  const ERR_NAME: nat := 1
  const ERR_ARITY: nat := 2
  const ERR_DOMAIN: nat := 3

  // Interned ids of the names the compiler treats specially.
  const SF_SET: nat := 0
  const SF_LET: nat := 1
  const SF_IF: nat := 2
  const SF_DO: nat := 3
  const SF_FN: nat := 4
  const SF_SELF: nat := 5
  const SF_TRY: nat := 6
  const SF_RETURN: nat := 7
  const SF_NULL: nat := 8
  const SF_EVAL: nat := 9
  const SF_RESOLVE: nat := 10

  /** What the compiler sees of its surroundings: the names bound to built-in
      functions when the lambda is compiled, and the names `let` may not bind. */
  datatype CompileEnv = CompileEnv(fns: map<nat, Ray>, reserved: set<nat>)

  ghost predicate ValidEnv(env: CompileEnv) {
    SF_NULL !in env.fns && forall s :: s in env.fns ==> env.fns[s].Builtin?
  }

  function Size(e: Ray): (n: nat)
    ensures n >= 1
    decreases e, 0
  {
    match e
    case List(es) => 1 + SizeAll(es)
    case Dict(k, v) => 1 + Size(k) + Size(v)
    case _ => 1
  }

  function SizeAll(es: seq<Ray>): nat
    decreases es, 1
  {
    if es == [] then 0 else Size(es[0]) + SizeAll(es[1..])
  }

  lemma {:induction false} SizeMember(es: seq<Ray>, i: nat)
    requires i < |es|
    ensures Size(es[i]) <= SizeAll(es)
    ensures SizeAll(es[i..]) <= SizeAll(es)
    decreases i
  {
    if i == 0 {
      assert es[0..] == es;
    } else {
      SizeMember(es[1..], i - 1);
      assert es[1..][i - 1..] == es[i..];
    }
  }

  lemma {:induction false} SizeTwo(es: seq<Ray>, i: nat, j: nat)
    requires i < j < |es|
    ensures Size(es[i]) + Size(es[j]) <= SizeAll(es)
  {
    if i == 0 {
      SizeMember(es[1..], j - 1);
    } else {
      SizeTwo(es[1..], i - 1, j - 1);
    }
  }

  /** How one expression is handled: the case split of compile_expr and
      compile_list. */
  datatype Form =
    | Nothing                                   // an error object: emits nothing
    | Constant                                  // pushes the expression itself
    | NullName
    | Name(id: nat)
    | Set(name: Ray, value: Ray)
    | Let(name: Ray, value: Ray)
    | If(cond: Ray, then_: Ray, else_: Option<Ray>)
    | Do(exprs: seq<Ray>)
    | Fn
    | Try(body: Ray, handler: Ray)
    | Return(result: Option<Ray>)
    | Self(args: seq<Ray>)
    | Special                                   // evaluated by the tree walker
    | Call(head: Ray, callee: Option<Ray>, args: seq<Ray>)

  /** The parts of a form are smaller than the expression it was read from. */
  ghost predicate Fits(f: Form, n: nat) {
    match f
    case Set(_, v) => Size(v) < n
    case Let(_, v) => Size(v) < n
    case If(c, a, b) => Size(c) < n && Size(a) + (if b.Some? then Size(b.value) else 0) < n
    case Do(es) => es != [] && SizeAll(es) < n
    case Try(b, h) => Size(b) < n && Size(h) < n
    case Return(r) => r.Some? ==> Size(r.value) < n
    case Self(args) => SizeAll(args) < n
    case Call(h, _, args) => Size(h) < n && SizeAll(args) < n
    case _ => true
  }

  /** A callee known at compile time is the built-in its name is bound to. */
  predicate CalleeOK(env: CompileEnv, f: Form) {
    f.Call? && f.callee.Some? ==>
      f.head.Symbol? && !f.head.quoted && f.head.id in env.fns && f.callee.value == env.fns[f.head.id]
  }

  function Classify(env: CompileEnv, e: Ray): (f: Form)
    ensures Fits(f, Size(e)) && CalleeOK(env, f)
  {
    match e
    case Error(_) => Nothing
    case Symbol(id, false) => if id == SF_NULL then NullName else Name(id)
    case List(es) => if es == [] then Constant else ClassifyList(env, es)
    case _ => Constant
  }

  function ClassifyList(env: CompileEnv, es: seq<Ray>): (f: Form)
    requires es != []
    ensures Fits(f, 1 + SizeAll(es)) && CalleeOK(env, f)
    ensures !f.Nothing? && !f.Constant? && !f.NullName? && !f.Name?
  {
    var n := |es|;
    var head := es[0];
    assert forall i | 0 <= i < n :: Size(es[i]) <= SizeAll(es) && SizeAll(es[i..]) <= SizeAll(es) by {
      forall i | 0 <= i < n ensures Size(es[i]) <= SizeAll(es) && SizeAll(es[i..]) <= SizeAll(es) { SizeMember(es, i); }
    }
    if head.Symbol? && !head.quoted then
      var s := head.id;
      if s == SF_SET && n == 3 then Set(es[1], es[2])
      else if s == SF_LET && n == 3 then Let(es[1], es[2])
      else if s == SF_IF && n >= 3 then
        assert n >= 4 ==> Size(es[2]) + Size(es[3]) <= SizeAll(es) by { if n >= 4 { SizeTwo(es, 2, 3); } }
        If(es[1], es[2], if n >= 4 then Some(es[3]) else None)
      else if s == SF_DO && n >= 2 then Do(es[1..])
      else if s == SF_FN && n >= 3 then Fn
      else if s == SF_TRY && n == 3 then Try(es[1], es[2])
      else if s == SF_RETURN && n == 1 then Return(None)
      else if s == SF_RETURN && n == 2 then Return(Some(es[1]))
      else if s == SF_SELF then Self(es[1..])
      else if s in env.fns && env.fns[s].Builtin? && env.fns[s].special then Special
      else Call(head, if s in env.fns && env.fns[s].Builtin? then Some(env.fns[s]) else None, es[1..])
    else Call(head, None, es[1..])
  }
}
