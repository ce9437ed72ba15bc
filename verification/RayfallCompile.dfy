/** What the bytecode compiler emits, as a function of the expression and of
    the constant pool and local table it has built so far.  Jumps are relative,
    so the code of an expression does not depend on where it is placed. */
module RayfallCompile {
  import opened Wrappers
  import opened RayfallSyntax

  const OP_RET: nat := 0
  const OP_JMP: nat := 1
  const OP_JMPF: nat := 2
  const OP_LOADCONST: nat := 3
  const OP_LOADENV: nat := 4
  const OP_STOREENV: nat := 5
  const OP_POP: nat := 6
  const OP_RESOLVE: nat := 7
  const OP_CALL1: nat := 8
  const OP_CALL2: nat := 9
  const OP_CALLN: nat := 10
  const OP_CALLF: nat := 11
  const OP_CALLS: nat := 12
  const OP_CALLD: nat := 13
  const OP_DUP: nat := 14
  const OP_LOADCONST_W: nat := 15
  const OP_RESOLVE_W: nat := 16
  const OP_TRAP: nat := 17
  const OP_TRAP_END: nat := 18
  const OP_STOREGLOBAL: nat := 19
  const OP_STOREGLOBAL_W: nat := 20
  const OP_SCOPE_BEGIN: nat := 21
  const OP_SCOPE_END: nat := 22
  const OP_TRYH: nat := 23
  const OP_FORCE: nat := 24

  const MAX_LOCALS: nat := 256
  const MAX_ARGS: nat := 64
  const MAX_JUMP: nat := 32767
  const HIDDEN: int := -1          // table entry of a try's error slot

  /** The constant pool and the local table; a name's slot is its index. */
  datatype Table = Table(consts: seq<Ray>, locals: seq<int>)

  datatype Emitted = Failed | Code(bytes: seq<nat>, table: Table)

  // ---------- constant pool ----------

  const PLUS_ZERO: nat := 0
  const MINUS_ZERO: nat := 0x8000_0000_0000_0000

  predicate IsNan(bits: nat) {
    bits % MINUS_ZERO > 0x7FF0_0000_0000_0000
  }

  predicate IsZero(bits: nat) {
    bits == PLUS_ZERO || bits == MINUS_ZERO
  }

  /** IEEE equality of doubles given by their bit patterns. */
  predicate FloatEq(a: nat, b: nat) {
    !IsNan(a) && !IsNan(b) && (a == b || (IsZero(a) && IsZero(b)))
  }

  /** The pool entry v is reused for the constant x.  Null and the built-ins are
      shared objects; other non-atoms are only equal to themselves, and each
      expression is compiled once. */
  predicate Reuses(v: Ray, x: Ray) {
    match v
    case Null => x.Null?
    case Builtin(_, _, _) => v == x
    case I64(_) => v == x
    case F64(b) => x.F64? && FloatEq(b, x.bits)
    case Bool(_) => v == x
    case Symbol(_, _) => v == x
    case _ => false
  }

  function FindConst(consts: seq<Ray>, x: Ray, i: nat): (k: nat)
    requires i <= |consts|
    ensures i <= k <= |consts|
    ensures k < |consts| ==> Reuses(consts[k], x)
    ensures forall j :: i <= j < k ==> !Reuses(consts[j], x)
    decreases |consts| - i
  {
    if i == |consts| || Reuses(consts[i], x) then i else FindConst(consts, x, i + 1)
  }

  function AddConst(t: Table, x: Ray): (r: (Table, nat))
    ensures r.0.locals == t.locals && t.consts <= r.0.consts && r.1 < |r.0.consts|
    ensures r.0.consts[r.1] == x || Reuses(r.0.consts[r.1], x)
  {
    var k := FindConst(t.consts, x, 0);
    (if k < |t.consts| then t else t.(consts := t.consts + [x]), k)
  }

  /** An operand below 256 takes the short opcode and one byte; otherwise the
      wide opcode and the low sixteen bits. */
  function WithIndex(op: nat, wide: nat, i: nat): (b: seq<nat>) {
    if i < 256 then [op, i] else [wide, (i / 256) % 256, i % 256]
  }

  function LoadConst(t: Table, x: Ray): Emitted {
    var r := AddConst(t, x);
    Code(WithIndex(OP_LOADCONST, OP_LOADCONST_W, r.1), r.0)
  }

  // ---------- locals ----------

  /** Slot of a name, searched from the newest entry; -1 if it is not local. */
  function Find(locals: seq<int>, id: int): (slot: int)
    ensures -1 <= slot < |locals|
    ensures slot >= 0 ==> locals[slot] == id
  {
    if locals == [] then -1
    else if locals[|locals| - 1] == id then |locals| - 1
    else Find(locals[..|locals| - 1], id)
  }

  /** The search misses a name exactly when the table does not hold it. */
  lemma {:induction false} FindAbsent(locals: seq<int>, id: int)
    ensures Find(locals, id) < 0 <==> id !in locals
  {
    if locals != [] && locals[|locals| - 1] != id {
      FindAbsent(locals[..|locals| - 1], id);
      assert locals == locals[..|locals| - 1] + [locals[|locals| - 1]];
    }
  }

  /** The names in the local table. */
  function Names(locals: seq<int>): (s: set<nat>)
    ensures forall x: nat :: x in s <==> Find(locals, x) >= 0
  {
    assert forall x: nat :: x in locals <==> Find(locals, x) >= 0 by {
      forall x: nat ensures x in locals <==> Find(locals, x) >= 0 { FindAbsent(locals, x); }
    }
    set i: int | 0 <= i < |locals| && locals[i] >= 0 :: locals[i]
  }

  predicate IsLocalRef(names: set<nat>, id: nat) {
    id == SF_SELF || id == SF_EVAL || id == SF_RESOLVE || id in names
  }

  /** Does e mention a local name, or a name that could reach one? */
  predicate RefsLocals(names: set<nat>, e: Ray)
    decreases e, 0
  {
    match e
    case Symbol(id, _) => IsLocalRef(names, id)
    case SymVec(ids) => exists i | 0 <= i < |ids| :: IsLocalRef(names, ids[i])
    case List(es) => AnyRefsLocals(names, es)
    case Dict(k, v) => RefsLocals(names, k) || RefsLocals(names, v)
    case _ => false
  }

  predicate AnyRefsLocals(names: set<nat>, es: seq<Ray>)
    decreases es, 1
  {
    es != [] && (RefsLocals(names, es[0]) || AnyRefsLocals(names, es[1..]))
  }

  /** Every name that occurs in e, quoted or not. */
  function Mentioned(e: Ray): set<nat>
    decreases e, 0
  {
    match e
    case Symbol(id, _) => {id}
    case SymVec(ids) => set i | 0 <= i < |ids| :: ids[i]
    case List(es) => AllMentioned(es)
    case Dict(k, v) => Mentioned(k) + Mentioned(v)
    case _ => {}
  }

  function AllMentioned(es: seq<Ray>): set<nat>
    decreases es, 1
  {
    if es == [] then {} else Mentioned(es[0]) + AllMentioned(es[1..])
  }

  /** A form reaches the locals exactly if it mentions one of them, or `self`, `eval` or `resolve`. */
  lemma {:induction false} RefsLocalsIff(names: set<nat>, e: Ray)
    ensures RefsLocals(names, e) <==> Mentioned(e) * (names + {SF_SELF, SF_EVAL, SF_RESOLVE}) != {}
    decreases e, 0
  {
    var reach := names + {SF_SELF, SF_EVAL, SF_RESOLVE};
    assert forall x :: x in reach <==> IsLocalRef(names, x);
    match e
    case Symbol(id, _) => if id in reach { assert id in {id} * reach; }
    case SymVec(ids) =>
      if i :| 0 <= i < |ids| && IsLocalRef(names, ids[i]) { assert ids[i] in Mentioned(e) * reach; }
    case List(es) => AnyRefsLocalsIff(names, es);
    case Dict(k, v) =>
      RefsLocalsIff(names, k);
      RefsLocalsIff(names, v);
      assert Mentioned(e) * reach == Mentioned(k) * reach + Mentioned(v) * reach;
    case _ =>
  }

  lemma {:induction false} AnyRefsLocalsIff(names: set<nat>, es: seq<Ray>)
    ensures AnyRefsLocals(names, es) <==> AllMentioned(es) * (names + {SF_SELF, SF_EVAL, SF_RESOLVE}) != {}
    decreases es, 1
  {
    if es != [] {
      var reach := names + {SF_SELF, SF_EVAL, SF_RESOLVE};
      RefsLocalsIff(names, es[0]);
      AnyRefsLocalsIff(names, es[1..]);
      assert AllMentioned(es) * reach == Mentioned(es[0]) * reach + AllMentioned(es[1..]) * reach;
    }
  }

  // ---------- code ----------

  /** A forward jump over len bytes, as patched in: a 16-bit offset. */
  function Jump(op: nat, len: nat): (b: seq<nat>) {
    [op, (len / 256) % 256, len % 256]
  }

  function Repeat(op: nat, n: nat): (b: seq<nat>)
    ensures |b| == n
  {
    if n == 0 then [] else [op] + Repeat(op, n - 1)
  }

  function CallOp(callee: Option<Ray>, argc: nat): (b: seq<nat>)
    requires callee.Some? ==> callee.value.Builtin?
  {
    if callee.Some? && callee.value.arity.Unary? && argc == 1 then [OP_CALL1]
    else if callee.Some? && callee.value.arity.Binary? && argc == 2 then [OP_CALL2]
    else if callee.Some? && callee.value.arity.Vary? then [OP_CALLN, argc]
    else [OP_CALLF, argc]
  }

  /** Code for e inside td open traps. */
  function Comp(env: CompileEnv, t: Table, td: nat, e: Ray): Emitted
    requires ValidEnv(env)
    decreases Size(e), 0, 1
  {
    CompForm(env, t, td, e, Classify(env, e))
  }

  function CompForm(env: CompileEnv, t: Table, td: nat, e: Ray, form: Form): Emitted
    requires ValidEnv(env) && Fits(form, Size(e)) && CalleeOK(env, form)
    decreases Size(e), 0, 0
  {
    match form
    case Nothing => Code([], t)
    case Constant => LoadConst(t, e)
    case NullName => LoadConst(t, Null)
    case Name(id) =>
      var slot := Find(t.locals, id);
      if slot >= 0 then Code([OP_LOADENV, slot], t)
      else
        var r := AddConst(t, e);
        Code(WithIndex(OP_RESOLVE, OP_RESOLVE_W, r.1), r.0)
    case Set(name, v) =>
      if !name.Symbol? then Failed
      else CompSet(name, Comp(env, t, td, v))
    case Let(name, v) =>
      if !name.Symbol? || name.id in env.reserved then Failed
      else CompLet(name, Comp(env, t, td, v))
    case If(c, a, b) =>
      (match Comp(env, t, td, c)
       case Failed => Failed
       case Code(bc, t1) =>
         match Comp(env, t1, td, a)
         case Failed => Failed
         case Code(ba, t2) =>
           CompIf(bc, ba, if b.Some? then Comp(env, t2, td, b.value) else LoadConst(t2, I64(0))))
    case Do(es) => CompSeq(env, t, td, es)
    case Fn => CompDynamic(t, e)
    case Try(b, h) =>
      if |t.locals| >= MAX_LOCALS then Failed
      else
        (match Comp(env, t.(locals := t.locals + [HIDDEN]), td + 1, b)
         case Failed => Failed
         case Code(bb, t1) => CompTry(|t.locals|, bb, Comp(env, t1, td, h)))
    case Return(r) =>
      (match if r.Some? then Comp(env, t, td, r.value) else LoadConst(t, Null)
       case Failed => Failed
       case Code(b, t1) => Code(b + (Repeat(OP_TRAP_END, td) + [OP_RET]), t1))
    case Self(args) =>
      if |args| > MAX_ARGS then Failed
      else
        (match CompArgs(env, t, td, args)
         case Failed => Failed
         case Code(b, t1) => Code(b + [OP_CALLS, |args|], t1))
    case Special => CompSpecial(t, e)
    case Call(head, callee, args) =>
      (match if callee.Some? then LoadConst(t, callee.value) else Comp(env, t, td, head)
       case Failed => Failed
       case Code(bh, t1) =>
         if |args| > MAX_ARGS then Failed
         else
           match CompArgs(env, t1, td, args)
           case Failed => Failed
           case Code(ba, t2) => Code(bh + (ba + CallOp(callee, |args|)), t2))
  }

  function CompSet(name: Ray, value: Emitted): Emitted {
    match value
    case Failed => Failed
    case Code(b, t) =>
      var r := AddConst(t, name);
      Code(b + WithIndex(OP_STOREGLOBAL, OP_STOREGLOBAL_W, r.1), r.0)
  }

  function CompLet(name: Ray, value: Emitted): Emitted
    requires name.Symbol?
  {
    match value
    case Failed => Failed
    case Code(b, t) =>
      var slot := Find(t.locals, name.id);
      if slot >= 0 then Code(b + [OP_FORCE, OP_DUP, OP_STOREENV, slot], t)
      else if |t.locals| >= MAX_LOCALS then Failed
      else Code(b + [OP_FORCE, OP_DUP, OP_STOREENV, |t.locals|], t.(locals := t.locals + [name.id]))
  }

  function CompIf(bc: seq<nat>, ba: seq<nat>, other: Emitted): Emitted {
    match other
    case Failed => Failed
    case Code(bb, t) =>
      if |ba| + 3 > MAX_JUMP || |bb| > MAX_JUMP then Failed
      else Code(bc + (Jump(OP_JMPF, |ba| + 3) + (ba + (Jump(OP_JMP, |bb|) + bb))), t)
  }

  function CompTry(slot: nat, bb: seq<nat>, handler: Emitted): Emitted {
    match handler
    case Failed => Failed
    case Code(bh, t) =>
      if |bb| + 4 > MAX_JUMP || |bh| + 5 > MAX_JUMP then Failed
      else Code(Jump(OP_TRAP, |bb| + 4)
                + (bb + ([OP_TRAP_END] + (Jump(OP_JMP, |bh| + 5)
                + ([OP_STOREENV, slot] + (bh + [OP_LOADENV, slot, OP_TRYH]))))), t)
  }

  function CompDynamic(t: Table, e: Ray): Emitted {
    var r := AddConst(t, e);
    Code(WithIndex(OP_LOADCONST, OP_LOADCONST_W, r.1) + [OP_CALLD, 0], r.0)
  }

  function CompSpecial(t: Table, e: Ray): Emitted {
    if !RefsLocals(Names(t.locals), e) then CompDynamic(t, e)
    else
      var r := AddConst(t, I64Vec(t.locals));
      var names := WithIndex(OP_LOADCONST, OP_LOADCONST_W, r.1);
      match CompDynamic(r.0, e)
      case Failed => Failed
      case Code(b, t1) => Code(names + ([OP_SCOPE_BEGIN] + (b + (names + [OP_SCOPE_END]))), t1)
  }

  /** Objects that are not shared take a pool entry of their own. */
  lemma OwnEntry(t: Table, x: Ray)
    requires x.List? || x.I64Vec?
    ensures AddConst(t, x) == (t.(consts := t.consts + [x]), |t.consts|)
  {
  }

  lemma ScopeShape(t: Table, es: seq<Ray>)
    requires RefsLocals(Names(t.locals), List(es))
    ensures var k := |t.consts|; var load, form := WithIndex(3, 15, k), WithIndex(3, 15, k + 1);
      CompSpecial(t, List(es)) == Code(load + [21] + form + [13, 0] + load + [22], t.(consts := t.consts + [I64Vec(t.locals), List(es)]))
  {
    hide AddConst, RefsLocals, Names, WithIndex;
    var k, names := |t.consts|, I64Vec(t.locals);
    OwnEntry(t, names);
    OwnEntry(t.(consts := t.consts + [names]), List(es));
    assert t.consts + [names] + [List(es)] == t.consts + [names, List(es)];
    var load, form := WithIndex(3, 15, k), WithIndex(3, 15, k + 1);
    assert load + ([21] + ((form + [13, 0]) + (load + [22]))) == load + [21] + form + [13, 0] + load + [22];
  }

  /** A special form that mentions a local carries the names in the slots, in order: they are
      loaded before the scope begins and again before it ends, around the call of the form. */
  lemma ScopeCarriesNames(t: Table, es: seq<Ray>)
    requires RefsLocals(Names(t.locals), List(es)) && |t.consts| + 1 < 65536
    ensures var k := |t.consts|; var r := CompSpecial(t, List(es));
      && r.Code? && r.table == t.(consts := t.consts + [I64Vec(t.locals), List(es)])
      && (k + 1 < 256 ==> r.bytes == [3, k, 21, 3, k + 1, 13, 0, 3, k, 22])
      && (k == 255 ==> r.bytes == [3, 255, 21, 15, 1, 0, 13, 0, 3, 255, 22])
      && (k >= 256 ==> r.bytes == [15, k / 256, k % 256, 21, 15, (k + 1) / 256, (k + 1) % 256, 13, 0, 15, k / 256, k % 256, 22])
  {
    hide CompSpecial, RefsLocals, Names;
    ScopeShape(t, es);
  }

  /** One that mentions none is evaluated as it stands. */
  lemma NoScopeWithoutNames(t: Table, es: seq<Ray>)
    requires !RefsLocals(Names(t.locals), List(es)) && |t.consts| < 256
    ensures CompSpecial(t, List(es)) == Code([3, |t.consts|, 13, 0], t.(consts := t.consts + [List(es)]))
  {
    OwnEntry(t, List(es));
  }

  /** Expressions in sequence: every value but the last is discarded. */
  function CompSeq(env: CompileEnv, t: Table, td: nat, es: seq<Ray>): Emitted
    requires ValidEnv(env) && es != []
    decreases SizeAll(es), 1, |es|
  {
    match Comp(env, t, td, es[0])
    case Failed => Failed
    case Code(b, t1) =>
      if |es| == 1 then Code(b, t1)
      else
        match CompSeq(env, t1, td, es[1..])
        case Failed => Failed
        case Code(bs, t2) => Code(b + ([OP_POP] + bs), t2)
  }

  function CompArgs(env: CompileEnv, t: Table, td: nat, es: seq<Ray>): Emitted
    requires ValidEnv(env)
    decreases SizeAll(es), 1, |es|
  {
    if es == [] then Code([], t)
    else
      match Comp(env, t, td, es[0])
      case Failed => Failed
      case Code(b, t1) =>
        match CompArgs(env, t1, td, es[1..])
        case Failed => Failed
        case Code(bs, t2) => Code(b + bs, t2)
  }

  /** A compiled lambda: bytecode, constants and number of slots. */
  datatype Program = Program(code: seq<nat>, consts: seq<Ray>, nlocals: nat)

  function CompileLambda(env: CompileEnv, params: seq<nat>, body: seq<Ray>): Option<Program>
    requires ValidEnv(env)
  {
    if |params| > MAX_LOCALS then None
    else if body == [] then Some(Program([OP_RET], [], |params|))
    else
      match CompSeq(env, Table([], params), 0, body)
      case Failed => None
      case Code(b, t) => Some(Program(b + [OP_RET], t.consts, |t.locals|))
  }

  // ---------- reading code ----------

  function ReadIndex(code: seq<nat>, ip: int, wide: bool): int {
    if wide then (if 0 <= ip && ip + 1 < |code| then code[ip] * 256 + code[ip + 1] else -1)
    else if 0 <= ip < |code| then code[ip] else -1
  }

  /** Sign-extended 16-bit offset. */
  function ReadOffset(code: seq<nat>, ip: int): int
    requires 0 <= ip && ip + 1 < |code|
  {
    var u: int := code[ip] * 256 + code[ip + 1];
    if u >= 0x8000 then u - 0x10000 else u
  }

  ghost predicate At(code: seq<nat>, ip: nat, bytes: seq<nat>) {
    ip + |bytes| <= |code| && forall i :: 0 <= i < |bytes| ==> code[ip + i] == bytes[i]
  }

  lemma AtSplit(code: seq<nat>, ip: nat, a: seq<nat>, b: seq<nat>)
    requires At(code, ip, a + b)
    ensures At(code, ip, a) && At(code, ip + |a|, b)
  {
    forall i | 0 <= i < |a| ensures code[ip + i] == a[i] { assert (a + b)[i] == a[i]; }
    forall i | 0 <= i < |b| ensures code[ip + |a| + i] == b[i] { assert (a + b)[|a| + i] == b[i]; }
  }

  lemma AtByte(code: seq<nat>, ip: nat, bytes: seq<nat>, i: nat)
    requires At(code, ip, bytes) && i < |bytes|
    ensures code[ip + i] == bytes[i]
  {
  }

  // ---------- growth ----------

  /** Compiling more only appends, and never moves a name to another slot. */
  ghost predicate Grows(t: Table, u: Table) {
    t.consts <= u.consts && Extends(t.locals, u.locals)
  }

  ghost predicate Extends(a: seq<int>, b: seq<int>) {
    a <= b && forall x {:trigger Find(b, x)} :: x >= 0 && Find(a, x) >= 0 ==> Find(b, x) == Find(a, x)
  }

  lemma FindAppend(locals: seq<int>, y: int, x: int)
    ensures Find(locals + [y], x) == if x == y then |locals| else Find(locals, x)
  {
    assert (locals + [y])[..|locals|] == locals;
  }

  lemma GrowsTrans(t: Table, u: Table, v: Table)
    requires Grows(t, u) && Grows(u, v)
    ensures Grows(t, v)
  {
    forall x | x >= 0 && Find(t.locals, x) >= 0 ensures Find(v.locals, x) == Find(t.locals, x) {
      assert Find(u.locals, x) == Find(t.locals, x);
    }
  }

  lemma GrowsLocal(t: Table, y: int)
    requires y == HIDDEN || Find(t.locals, y) < 0
    ensures Grows(t, t.(locals := t.locals + [y]))
  {
    forall x | x >= 0 && Find(t.locals, x) >= 0 ensures Find(t.locals + [y], x) == Find(t.locals, x) {
      FindAppend(t.locals, y, x);
    }
  }

  lemma {:induction false} CompGrows(env: CompileEnv, t: Table, td: nat, e: Ray)
    requires ValidEnv(env) && Comp(env, t, td, e).Code?
    ensures Grows(t, Comp(env, t, td, e).table)
    decreases Size(e), 0, 1
  {
    match Classify(env, e)
    case Set(name, v) => CompGrows(env, t, td, v);
    case Let(name, v) =>
      CompGrows(env, t, td, v);
      LetGrows(t, name, Comp(env, t, td, v));
    case If(c, a, b) => IfGrows(env, t, td, e);
    case Do(es) => CompSeqGrows(env, t, td, es);
    case Try(b, h) => TryGrows(env, t, td, e);
    case Return(r) => if r.Some? { CompGrows(env, t, td, r.value); }
    case Self(args) => CompArgsGrows(env, t, td, args);
    case Special => SpecialGrows(t, e);
    case Call(head, callee, args) => CallGrows(env, t, td, e);
    case _ =>
  }

  lemma {:induction false} IfGrows(env: CompileEnv, t: Table, td: nat, e: Ray)
    requires ValidEnv(env) && Classify(env, e).If? && Comp(env, t, td, e).Code?
    ensures Grows(t, Comp(env, t, td, e).table)
    decreases Size(e), 0, 0
  {
    var If(c, a, b) := Classify(env, e);
    var t1 := Comp(env, t, td, c).table;
    var t2 := Comp(env, t1, td, a).table;
    CompGrows(env, t, td, c);
    CompGrows(env, t1, td, a);
    if b.Some? { CompGrows(env, t2, td, b.value); }
    GrowsTrans(t, t1, t2);
    GrowsTrans(t, t2, Comp(env, t, td, e).table);
  }

  lemma {:induction false} TryGrows(env: CompileEnv, t: Table, td: nat, e: Ray)
    requires ValidEnv(env) && Classify(env, e).Try? && Comp(env, t, td, e).Code?
    ensures Grows(t, Comp(env, t, td, e).table)
    decreases Size(e), 0, 0
  {
    var Try(b, h) := Classify(env, e);
    var t0 := t.(locals := t.locals + [HIDDEN]);
    var t1 := Comp(env, t0, td + 1, b).table;
    CompGrows(env, t0, td + 1, b);
    CompGrows(env, t1, td, h);
    GrowsLocal(t, HIDDEN);
    GrowsTrans(t, t0, t1);
    GrowsTrans(t, t1, Comp(env, t1, td, h).table);
  }

  lemma {:induction false} CallGrows(env: CompileEnv, t: Table, td: nat, e: Ray)
    requires ValidEnv(env) && Classify(env, e).Call? && Comp(env, t, td, e).Code?
    ensures Grows(t, Comp(env, t, td, e).table)
    decreases Size(e), 0, 0
  {
    var Call(head, callee, args) := Classify(env, e);
    var t1 := (if callee.Some? then LoadConst(t, callee.value) else Comp(env, t, td, head)).table;
    if callee.None? { CompGrows(env, t, td, head); }
    CompArgsGrows(env, t1, td, args);
    GrowsTrans(t, t1, CompArgs(env, t1, td, args).table);
  }

  lemma LetGrows(t: Table, name: Ray, value: Emitted)
    requires name.Symbol? && value.Code? && Grows(t, value.table) && CompLet(name, value).Code?
    ensures Grows(t, CompLet(name, value).table)
  {
    if Find(value.table.locals, name.id) < 0 {
      GrowsLocal(value.table, name.id);
      GrowsTrans(t, value.table, CompLet(name, value).table);
    }
  }

  lemma SpecialGrows(t: Table, e: Ray)
    ensures CompSpecial(t, e).Code? && Grows(t, CompSpecial(t, e).table)
  {
  }

  lemma CompIs(env: CompileEnv, t: Table, td: nat, e: Ray)
    requires ValidEnv(env)
    ensures Comp(env, t, td, e) == CompForm(env, t, td, e, Classify(env, e))
  {
  }

  lemma {:induction false} CompSeqGrows(env: CompileEnv, t: Table, td: nat, es: seq<Ray>)
    requires ValidEnv(env) && es != [] && CompSeq(env, t, td, es).Code?
    ensures Grows(t, CompSeq(env, t, td, es).table)
    decreases SizeAll(es), 1, |es|
  {
    CompGrows(env, t, td, es[0]);
    if |es| > 1 {
      var t1 := Comp(env, t, td, es[0]).table;
      CompSeqGrows(env, t1, td, es[1..]);
      GrowsTrans(t, t1, CompSeq(env, t1, td, es[1..]).table);
    }
  }

  lemma {:induction false} CompArgsGrows(env: CompileEnv, t: Table, td: nat, es: seq<Ray>)
    requires ValidEnv(env) && CompArgs(env, t, td, es).Code?
    ensures Grows(t, CompArgs(env, t, td, es).table)
    decreases SizeAll(es), 1, |es|
  {
    if es != [] {
      CompGrows(env, t, td, es[0]);
      var t1 := Comp(env, t, td, es[0]).table;
      CompArgsGrows(env, t1, td, es[1..]);
      GrowsTrans(t, t1, CompArgs(env, t1, td, es[1..]).table);
    }
  }
}
