/** The compiler itself: a byte buffer that is appended to and patched, a constant
    pool, a table of locals and an error flag, updated while the source is walked.
    Each method does what the functions of RayfallCompile say. */
module RayfallCompiler {
  import opened Wrappers
  import opened RayfallSyntax
  import opened RayfallCompile

  function Prefixed(b: seq<nat>, out: Emitted): Emitted {
    match out
    case Failed => Failed
    case Code(bs, t) => Code(b + bs, t)
  }

  class Compiler {
    const env: CompileEnv
    var code: seq<nat>
    var consts: seq<Ray>
    var locals: seq<int>
    var trapDepth: nat
    var error: bool

    constructor (env: CompileEnv)
      ensures this.env == env && code == [] && consts == [] && locals == [] && trapDepth == 0 && !error
    {
      this.env := env;
      code, consts, locals, trapDepth, error := [], [], [], 0, false;
    }

    function Table(): (t: RayfallCompile.Table)
      reads this
    {
      RayfallCompile.Table(consts, locals)
    }

    /** The compiler has emitted `out` behind `before`; it failed exactly if `out` is a failure. */
    ghost predicate Did(out: Emitted, before: seq<nat>)
      reads this
    {
      && before <= code
      && (error <==> out.Failed?)
      && (out.Code? ==> code == before + out.bytes && Table() == out.table)
    }

    // ---------- emitting ----------

    method Emit(byte: nat)
      modifies `code
      ensures code == old(code) + [byte]
    {
      code := code + [byte];
    }

    method EmitIndexed(op: nat, wide: nat, i: nat)
      modifies `code
      ensures code == old(code) + WithIndex(op, wide, i)
    {
      if i < 256 {
        Emit(op);
        Emit(i);
      } else {
        Emit(wide);
        Emit((i / 256) % 256);
        Emit(i % 256);
      }
    }

    method EmitConst(i: nat)
      modifies `code
      ensures code == old(code) + WithIndex(OP_LOADCONST, OP_LOADCONST_W, i)
    {
      EmitIndexed(OP_LOADCONST, OP_LOADCONST_W, i);
    }

    method EmitJump(op: nat) returns (pos: nat)
      modifies `code
      ensures code == old(code) + [op, 0, 0] && pos == |old(code)| + 1
    {
      Emit(op);
      pos := |code|;
      Emit(0);
      Emit(0);
    }

    /** Resolves the jump behind `front` to the current end of the code. */
    method PatchJump(pos: nat, ghost front: seq<nat>, ghost op: nat, ghost over: seq<nat>)
      requires code == front + [op, 0, 0] + over && pos == |front| + 1
      modifies `code, `error
      ensures error == (old(error) || |over| > MAX_JUMP)
      ensures code == front + (if |over| <= MAX_JUMP then Jump(op, |over|) else [op, 0, 0]) + over
    {
      var raw := |code| - pos - 2;
      if raw > MAX_JUMP {
        error := true;
      } else {
        code := code[pos := (raw / 256) % 256];
        code := code[pos + 1 := raw % 256];
      }
    }

    // ---------- pool and locals ----------

    method AddConstant(x: Ray) returns (i: nat)
      modifies `consts
      ensures (Table(), i) == AddConst(old(Table()), x)
    {
      i := 0;
      while i < |consts|
        invariant 0 <= i <= |consts|
        invariant FindConst(consts, x, 0) == FindConst(consts, x, i)
      {
        if Reuses(consts[i], x) { return; }
        i := i + 1;
      }
      consts := consts + [x];
    }

    method FindLocal(id: int) returns (slot: int)
      ensures slot == Find(locals, id)
    {
      slot := |locals| - 1;
      assert locals[..slot + 1] == locals;
      while slot >= 0
        invariant -1 <= slot < |locals|
        invariant Find(locals, id) == Find(locals[..slot + 1], id)
      {
        if locals[slot] == id { return; }
        assert locals[..slot + 1][..slot] == locals[..slot];
        slot := slot - 1;
      }
    }

    method AddLocal(id: int) returns (slot: int)
      modifies `locals
      ensures |old(locals)| >= MAX_LOCALS ==> slot == -1 && locals == old(locals)
      ensures |old(locals)| < MAX_LOCALS ==> slot == |old(locals)| && locals == old(locals) + [id]
    {
      if |locals| >= MAX_LOCALS { return -1; }
      slot := |locals|;
      locals := locals + [id];
    }

    // ---------- expressions ----------

    method CompileConst(x: Ray)
      requires !error
      modifies this
      ensures Did(LoadConst(old(Table()), x), old(code)) && trapDepth == old(trapDepth)
    {
      var i := AddConstant(x);
      EmitConst(i);
    }

    method CompileExpr(e: Ray)
      requires ValidEnv(env)
      modifies this
      ensures old(code) <= code && trapDepth == old(trapDepth)
      ensures old(error) ==> error
      ensures !old(error) ==> Did(Comp(env, old(Table()), trapDepth, e), old(code))
      decreases Size(e), 0, 2
    {
      if error { return; }
      match Classify(env, e)
      case Nothing =>
      case Constant => CompileConst(e);
      case NullName => CompileConst(Null);
      case Name(id) =>
        var slot := FindLocal(id);
        if slot >= 0 {
          Emit(OP_LOADENV);
          Emit(slot);
        } else {
          var i := AddConstant(e);
          EmitIndexed(OP_RESOLVE, OP_RESOLVE_W, i);
        }
      case _ => CompileList(e);
    }

    method CompileList(e: Ray)
      requires ValidEnv(env) && !error
      requires var f := Classify(env, e); !f.Nothing? && !f.Constant? && !f.NullName? && !f.Name?
      modifies this
      ensures old(code) <= code && trapDepth == old(trapDepth)
      ensures Did(Comp(env, old(Table()), trapDepth, e), old(code))
      decreases Size(e), 0, 1
    {
      match Classify(env, e)
      case Set(name, v) => CompileSet(Size(e), name, v);
      case Let(name, v) => CompileLet(Size(e), name, v);
      case If(c, a, b) =>
        CompileIf(Size(e), c, a, b);
        IfCodeIs(env, old(Table()), trapDepth, e);
      case Do(es) => CompileDo(es);
      case Fn => CompileDynamic(e);
      case Try(b, h) => CompileTry(Size(e), b, h);
      case Return(r) => CompileReturn(Size(e), r);
      case Self(args) => CompileSelf(args);
      case Special => CompileSpecial(e);
      case Call(head, callee, args) => CompileCall(Size(e), head, callee, args);
    }

    method CompileSet(n: nat, name: Ray, v: Ray)
      requires ValidEnv(env) && !error && Size(v) < n
      modifies this
      ensures trapDepth == old(trapDepth)
      ensures Did(if !name.Symbol? then Failed else CompSet(name, Comp(env, old(Table()), trapDepth, v)), old(code))
      decreases n, 0, 0
    {
      if !name.Symbol? {
        error := true;
        return;
      }
      CompileExpr(v);
      var i := AddConstant(name);
      EmitIndexed(OP_STOREGLOBAL, OP_STOREGLOBAL_W, i);
    }

    method CompileLet(n: nat, name: Ray, v: Ray)
      requires ValidEnv(env) && !error && Size(v) < n
      modifies this
      ensures trapDepth == old(trapDepth)
      ensures Did(if !name.Symbol? || name.id in env.reserved then Failed else CompLet(name,
          Comp(env, old(Table()), trapDepth, v)), old(code))
      decreases n, 0, 0
    {
      hide Comp;
      if !name.Symbol? || name.id in env.reserved {
        error := true;
        return;
      }
      CompileExpr(v);
      ghost var front := code;
      Emit(OP_FORCE);
      Emit(OP_DUP);
      var slot := FindLocal(name.id);
      if slot < 0 { slot := AddLocal(name.id); }
      if slot < 0 {
        error := true;
        return;
      }
      Emit(OP_STOREENV);
      Emit(slot);
      assert code == front + [OP_FORCE, OP_DUP, OP_STOREENV, slot];
    }

    method CompileIf(n: nat, c: Ray, a: Ray, b: Option<Ray>)
      requires ValidEnv(env) && !error && Size(c) < n && Size(a) + (if b.Some? then Size(b.value) else 0) < n
      modifies this
      ensures trapDepth == old(trapDepth)
      ensures Did(IfCode(env, old(Table()), trapDepth, c, a, b), old(code))
      decreases n, 0, 0
    {
      hide Comp, CompForm, Size, SizeAll, ArmsCode;
      CompileExpr(c);
      CompileArms(n, a, b);
    }

    /** The arms of an `if` and the two jumps over them. */
    method CompileArms(n: nat, a: Ray, b: Option<Ray>)
      requires ValidEnv(env) && Size(a) + (if b.Some? then Size(b.value) else 0) < n
      modifies this
      ensures trapDepth == old(trapDepth) && old(code) <= code
      ensures old(error) ==> error
      ensures !old(error) ==> Did(ArmsCode(env, old(Table()), trapDepth, a, b), old(code))
      decreases Size(a) + (if b.Some? then Size(b.value) else 0), 0, 5
    {
      hide Comp;
      ghost var front, t, ok0 := code, Table(), !error;
      var endPos := CompileThen(a);
      ghost var mid, ok := code[..|code| - 3], !error;
      assert code == mid + [OP_JMP, 0, 0];
      var bb := CompileElse(b, endPos, mid);
      if ok { ArmsShape(front, Comp(env, t, trapDepth, a).bytes, bb); }
    }

    /** The conditional jump, the first arm and the jump over the second, still open. */
    method CompileThen(a: Ray) returns (endPos: nat)
      requires ValidEnv(env)
      modifies this
      ensures trapDepth == old(trapDepth) && old(code) <= code && |code| >= |old(code)| + 3
      ensures code[|code| - 3..] == [OP_JMP, 0, 0] && endPos == |code| - 2
      ensures old(error) ==> error
      ensures !old(error) ==>
        match Comp(env, old(Table()), trapDepth, a)
        case Failed => error
        case Code(ba, t) =>
          && error == (|ba| + 3 > MAX_JUMP)
          && (!error ==> Table() == t && code == old(code) + Jump(OP_JMPF, |ba| + 3) + (ba + [OP_JMP, 0, 0]))
      decreases Size(a), 0, 4
    {
      ghost var front := code;
      var elsePos := EmitJump(OP_JMPF);
      ghost var start := code;
      CompileExpr(a);
      ghost var ba := code[|start|..];
      endPos := EmitJump(OP_JMP);
      assert code == front + [OP_JMPF, 0, 0] + (ba + [OP_JMP, 0, 0]);
      PatchJump(elsePos, front, OP_JMPF, ba + [OP_JMP, 0, 0]);
    }

    /** The second arm, or a zero, and the end of the jump over it. */
    method CompileElse(b: Option<Ray>, endPos: nat, ghost mid: seq<nat>) returns (ghost bb: seq<nat>)
      requires ValidEnv(env) && code == mid + [OP_JMP, 0, 0] && endPos == |mid| + 1
      modifies this
      ensures trapDepth == old(trapDepth) && mid <= code
      ensures old(error) ==> error
      ensures !old(error) ==>
        match (if b.Some? then Comp(env, old(Table()), trapDepth, b.value) else LoadConst(old(Table()), I64(0)))
        case Failed => error
        case Code(bytes, t) =>
          && error == (|bytes| > MAX_JUMP) && bb == bytes
          && (!error ==> Table() == t && code == mid + Jump(OP_JMP, |bb|) + bb)
      decreases if b.Some? then Size(b.value) else 0, 0, 4
    {
      ghost var start := code;
      if b.Some? {
        CompileExpr(b.value);
      } else if !error {
        CompileConst(I64(0));
      }
      bb := code[|start|..];
      PatchJump(endPos, mid, OP_JMP, bb);
    }

    method CompileDo(es: seq<Ray>)
      requires ValidEnv(env) && !error && es != []
      modifies this
      ensures trapDepth == old(trapDepth)
      ensures Did(CompSeq(env, old(Table()), trapDepth, es), old(code))
      decreases SizeAll(es), 1, |es|
    {
      hide Comp, CompForm, Size, SizeAll;
      ghost var whole := CompSeq(env, Table(), trapDepth, es);
      ghost var acc: seq<nat> := [];
      var i := 0;
      assert es[0..] == es;
      while i < |es|
        invariant 0 <= i <= |es| && old(code) <= code && trapDepth == old(trapDepth)
        invariant error ==> whole.Failed?
        invariant !error ==> code == old(code) + acc && whole == Continued(env, Table(), trapDepth, es[i..], acc, i > 0)
      {
        ghost var t, ok := Table(), !error;
        if i > 0 {
          Emit(OP_POP);
          acc := acc + [OP_POP];
        }
        ghost var before := code;
        SizeMember(es, i);
        CompileExpr(es[i]);
        if ok { SeqOne(env, t, trapDepth, es[i..], acc); }
        acc := acc + code[|before|..];
        assert es[i..][1..] == es[i + 1..];
        i := i + 1;
      }
    }

    method CompileArgs(es: seq<Ray>)
      requires ValidEnv(env) && !error
      modifies this
      ensures trapDepth == old(trapDepth)
      ensures Did(CompArgs(env, old(Table()), trapDepth, es), old(code))
      decreases SizeAll(es), 1, |es|
    {
      hide Comp, CompForm, Size, SizeAll;
      ghost var whole := CompArgs(env, Table(), trapDepth, es);
      var i := 0;
      assert es[0..] == es;
      while i < |es|
        invariant 0 <= i <= |es| && old(code) <= code && trapDepth == old(trapDepth)
        invariant error ==> whole.Failed?
        invariant !error ==> whole == Prefixed(code[|old(code)|..], CompArgs(env, Table(), trapDepth, es[i..]))
      {
        ghost var before, ok := code, !error;
        SizeMember(es, i);
        CompileExpr(es[i]);
        assert es[i..][1..] == es[i + 1..];
        assert ok && !error ==> code[|old(code)|..] == before[|old(code)|..] + code[|before|..];
        i := i + 1;
      }
    }

    method CompileDynamic(e: Ray)
      requires !error
      modifies this
      ensures Did(CompDynamic(old(Table()), e), old(code)) && trapDepth == old(trapDepth)
    {
      CompileConst(e);
      Emit(OP_CALLD);
      Emit(0);
    }

    method CompileSpecial(e: Ray)
      requires !error
      modifies this
      ensures Did(CompSpecial(old(Table()), e), old(code)) && trapDepth == old(trapDepth)
    {
      hide WithIndex, AddConst, RefsLocals, Names, CompDynamic;
      if !RefsLocals(Names(locals), e) {
        CompileDynamic(e);
        return;
      }
      var names := AddConstant(I64Vec(locals));
      EmitConst(names);
      Emit(OP_SCOPE_BEGIN);
      CompileDynamic(e);
      EmitConst(names);
      Emit(OP_SCOPE_END);
    }

    method CompileReturn(n: nat, r: Option<Ray>)
      requires ValidEnv(env) && !error && (r.Some? ==> Size(r.value) < n)
      modifies this
      ensures trapDepth == old(trapDepth)
      ensures Did(ReturnCode(trapDepth,
                             if r.Some? then Comp(env, old(Table()), trapDepth, r.value)
                             else LoadConst(old(Table()), Null)), old(code))
      decreases n, 0, 0
    {
      hide Comp;
      if r.Some? { CompileExpr(r.value); } else { CompileConst(Null); }
      ghost var start, t, failed := code, Table(), error;
      for i := 0 to trapDepth
        invariant code == start + Repeat(OP_TRAP_END, i) && Table() == t && trapDepth == old(trapDepth) && error == failed
      {
        Emit(OP_TRAP_END);
        RepeatMore(OP_TRAP_END, i);
      }
      Emit(OP_RET);
    }

    method CompileSelf(args: seq<Ray>)
      requires ValidEnv(env) && !error
      modifies this
      ensures trapDepth == old(trapDepth)
      ensures Did(SelfCode(|args|, CompArgs(env, old(Table()), trapDepth, args)), old(code))
      decreases SizeAll(args), 2, 0
    {
      if |args| > MAX_ARGS {
        error := true;
        return;
      }
      CompileArgs(args);
      Emit(OP_CALLS);
      Emit(|args|);
    }

    method CompileCall(n: nat, head: Ray, callee: Option<Ray>, args: seq<Ray>)
      requires ValidEnv(env) && !error && Size(head) < n && SizeAll(args) < n && (callee.Some? ==> callee.value.Builtin?)
      modifies this
      ensures trapDepth == old(trapDepth)
      ensures Did(CallCode(env, trapDepth, callee, args,
                           if callee.Some? then LoadConst(old(Table()), callee.value)
                           else Comp(env, old(Table()), trapDepth, head)), old(code))
      decreases n, 0, 0
    {
      hide Comp, CompForm, Size, SizeAll, CallOp, AddConst;
      if callee.Some? { CompileConst(callee.value); } else { CompileExpr(head); }
      if |args| > MAX_ARGS {
        error := true;
        return;
      }
      if error { return; }
      CompileArgs(args);
      EmitCall(callee, |args|);
    }

    method EmitCall(callee: Option<Ray>, argc: nat)
      requires callee.Some? ==> callee.value.Builtin?
      modifies `code
      ensures code == old(code) + CallOp(callee, argc)
    {
      if callee.Some? {
        match callee.value.arity
        case Unary =>
          if argc == 1 { Emit(OP_CALL1); return; }
        case Binary =>
          if argc == 2 { Emit(OP_CALL2); return; }
        case Vary =>
          Emit(OP_CALLN);
          Emit(argc);
          return;
      }
      Emit(OP_CALLF);
      Emit(argc);
    }

    method CompileTry(n: nat, b: Ray, h: Ray)
      requires ValidEnv(env) && !error && Size(b) < n && Size(h) < n
      modifies this
      ensures trapDepth == old(trapDepth)
      ensures Did(TryCode(env, old(Table()), trapDepth, b, h), old(code))
      decreases n, 0, 0
    {
      hide Comp, CompTry;
      var slot := AddLocal(HIDDEN);
      if slot < 0 {
        error := true;
        return;
      }
      ghost var front := code;
      var trapPos := EmitJump(OP_TRAP);
      ghost var start := code;
      trapDepth := trapDepth + 1;
      CompileExpr(b);
      trapDepth := trapDepth - 1;
      ghost var bb := code[|start|..];
      CompileHandler(n, front, trapPos, bb, slot, h);
    }

    /** The end of a try body, its handler, and the jumps to and over the handler. */
    method CompileHandler(n: nat, ghost front: seq<nat>, trapPos: nat, ghost bb: seq<nat>, slot: nat, h: Ray)
      requires ValidEnv(env) && Size(h) < n
      requires code == front + [OP_TRAP, 0, 0] + bb && trapPos == |front| + 1
      modifies this
      ensures trapDepth == old(trapDepth) && front <= code
      ensures old(error) ==> error
      ensures !old(error) ==> Did(CompTry(slot, bb, Comp(env, old(Table()), trapDepth, h)), front)
      decreases Size(h), 0, 5
    {
      hide Comp;
      Emit(OP_TRAP_END);
      var endPos := EmitJump(OP_JMP);
      assert code == front + [OP_TRAP, 0, 0] + (bb + [OP_TRAP_END, OP_JMP, 0, 0]);
      PatchJump(trapPos, front, OP_TRAP, bb + [OP_TRAP_END, OP_JMP, 0, 0]);
      ghost var mid, ok := code[..|code| - 3], !error;
      assert code == mid + [OP_JMP, 0, 0];
      ghost var bh := CompileCatch(slot, h, endPos, mid);
      if ok {
        assert mid == front + Jump(OP_TRAP, |bb| + 4) + (bb + [OP_TRAP_END]);
        TryShape(front, bb, slot, bh);
      }
    }

    /** The handler, and the end of the jump over it. */
    method CompileCatch(slot: nat, h: Ray, endPos: nat, ghost mid: seq<nat>) returns (ghost bh: seq<nat>)
      requires ValidEnv(env) && code == mid + [OP_JMP, 0, 0] && endPos == |mid| + 1
      modifies this
      ensures trapDepth == old(trapDepth) && mid <= code
      ensures old(error) ==> error
      ensures !old(error) ==>
        match Comp(env, old(Table()), trapDepth, h)
        case Failed => error
        case Code(bytes, t) =>
          && error == (|bytes| + 5 > MAX_JUMP) && bh == bytes
          && (!error ==> Table() == t && code == mid + Jump(OP_JMP, |bh| + 5) + ([OP_STOREENV, slot] + (bh + [OP_LOADENV, slot, OP_TRYH])))
      decreases Size(h), 0, 4
    {
      hide Comp;
      Emit(OP_STOREENV);
      Emit(slot);
      ghost var start := code;
      CompileExpr(h);
      bh := code[|start|..];
      Emit(OP_LOADENV);
      Emit(slot);
      Emit(OP_TRYH);
      ghost var handler := [OP_STOREENV, slot] + (bh + [OP_LOADENV, slot, OP_TRYH]);
      assert code == mid + [OP_JMP, 0, 0] + handler;
      PatchJump(endPos, mid, OP_JMP, handler);
    }
  }

  lemma ArmsShape(front: seq<nat>, ba: seq<nat>, bb: seq<nat>)
    ensures front + Jump(OP_JMPF, |ba| + 3) + ba + Jump(OP_JMP, |bb|) + bb
         == front + ([] + (Jump(OP_JMPF, |ba| + 3) + (ba + (Jump(OP_JMP, |bb|) + bb))))
    ensures (front + Jump(OP_JMPF, |ba| + 3) + (ba + [OP_JMP, 0, 0]))[..|front| + 3 + |ba|] == front + Jump(OP_JMPF, |ba| + 3) + ba
  {
  }

  lemma TryShape(front: seq<nat>, bb: seq<nat>, slot: nat, bh: seq<nat>)
    ensures var handler := [OP_STOREENV, slot] + (bh + [OP_LOADENV, slot, OP_TRYH]);
      front + Jump(OP_TRAP, |bb| + 4) + (bb + [OP_TRAP_END]) + Jump(OP_JMP, |bh| + 5) + handler
      == front + (Jump(OP_TRAP, |bb| + 4) + (bb + ([OP_TRAP_END] + (Jump(OP_JMP, |bh| + 5) + handler))))
  {
  }

  lemma {:induction false} RepeatMore(op: nat, n: nat)
    ensures Repeat(op, n) + [op] == Repeat(op, n + 1)
  {
    if n > 0 {
      RepeatMore(op, n - 1);
      assert [op] + Repeat(op, n - 1) + [op] == [op] + (Repeat(op, n - 1) + [op]);
    }
  }

  /** Code of a sequence of which `acc` is emitted and es remains. */
  function Continued(env: CompileEnv, t: Table, td: nat, es: seq<Ray>, acc: seq<nat>, pop: bool): Emitted
    requires ValidEnv(env)
  {
    if es == [] then Code(acc, t) else Prefixed(if pop then acc + [OP_POP] else acc, CompSeq(env, t, td, es))
  }

  lemma SeqOne(env: CompileEnv, t: Table, td: nat, es: seq<Ray>, acc: seq<nat>)
    requires ValidEnv(env) && es != []
    ensures Prefixed(acc, CompSeq(env, t, td, es)) ==
      match Comp(env, t, td, es[0])
      case Failed => Failed
      case Code(b, t1) => Continued(env, t1, td, es[1..], acc + b, true)
  {
    if Comp(env, t, td, es[0]).Code? && |es| > 1 {
      var b := Comp(env, t, td, es[0]).bytes;
      var rest := CompSeq(env, Comp(env, t, td, es[0]).table, td, es[1..]);
      if rest.Code? {
        assert acc + (b + ([OP_POP] + rest.bytes)) == acc + b + [OP_POP] + rest.bytes;
      }
    }
  }

  // The parts of CompForm, as functions of their own.

  function IfCode(env: CompileEnv, t: Table, td: nat, c: Ray, a: Ray, b: Option<Ray>): Emitted
    requires ValidEnv(env)
  {
    match Comp(env, t, td, c)
    case Failed => Failed
    case Code(bc, t1) => Prefixed(bc, ArmsCode(env, t1, td, a, b))
  }

  function ArmsCode(env: CompileEnv, t: Table, td: nat, a: Ray, b: Option<Ray>): Emitted
    requires ValidEnv(env)
  {
    match Comp(env, t, td, a)
    case Failed => Failed
    case Code(ba, t1) => CompIf([], ba, if b.Some? then Comp(env, t1, td, b.value) else LoadConst(t1, I64(0)))
  }

  lemma IfCodeIs(env: CompileEnv, t: Table, td: nat, e: Ray)
    requires ValidEnv(env) && Classify(env, e).If?
    ensures var If(c, a, b) := Classify(env, e); IfCode(env, t, td, c, a, b) == Comp(env, t, td, e)
  {
    hide Comp, Size;
    CompIs(env, t, td, e);
    var If(c, a, b) := Classify(env, e);
    var cc := Comp(env, t, td, c);
    if cc.Code? {
      var ca := Comp(env, cc.table, td, a);
      if ca.Code? { IfJoins(cc.bytes, ca.bytes, if b.Some? then Comp(env, ca.table, td, b.value) else LoadConst(ca.table, I64(0))); }
    }
  }

  lemma IfJoins(bc: seq<nat>, ba: seq<nat>, b: Emitted)
    ensures CompIf(bc, ba, b) == Prefixed(bc, CompIf([], ba, b))
  {
  }

  function TryCode(env: CompileEnv, t: Table, td: nat, b: Ray, h: Ray): Emitted
    requires ValidEnv(env)
  {
    if |t.locals| >= MAX_LOCALS then Failed
    else
      match Comp(env, t.(locals := t.locals + [HIDDEN]), td + 1, b)
      case Failed => Failed
      case Code(bb, t1) => CompTry(|t.locals|, bb, Comp(env, t1, td, h))
  }

  function ReturnCode(td: nat, value: Emitted): Emitted {
    match value
    case Failed => Failed
    case Code(b, t) => Code(b + (Repeat(OP_TRAP_END, td) + [OP_RET]), t)
  }

  function SelfCode(argc: nat, args: Emitted): Emitted {
    if argc > MAX_ARGS || args.Failed? then Failed else Code(args.bytes + [OP_CALLS, argc], args.table)
  }

  function CallCode(env: CompileEnv, td: nat, callee: Option<Ray>, args: seq<Ray>, head: Emitted): Emitted
    requires ValidEnv(env) && (callee.Some? ==> callee.value.Builtin?)
  {
    if head.Failed? || |args| > MAX_ARGS then Failed
    else
      match CompArgs(env, head.table, td, args)
      case Failed => Failed
      case Code(ba, t) => Code(head.bytes + (ba + CallOp(callee, |args|)), t)
  }

  /** Compilation of a lambda: nothing is installed if any part failed. */
  method Compile(env: CompileEnv, params: seq<nat>, body: seq<Ray>) returns (p: Option<Program>)
    requires ValidEnv(env)
    ensures p == CompileLambda(env, params, body)
  {
    var c := new Compiler(env);
    for i := 0 to |params|
      invariant fresh(c) && c.env == env && c.code == [] && c.consts == [] && c.trapDepth == 0
      invariant !c.error && i <= MAX_LOCALS && c.locals == params[..i]
    {
      var slot := c.AddLocal(params[i]);
      if slot < 0 { return None; }
    }
    assert params[..|params|] == params;
    ghost var t := Table([], params);
    assert c.Table() == t;
    if body == [] {
      c.Emit(OP_RET);
      assert c.code == [OP_RET] && |c.locals| == |params|;
      return Some(Program(c.code, c.consts, |c.locals|));
    }
    c.CompileDo(body);
    c.Emit(OP_RET);
    if c.error { return None; }
    assert c.code == CompSeq(env, t, 0, body).bytes + [OP_RET];
    return Some(Program(c.code, c.consts, |c.locals|));
  }
}
