/** Shape of emitted code: complete instructions, and jumps that land on them. */
module RayfallCode {
  import opened Wrappers
  import opened RayfallSyntax
  import opened RayfallCompile

  // ---------- instruction boundaries ----------

  predicate IsJump(op: nat) { op == OP_JMP || op == OP_JMPF || op == OP_TRAP }

  predicate IsWide(op: nat) { op == OP_LOADCONST_W || op == OP_RESOLVE_W || op == OP_STOREGLOBAL_W }

  predicate TakesByte(op: nat) {
    || op == OP_LOADCONST || op == OP_LOADENV || op == OP_STOREENV || op == OP_RESOLVE || op == OP_STOREGLOBAL
    || op == OP_CALLN || op == OP_CALLF || op == OP_CALLS || op == OP_CALLD
  }

  /** Length of an instruction. */
  function Width(op: nat): (n: nat) {
    if IsJump(op) || IsWide(op) then 3 else if TakesByte(op) then 2 else 1
  }

  /** The bytes are a sequence of complete instructions. */
  ghost predicate Whole(b: seq<nat>)
    decreases |b|
  {
    b == [] || (b[0] <= OP_FORCE && Width(b[0]) <= |b| && Whole(b[Width(b[0])..]))
  }

  ghost predicate Boundary(b: seq<nat>, i: int) {
    0 <= i <= |b| && Whole(b[..i])
  }

  lemma {:induction false} WholeConcat(a: seq<nat>, b: seq<nat>)
    requires Whole(a)
    ensures Whole(a + b) <==> Whole(b)
    decreases |a|
  {
    if a == [] {
      assert a + b == b;
    } else {
      var w := Width(a[0]);
      WholeConcat(a[w..], b);
      assert (a + b)[w..] == a[w..] + b;
    }
  }

  /** An instruction that starts inside whole code ends inside it. */
  lemma {:induction false} WholeInside(b: seq<nat>, i: nat)
    requires Whole(b) && i < |b| && Boundary(b, i)
    ensures b[i] <= OP_FORCE && i + Width(b[i]) <= |b|
  {
    WholeConcat(b[..i], b[i..]);
    assert b[..i] + b[i..] == b;
  }

  lemma BoundaryLeft(a: seq<nat>, b: seq<nat>, i: nat)
    requires i <= |a|
    ensures Boundary(a + b, i) <==> Boundary(a, i)
  {
    assert (a + b)[..i] == a[..i];
  }

  lemma BoundaryRight(a: seq<nat>, b: seq<nat>, i: nat)
    requires Whole(a) && i <= |b|
    ensures Boundary(a + b, |a| + i) <==> Boundary(b, i)
  {
    assert (a + b)[..|a| + i] == a + b[..i];
    WholeConcat(a, b[..i]);
  }

  /** A jump at i lands on an instruction boundary, or right behind the code. */
  ghost predicate LandsAt(b: seq<nat>, i: nat) {
    i + 2 < |b| && IsJump(b[i]) ==> Boundary(b, i + 3 + ReadOffset(b, i + 1))
  }

  ghost predicate Lands(b: seq<nat>) {
    forall i: nat {:trigger LandsAt(b, i)} {:trigger Boundary(b, i)} :: Boundary(b, i) ==> LandsAt(b, i)
  }

  /** Bytes that form whole instructions and whose jumps all land. */
  ghost predicate Formed(b: seq<nat>) {
    Whole(b) && Lands(b) && forall i :: 0 <= i < |b| ==> b[i] < 256
  }

  lemma LandsLeft(a: seq<nat>, b: seq<nat>, i: nat)
    requires Whole(a) && i < |a| && Boundary(a, i) && LandsAt(a, i)
    ensures LandsAt(a + b, i)
  {
    WholeInside(a, i);
    if IsJump(a[i]) {
      BoundaryLeft(a, b, i + 3 + ReadOffset(a, i + 1));
    }
  }

  lemma LandsRight(a: seq<nat>, b: seq<nat>, i: nat)
    requires Whole(a) && LandsAt(b, i)
    ensures LandsAt(a + b, |a| + i)
  {
    if i + 2 < |b| && IsJump(b[i]) {
      assert ReadOffset(a + b, |a| + i + 1) == ReadOffset(b, i + 1);
      BoundaryRight(a, b, i + 3 + ReadOffset(b, i + 1));
    }
  }

  lemma FormedConcat(a: seq<nat>, b: seq<nat>)
    requires Formed(a) && Formed(b)
    ensures Formed(a + b)
  {
    WholeConcat(a, b);
    forall i: nat | Boundary(a + b, i) ensures LandsAt(a + b, i) {
      if i < |a| {
        BoundaryLeft(a, b, i);
        LandsLeft(a, b, i);
      } else {
        BoundaryRight(a, b, i - |a|);
        LandsRight(a, b, i - |a|);
      }
    }
  }

  lemma JumpWhole(op: nat, len: nat)
    requires IsJump(op)
    ensures Whole(Jump(op, len))
  {
    assert Jump(op, len)[3..] == [];
  }

  lemma JumpLandsAt(op: nat, len: nat, b: seq<nat>, i: nat)
    requires IsJump(op) && Formed(b) && len <= MAX_JUMP && Boundary(b, len) && Boundary(Jump(op, len) + b, i)
    ensures LandsAt(Jump(op, len) + b, i)
  {
    var a := Jump(op, len);
    JumpWhole(op, len);
    if i == 0 {
      BoundaryRight(a, b, len);
    } else {
      assert (a + b)[..i][0] == op;
      BoundaryRight(a, b, i - 3);
      LandsRight(a, b, i - 3);
    }
  }

  /** A jump to an instruction behind it, or just over the code behind it. */
  lemma FormedJump(op: nat, len: nat, b: seq<nat>)
    requires IsJump(op) && Formed(b) && len <= MAX_JUMP && Boundary(b, len)
    ensures Formed(Jump(op, len) + b)
  {
    var a := Jump(op, len);
    JumpWhole(op, len);
    WholeConcat(a, b);
    forall i: nat | Boundary(a + b, i) ensures LandsAt(a + b, i) { JumpLandsAt(op, len, b, i); }
  }

  /** A single instruction without a jump. */
  lemma FormedOne(b: seq<nat>)
    requires b != [] && b[0] <= OP_FORCE && !IsJump(b[0]) && |b| == Width(b[0]) && forall i :: 0 <= i < |b| ==> b[i] < 256
    ensures Formed(b)
  {
    assert b[|b|..] == [];
  }

  lemma FormedIndex(op: nat, wide: nat, i: nat)
    requires TakesByte(op) && op <= OP_FORCE && IsWide(wide) && wide <= OP_FORCE
    ensures Formed(WithIndex(op, wide, i))
  {
    FormedOne(WithIndex(op, wide, i));
  }

  // ---------- every emitted fragment is well formed ----------

  lemma {:induction false} CompFormed(env: CompileEnv, t: Table, td: nat, e: Ray)
    requires ValidEnv(env) && |t.locals| <= MAX_LOCALS && Comp(env, t, td, e).Code?
    ensures Formed(Comp(env, t, td, e).bytes) && |Comp(env, t, td, e).table.locals| <= MAX_LOCALS
    decreases Size(e), 0, 1
  {
    match Classify(env, e)
    case Nothing =>
    case Constant => FormedIndex(OP_LOADCONST, OP_LOADCONST_W, AddConst(t, e).1);
    case NullName => FormedIndex(OP_LOADCONST, OP_LOADCONST_W, AddConst(t, Null).1);
    case Name(id) =>
      if Find(t.locals, id) >= 0 { FormedOne([OP_LOADENV, Find(t.locals, id)]); }
      else { FormedIndex(OP_RESOLVE, OP_RESOLVE_W, AddConst(t, e).1); }
    case Set(name, v) =>
      CompFormed(env, t, td, v);
      var c := Comp(env, t, td, v);
      FormedIndex(OP_STOREGLOBAL, OP_STOREGLOBAL_W, AddConst(c.table, name).1);
      FormedConcat(c.bytes, WithIndex(OP_STOREGLOBAL, OP_STOREGLOBAL_W, AddConst(c.table, name).1));
    case Let(name, v) => LetFormed(env, t, td, e);
    case If(c, a, b) => IfFormed(env, t, td, e);
    case Do(es) => CompSeqFormed(env, t, td, es);
    case Fn => DynamicFormed(t, e);
    case Try(b, h) => TryFormed(env, t, td, e);
    case Return(r) => ReturnFormed(env, t, td, e);
    case Self(args) =>
      CompArgsFormed(env, t, td, args);
      FormedOne([OP_CALLS, |args|]);
      FormedConcat(CompArgs(env, t, td, args).bytes, [OP_CALLS, |args|]);
    case Special => SpecialFormed(t, e);
    case Call(head, callee, args) => CallFormed(env, t, td, e);
  }

  lemma {:induction false} LetFormed(env: CompileEnv, t: Table, td: nat, e: Ray)
    requires ValidEnv(env) && |t.locals| <= MAX_LOCALS && Comp(env, t, td, e).Code? && Classify(env, e).Let?
    ensures Formed(Comp(env, t, td, e).bytes) && |Comp(env, t, td, e).table.locals| <= MAX_LOCALS
    decreases Size(e), 0, 0
  {
    var Let(name, v) := Classify(env, e);
    CompFormed(env, t, td, v);
    var c := Comp(env, t, td, v);
    var slot := if Find(c.table.locals, name.id) >= 0 then Find(c.table.locals, name.id) else |c.table.locals|;
    FormedOne([OP_FORCE]);
    FormedOne([OP_DUP]);
    FormedOne([OP_STOREENV, slot]);
    FormedConcat([OP_FORCE], [OP_DUP]);
    FormedConcat([OP_FORCE] + [OP_DUP], [OP_STOREENV, slot]);
    assert [OP_FORCE] + [OP_DUP] + [OP_STOREENV, slot] == [OP_FORCE, OP_DUP, OP_STOREENV, slot];
    FormedConcat(c.bytes, [OP_FORCE, OP_DUP, OP_STOREENV, slot]);
  }

  lemma {:induction false} IfFormed(env: CompileEnv, t: Table, td: nat, e: Ray)
    requires ValidEnv(env) && |t.locals| <= MAX_LOCALS && Comp(env, t, td, e).Code? && Classify(env, e).If?
    ensures Formed(Comp(env, t, td, e).bytes) && |Comp(env, t, td, e).table.locals| <= MAX_LOCALS
    decreases Size(e), 0, 0
  {
    var If(c, a, b) := Classify(env, e);
    var cc := Comp(env, t, td, c);
    CompFormed(env, t, td, c);
    var ca := Comp(env, cc.table, td, a);
    CompFormed(env, cc.table, td, a);
    var cb := if b.Some? then Comp(env, ca.table, td, b.value) else LoadConst(ca.table, I64(0));
    if b.Some? { CompFormed(env, ca.table, td, b.value); } else { FormedIndex(OP_LOADCONST, OP_LOADCONST_W, AddConst(ca.table, I64(0)).1); }
    ArmsFormed(cc.bytes, ca.bytes, cb.bytes);
  }

  lemma ArmsFormed(bc: seq<nat>, ba: seq<nat>, bb: seq<nat>)
    requires Formed(bc) && Formed(ba) && Formed(bb) && |ba| + 3 <= MAX_JUMP && |bb| <= MAX_JUMP
    ensures Formed(bc + (Jump(OP_JMPF, |ba| + 3) + (ba + (Jump(OP_JMP, |bb|) + bb))))
  {
    var rest := Jump(OP_JMP, |bb|) + bb;
    assert bb[..|bb|] == bb;
    FormedJump(OP_JMP, |bb|, bb);
    FormedConcat(ba, rest);
    assert rest[..3] == Jump(OP_JMP, |bb|);
    assert Jump(OP_JMP, |bb|)[3..] == [];
    assert Boundary(rest, 3);
    BoundaryRight(ba, rest, 3);
    FormedJump(OP_JMPF, |ba| + 3, ba + rest);
    FormedConcat(bc, Jump(OP_JMPF, |ba| + 3) + (ba + rest));
  }

  lemma {:induction false} TryFormed(env: CompileEnv, t: Table, td: nat, e: Ray)
    requires ValidEnv(env) && |t.locals| <= MAX_LOCALS && Comp(env, t, td, e).Code? && Classify(env, e).Try?
    ensures Formed(Comp(env, t, td, e).bytes) && |Comp(env, t, td, e).table.locals| <= MAX_LOCALS
    decreases Size(e), 0, 0
  {
    var Try(b, h) := Classify(env, e);
    var t0 := t.(locals := t.locals + [HIDDEN]);
    var cb := Comp(env, t0, td + 1, b);
    CompFormed(env, t0, td + 1, b);
    CompFormed(env, cb.table, td, h);
    GuardFormed(|t.locals|, cb.bytes, Comp(env, cb.table, td, h).bytes);
  }

  lemma HandlerFormed(slot: nat, bh: seq<nat>)
    requires slot < 256 && Formed(bh)
    ensures Formed([OP_STOREENV, slot] + (bh + [OP_LOADENV, slot, OP_TRYH]))
  {
    FormedOne([OP_STOREENV, slot]);
    FormedOne([OP_LOADENV, slot]);
    FormedOne([OP_TRYH]);
    FormedConcat([OP_LOADENV, slot], [OP_TRYH]);
    assert [OP_LOADENV, slot] + [OP_TRYH] == [OP_LOADENV, slot, OP_TRYH];
    FormedConcat(bh, [OP_LOADENV, slot, OP_TRYH]);
    FormedConcat([OP_STOREENV, slot], bh + [OP_LOADENV, slot, OP_TRYH]);
  }

  /** The handler begins behind the end of the trap and the jump over it. */
  lemma SkipsToHandler(len: nat, handler: seq<nat>)
    ensures Boundary([OP_TRAP_END] + (Jump(OP_JMP, len) + handler), 4)
  {
    var rest := [OP_TRAP_END] + (Jump(OP_JMP, len) + handler);
    assert rest[..4] == [OP_TRAP_END] + Jump(OP_JMP, len);
    JumpWhole(OP_JMP, len);
    assert [OP_TRAP_END][1..] == [];
    WholeConcat([OP_TRAP_END], Jump(OP_JMP, len));
  }

  lemma GuardFormed(slot: nat, bb: seq<nat>, bh: seq<nat>)
    requires slot < 256 && Formed(bb) && Formed(bh) && |bb| + 4 <= MAX_JUMP && |bh| + 5 <= MAX_JUMP
    ensures Formed(Jump(OP_TRAP, |bb| + 4)
                   + (bb + ([OP_TRAP_END] + (Jump(OP_JMP, |bh| + 5)
                   + ([OP_STOREENV, slot] + (bh + [OP_LOADENV, slot, OP_TRYH]))))))
  {
    HandlerFormed(slot, bh);
    var handler := [OP_STOREENV, slot] + (bh + [OP_LOADENV, slot, OP_TRYH]);
    var rest := [OP_TRAP_END] + (Jump(OP_JMP, |bh| + 5) + handler);
    SkipsToHandler(|bh| + 5, handler);
    FormedOne([OP_TRAP_END]);
    assert handler[..|handler|] == handler;
    FormedJump(OP_JMP, |bh| + 5, handler);
    FormedConcat([OP_TRAP_END], Jump(OP_JMP, |bh| + 5) + handler);
    FormedConcat(bb, rest);
    BoundaryRight(bb, rest, 4);
    FormedJump(OP_TRAP, |bb| + 4, bb + rest);
  }

  lemma {:induction false} ReturnFormed(env: CompileEnv, t: Table, td: nat, e: Ray)
    requires ValidEnv(env) && |t.locals| <= MAX_LOCALS && Comp(env, t, td, e).Code? && Classify(env, e).Return?
    ensures Formed(Comp(env, t, td, e).bytes) && |Comp(env, t, td, e).table.locals| <= MAX_LOCALS
    decreases Size(e), 0, 0
  {
    var Return(r) := Classify(env, e);
    var c := if r.Some? then Comp(env, t, td, r.value) else LoadConst(t, Null);
    if r.Some? { CompFormed(env, t, td, r.value); } else { FormedIndex(OP_LOADCONST, OP_LOADCONST_W, AddConst(t, Null).1); }
    RepeatFormed(td);
    FormedOne([OP_RET]);
    FormedConcat(Repeat(OP_TRAP_END, td), [OP_RET]);
    FormedConcat(c.bytes, Repeat(OP_TRAP_END, td) + [OP_RET]);
  }

  lemma {:induction false} RepeatFormed(n: nat)
    ensures Formed(Repeat(OP_TRAP_END, n))
  {
    if n > 0 {
      RepeatFormed(n - 1);
      FormedOne([OP_TRAP_END]);
      FormedConcat([OP_TRAP_END], Repeat(OP_TRAP_END, n - 1));
    }
  }

  lemma DynamicFormed(t: Table, e: Ray)
    ensures Formed(CompDynamic(t, e).bytes)
  {
    FormedIndex(OP_LOADCONST, OP_LOADCONST_W, AddConst(t, e).1);
    FormedOne([OP_CALLD, 0]);
    FormedConcat(WithIndex(OP_LOADCONST, OP_LOADCONST_W, AddConst(t, e).1), [OP_CALLD, 0]);
  }

  lemma SpecialFormed(t: Table, e: Ray)
    ensures Formed(CompSpecial(t, e).bytes) && CompSpecial(t, e).table.locals == t.locals
  {
    if !RefsLocals(Names(t.locals), e) {
      DynamicFormed(t, e);
    } else {
      var r := AddConst(t, I64Vec(t.locals));
      var names := WithIndex(OP_LOADCONST, OP_LOADCONST_W, r.1);
      var b := CompDynamic(r.0, e).bytes;
      DynamicFormed(r.0, e);
      FormedIndex(OP_LOADCONST, OP_LOADCONST_W, r.1);
      FormedOne([OP_SCOPE_BEGIN]);
      FormedOne([OP_SCOPE_END]);
      FormedConcat(names, [OP_SCOPE_END]);
      FormedConcat(b, names + [OP_SCOPE_END]);
      FormedConcat([OP_SCOPE_BEGIN], b + (names + [OP_SCOPE_END]));
      FormedConcat(names, [OP_SCOPE_BEGIN] + (b + (names + [OP_SCOPE_END])));
    }
  }

  lemma {:induction false} CallFormed(env: CompileEnv, t: Table, td: nat, e: Ray)
    requires ValidEnv(env) && |t.locals| <= MAX_LOCALS && Comp(env, t, td, e).Code? && Classify(env, e).Call?
    ensures Formed(Comp(env, t, td, e).bytes) && |Comp(env, t, td, e).table.locals| <= MAX_LOCALS
    decreases Size(e), 0, 0
  {
    hide Boundary, Lands;
    var Call(head, callee, args) := Classify(env, e);
    var ch := if callee.Some? then LoadConst(t, callee.value) else Comp(env, t, td, head);
    if callee.Some? { FormedIndex(OP_LOADCONST, OP_LOADCONST_W, AddConst(t, callee.value).1); } else { CompFormed(env, t, td, head); }
    var ca := CompArgs(env, ch.table, td, args);
    CompArgsFormed(env, ch.table, td, args);
    FormedOne(CallOp(callee, |args|));
    FormedConcat(ca.bytes, CallOp(callee, |args|));
    FormedConcat(ch.bytes, ca.bytes + CallOp(callee, |args|));
  }

  lemma {:induction false} CompSeqFormed(env: CompileEnv, t: Table, td: nat, es: seq<Ray>)
    requires ValidEnv(env) && |t.locals| <= MAX_LOCALS && es != [] && CompSeq(env, t, td, es).Code?
    ensures Formed(CompSeq(env, t, td, es).bytes) && |CompSeq(env, t, td, es).table.locals| <= MAX_LOCALS
    decreases SizeAll(es), 1, |es|
  {
    CompFormed(env, t, td, es[0]);
    if |es| > 1 {
      var c := Comp(env, t, td, es[0]);
      CompSeqFormed(env, c.table, td, es[1..]);
      var rest := CompSeq(env, c.table, td, es[1..]).bytes;
      FormedOne([OP_POP]);
      FormedConcat([OP_POP], rest);
      FormedConcat(c.bytes, [OP_POP] + rest);
    }
  }

  lemma {:induction false} CompArgsFormed(env: CompileEnv, t: Table, td: nat, es: seq<Ray>)
    requires ValidEnv(env) && |t.locals| <= MAX_LOCALS && CompArgs(env, t, td, es).Code?
    ensures Formed(CompArgs(env, t, td, es).bytes) && |CompArgs(env, t, td, es).table.locals| <= MAX_LOCALS
    decreases SizeAll(es), 1, |es|
  {
    if es != [] {
      CompFormed(env, t, td, es[0]);
      var c := Comp(env, t, td, es[0]);
      CompArgsFormed(env, c.table, td, es[1..]);
      FormedConcat(c.bytes, CompArgs(env, c.table, td, es[1..]).bytes);
    }
  }

  /** The instruction at i is complete and, if it jumps, jumps to an instruction of the code. */
  ghost predicate Intact(code: seq<nat>, i: nat) {
    i < |code| ==>
      && i + Width(code[i]) <= |code|
      && (IsJump(code[i]) ==> var j := i + 3 + ReadOffset(code, i + 1); Boundary(code, j) && j < |code|)
  }

  lemma IntactBody(b: seq<nat>, i: nat)
    requires Formed(b) && Boundary(b + [OP_RET], i)
    ensures Intact(b + [OP_RET], i)
  {
    if i < |b| {
      BoundaryLeft(b, [OP_RET], i);
      WholeInside(b, i);
      assert LandsAt(b, i);
      if IsJump(b[i]) {
        BoundaryLeft(b, [OP_RET], i + 3 + ReadOffset(b, i + 1));
      }
    }
  }

  /** Every emitted value is a byte, the code is a sequence of complete instructions
      ending in RET, and every patched jump lands on an instruction inside the code. */
  lemma CompiledCodeIsFormed(env: CompileEnv, params: seq<nat>, body: seq<Ray>)
    requires ValidEnv(env) && CompileLambda(env, params, body).Some?
    ensures var p := CompileLambda(env, params, body).value;
      && p.nlocals <= MAX_LOCALS && Whole(p.code) && (forall i :: 0 <= i < |p.code| ==> p.code[i] < 256)
      && p.code != [] && Boundary(p.code, |p.code| - 1) && p.code[|p.code| - 1] == OP_RET
      && forall i: nat :: Boundary(p.code, i) ==> Intact(p.code, i)
  {
    hide Comp, CompSeq;
    var p := CompileLambda(env, params, body).value;
    var b := if body == [] then [] else CompSeq(env, Table([], params), 0, body).bytes;
    if body != [] { CompSeqFormed(env, Table([], params), 0, body); }
    assert p.code == b + [OP_RET];
    FormedOne([OP_RET]);
    FormedConcat(b, [OP_RET]);
    assert p.code[..|b|] == b;
    forall i: nat | Boundary(p.code, i) ensures Intact(p.code, i) {
      IntactBody(b, i);
    }
  }
}
