/** What each form compiles to, from the list it is written as to the bytes, and when it does not
    compile. */
module RayfallBytes {
  import opened Wrappers
  import opened RayfallSyntax
  import opened RayfallCompile
  import opened RayfallMachine
  import opened RayfallEval
  import opened RayfallForms

  /** A jump of n bytes. */
  function Far(op: nat, n: nat): seq<nat> { [op, n / 256, n % 256] }

  lemma JumpIsFar(op: nat, n: nat)
    requires n <= 32767
    ensures Jump(op, n) == Far(op, n)
  {
  }

  /** (if c a b): c, a jump over a and the next jump if it is false, a, a jump over b, b.  It does not
      compile if a jump is longer than 32767 bytes. */
  lemma IfCompiles(env: CompileEnv, t: Table, td: nat, c: Ray, a: Ray, b: Ray, more: seq<Ray>)
    requires ValidEnv(env)
    ensures var r := Comp(env, t, td, List([Name0(SF_IF), c, a, b] + more)); var rc := Comp(env, t, td, c);
      if rc.Failed? then r.Failed? else (
        var ra := Comp(env, rc.table, td, a);
        if ra.Failed? then r.Failed? else (
          var rb := Comp(env, ra.table, td, b);
          if rb.Failed? || |ra.bytes| > 32764 || |rb.bytes| > 32767 then r.Failed?
          else r == Code(rc.bytes + Far(2, |ra.bytes| + 3) + ra.bytes + Far(1, |rb.bytes|) + rb.bytes, rb.table)))
  {
    hide Comp, Jump, Far;
    var e := List([Name0(SF_IF), c, a, b] + more);
    assert Classify(env, e) == If(c, a, Some(b));
    CompIs(env, t, td, e);
    var rc := Comp(env, t, td, c);
    if rc.Code? {
      var ra := Comp(env, rc.table, td, a);
      if ra.Code? {
        var rb := Comp(env, ra.table, td, b);
        if rb.Code? && |ra.bytes| <= 32764 && |rb.bytes| <= 32767 {
          JumpIsFar(2, |ra.bytes| + 3);
          JumpIsFar(1, |rb.bytes|);
          Five(rc.bytes, Far(2, |ra.bytes| + 3), ra.bytes, Far(1, |rb.bytes|), rb.bytes);
        }
      }
    }
  }

  lemma Five(a: seq<nat>, b: seq<nat>, c: seq<nat>, d: seq<nat>, e: seq<nat>)
    ensures a + (b + (c + (d + e))) == a + b + c + d + e
  {
  }

  /** The last entry of x is k. */
  ghost predicate LastAt(locals: seq<int>, x: int, k: nat) {
    k < |locals| && locals[k] == x && forall j :: k < j < |locals| ==> locals[j] != x
  }

  lemma {:induction false} SlotIsLast(locals: seq<int>, x: int)
    ensures if x in locals then Find(locals, x) >= 0 && LastAt(locals, x, Find(locals, x)) else Find(locals, x) == -1
    decreases |locals|
  {
    if locals != [] {
      var n := |locals| - 1;
      assert locals == locals[..n] + [locals[n]];
      if locals[n] != x { SlotIsLast(locals[..n], x); }
    }
  }

  /** (let x v): v, then FORCE, DUP and STOREENV to the slot of x: the last it has, or a new one, of
      which there are 256.  A reserved name is not compiled. */
  lemma LetCompiles(env: CompileEnv, t: Table, td: nat, x: nat, quoted: bool, v: Ray)
    requires ValidEnv(env)
    ensures var r := Comp(env, t, td, List([Name0(SF_LET), Symbol(x, quoted), v])); var rv := Comp(env, t, td, v);
      if rv.Failed? || x in env.reserved then r.Failed?
      else if x in rv.table.locals then
        exists k: nat :: LastAt(rv.table.locals, x, k) && r == Code(rv.bytes + [24, 14, 5, k], rv.table)
      else if |rv.table.locals| >= 256 then r.Failed?
      else r == Code(rv.bytes + [24, 14, 5, |rv.table.locals|], Table(rv.table.consts, rv.table.locals + [x]))
  {
    hide Comp, Find;
    var e := List([Name0(SF_LET), Symbol(x, quoted), v]);
    assert Classify(env, e) == Let(Symbol(x, quoted), v);
    CompIs(env, t, td, e);
    var rv := Comp(env, t, td, v);
    if rv.Code? { SlotIsLast(rv.table.locals, x); }
  }

  /** Bytes of a constant's index, behind the short or the wide opcode. */
  function Indexed(short: nat, wide: nat, k: nat): seq<nat> {
    if k < 256 then [short, k] else [wide, k / 256 % 256, k % 256]
  }

  /** (set x v): v, then STOREGLOBAL with the name's place in the pool. */
  lemma SetCompiles(env: CompileEnv, t: Table, td: nat, x: nat, quoted: bool, v: Ray)
    requires ValidEnv(env)
    ensures var r := Comp(env, t, td, List([Name0(SF_SET), Symbol(x, quoted), v])); var rv := Comp(env, t, td, v);
      if rv.Failed? then r.Failed?
      else exists k: nat {:trigger Indexed(19, 20, k)} ::
        && r.Code? && r.bytes == rv.bytes + Indexed(19, 20, k) && k < |r.table.consts| && r.table.consts[k] == Symbol(x, quoted)
        && rv.table.consts <= r.table.consts && r.table.locals == rv.table.locals
  {
    hide Comp, Find;
    var e, name := List([Name0(SF_SET), Symbol(x, quoted), v]), Symbol(x, quoted);
    assert Classify(env, e) == Set(name, v);
    CompIs(env, t, td, e);
    var rv := Comp(env, t, td, v);
    if rv.Code? {
      var k := AddConst(rv.table, name).1;
      assert WithIndex(19, 20, k) == Indexed(19, 20, k);
    }
  }

  /** (do e ...): the expressions with a POP between them. */
  lemma DoCompiles(env: CompileEnv, t: Table, td: nat, e: Ray, more: seq<Ray>)
    requires ValidEnv(env)
    ensures var r := Comp(env, t, td, List([Name0(SF_DO), e] + more)); var re := Comp(env, t, td, e);
      if re.Failed? || more == [] then r == re else (
        var rm := Comp(env, re.table, td, List([Name0(SF_DO)] + more));
        if rm.Failed? then r.Failed? else r == Code(re.bytes + [6] + rm.bytes, rm.table))
  {
    hide Comp;
    var all, rest, es := List([Name0(SF_DO), e] + more), List([Name0(SF_DO)] + more), [e] + more;
    DoForm(env, es);
    assert [Name0(SF_DO)] + es == [Name0(SF_DO), e] + more;
    assert es[1..] == more;
    CompIs(env, t, td, all);
    var re := Comp(env, t, td, e);
    if re.Code? && more != [] {
      DoForm(env, more);
      CompIs(env, re.table, td, rest);
      var rm := Comp(env, re.table, td, rest);
      if rm.Code? { assert re.bytes + ([6] + rm.bytes) == re.bytes + [6] + rm.bytes; }
    }
  }

  /** (return v) and (return): the value or null, one TRAP_END for each open trap, RET. */
  lemma ReturnCompiles(env: CompileEnv, t: Table, td: nat, v: Ray)
    requires ValidEnv(env)
    ensures var r := Comp(env, t, td, List([Name0(SF_RETURN), v])); var rv := Comp(env, t, td, v);
      if rv.Failed? then r.Failed? else r == Code(rv.bytes + Repeat(18, td) + [0], rv.table)
    ensures var n := LoadConst(t, Null); Comp(env, t, td, List([Name0(SF_RETURN)])) == Code(n.bytes + Repeat(18, td) + [0], n.table)
  {
    hide Comp, LoadConst;
    var e, f := List([Name0(SF_RETURN), v]), List([Name0(SF_RETURN)]);
    assert Classify(env, e) == Return(Some(v)) && Classify(env, f) == Return(None);
    CompIs(env, t, td, e);
    CompIs(env, t, td, f);
    var rv, n := Comp(env, t, td, v), LoadConst(t, Null);
    assert n.Code? by { ConstantLoads(t, Null); }
    Three(n.bytes, Repeat(18, td), [0]);
    if rv.Code? { Three(rv.bytes, Repeat(18, td), [0]); }
  }

  lemma Three(a: seq<nat>, b: seq<nat>, c: seq<nat>)
    ensures a + (b + c) == a + b + c
  {
  }

  /** A constant is loaded from where it, or one it is taken for, stands in the pool. */
  lemma ConstantLoads(t: Table, x: Ray)
    ensures LoadConst(t, x).Code? && LoadConst(t, x).table.locals == t.locals
    ensures var r := LoadConst(t, x);
      exists k: nat {:trigger Indexed(3, 15, k)} ::
        && k < |r.table.consts| && r.bytes == Indexed(3, 15, k) && (r.table.consts[k] == x || Reuses(r.table.consts[k], x))
        && (if k < |t.consts| then r.table == t else k == |t.consts| && r.table.consts == t.consts + [x])
  {
    var k := AddConst(t, x).1;
    assert WithIndex(3, 15, k) == Indexed(3, 15, k);
  }

  /** (try b hd): TRAP over b, b, TRAP_END, a jump over the handler's part: the error to a slot of its
      own, the handler, the error again, TRYH. */
  lemma TryCompiles(env: CompileEnv, t: Table, td: nat, b: Ray, hd: Ray)
    requires ValidEnv(env)
    ensures var r := Comp(env, t, td, List([Name0(SF_TRY), b, hd])); var k := |t.locals|;
      if k >= 256 then r.Failed? else (
        var rb := Comp(env, Table(t.consts, t.locals + [HIDDEN]), td + 1, b);
        if rb.Failed? then r.Failed? else (
          var rh := Comp(env, rb.table, td, hd);
          if rh.Failed? || |rb.bytes| > 32763 || |rh.bytes| > 32762 then r.Failed?
          else r == Code(Far(17, |rb.bytes| + 4) + rb.bytes + ([18] + Far(1, |rh.bytes| + 5)) + [5, k] + (rh.bytes + [4, k, 23]),
                         rh.table)))
  {
    hide Comp, Jump, Far;
    var e := List([Name0(SF_TRY), b, hd]);
    assert Classify(env, e) == Try(b, hd);
    CompIs(env, t, td, e);
    if |t.locals| < 256 {
      assert t.(locals := t.locals + [HIDDEN]) == Table(t.consts, t.locals + [HIDDEN]);
      var rb := Comp(env, Table(t.consts, t.locals + [HIDDEN]), td + 1, b);
      if rb.Code? {
        var rh := Comp(env, rb.table, td, hd);
        if rh.Code? && |rb.bytes| <= 32763 && |rh.bytes| <= 32762 {
          JumpIsFar(17, |rb.bytes| + 4);
          JumpIsFar(1, |rh.bytes| + 5);
          TryPieces(Far(17, |rb.bytes| + 4), rb.bytes, Far(1, |rh.bytes| + 5), rh.bytes, |t.locals|);
        }
      }
    }
  }

  lemma TryPieces(a: seq<nat>, b: seq<nat>, j: seq<nat>, h: seq<nat>, k: nat)
    ensures a + (b + ([18] + (j + ([5, k] + (h + [4, k, 23]))))) == a + b + ([18] + j) + [5, k] + (h + [4, k, 23])
  {
  }

  /** (self args ...): the arguments, CALLS and their number, at most 64. */
  lemma SelfCompiles(env: CompileEnv, t: Table, td: nat, args: seq<Ray>)
    requires ValidEnv(env)
    ensures var r := Comp(env, t, td, List([Name0(SF_SELF)] + args)); var ra := CompArgs(env, t, td, args);
      if |args| > 64 || ra.Failed? then r.Failed? else r == Code(ra.bytes + [12, |args|], ra.table)
  {
    hide Comp, CompArgs;
    var e := List([Name0(SF_SELF)] + args);
    assert ([Name0(SF_SELF)] + args)[1..] == args;
    assert Classify(env, e) == Self(args);
    CompIs(env, t, td, e);
  }

  /** (head args ...): the head or, if it names a built-in, that as a constant; the arguments; and the
      opcode: 8 and 9 for a built-in of one and two arguments with as many, 10 for one of any number,
      11 for everything else.  There are at most 64 arguments. */
  lemma CallCompiles(env: CompileEnv, t: Table, td: nat, head: Ray, args: seq<Ray>)
    requires ValidEnv(env) && Ordinary(env, head, args)
    ensures var r := Comp(env, t, td, List([head] + args));
      var known := head.Symbol? && !head.quoted && head.id in env.fns && env.fns[head.id].Builtin?;
      var first := if known then LoadConst(t, env.fns[head.id]) else Comp(env, t, td, head);
      if first.Failed? || |args| > 64 then r.Failed? else (
        var rest := CompArgs(env, first.table, td, args);
        var arity := if known then Some(env.fns[head.id].arity) else None;
        if rest.Failed? then r.Failed?
        else r == Code(first.bytes + rest.bytes +
          (if arity == Some(Unary) && |args| == 1 then [8]
           else if arity == Some(Binary) && |args| == 2 then [9]
           else if arity == Some(Vary) then [10, |args|]
           else [11, |args|]), rest.table))
  {
    hide Comp, CompArgs, LoadConst;
    OrdinaryForm(env, head, args);
    CompIs(env, t, td, List([head] + args));
  }

  /** A name: its slot if it is local, or else the name, to be resolved. */
  lemma NameCompiles(env: CompileEnv, t: Table, td: nat, x: nat)
    requires ValidEnv(env) && x != SF_NULL
    ensures var r := Comp(env, t, td, Name0(x));
      if x in t.locals then exists k: nat :: LastAt(t.locals, x, k) && r == Code([4, k], t)
      else exists k: nat {:trigger Indexed(7, 16, k)} ::
        && r.Code? && r.bytes == Indexed(7, 16, k) && k < |r.table.consts| && r.table.consts[k] == Name0(x)
        && t.consts <= r.table.consts && r.table.locals == t.locals
  {
    hide Find;
    SlotIsLast(t.locals, x);
    var k := AddConst(t, Name0(x)).1;
    assert WithIndex(7, 16, k) == Indexed(7, 16, k);
  }

  /** A lambda: its body, if any, with a POP between the expressions, and RET.  It does not compile
      with more than 256 parameters. */
  lemma LambdaCompiles(env: CompileEnv, params: seq<nat>, e: Ray, more: seq<Ray>)
    requires ValidEnv(env)
    ensures var r := CompileLambda(env, params, [e] + more); var b := Comp(env, Table([], params), 0, List([Name0(SF_DO), e] + more));
      if |params| > 256 || b.Failed? then r == None
      else r == Some(Program(b.bytes + [0], b.table.consts, |b.table.locals|))
    ensures CompileLambda(env, params, []) == if |params| > 256 then None else Some(Program([0], [], |params|))
  {
    hide Comp;
    var es := [e] + more;
    assert [Name0(SF_DO)] + es == [Name0(SF_DO), e] + more;
    DoForm(env, es);
    CompIs(env, Table([], params), 0, List([Name0(SF_DO), e] + more));
  }
}
