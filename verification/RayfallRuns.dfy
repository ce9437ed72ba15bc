/** Whole runs of the machine: every frame on the return stack is at a point of a disciplined
    path of its own code, and the stack and the traps are partitioned by frame. */
module RayfallRuns {
  import opened Wrappers
  import opened RayfallSyntax
  import opened RayfallCompile
  import opened RayfallCode
  import opened RayfallMachine
  import opened RayfallStack
  import opened RayfallSound

  /** A frame: its code, where its slots begin, the point it is at or will go on from, and the
      number of traps armed below it. */
  datatype Frame = Frame(fn: Program, fp: nat, at: Point, base: nat)

  ghost predicate OnPath(p: Program, s: Point) {
    forall k: nat :: Keeps(p, k, s)
  }

  /** The traps of frame i are the ones armed at its point. */
  ghost predicate Traps(m: Vm, f: Frame, i: nat) {
    forall j :: 0 <= j < |f.at.armed| ==>
      f.base + j < |m.ts| &&
      m.ts[f.base + j] == Trap(i, f.fp + f.fn.nlocals + f.at.armed[j].depth, f.at.armed[j].ip, f.fn, f.fp)
  }

  /** A frame's operands, up to the frame above it. */
  ghost predicate Operands(m: Vm, f: Frame, top: nat) {
    forall j :: f.fp + f.fn.nlocals <= j < top ==> j < |m.ps| && m.ps[j].Full?
  }

  /** Frame f waits, at position i, for the result of frame g above it. */
  ghost predicate Waits(m: Vm, f: Frame, g: Frame, i: nat) {
    && i < |m.rs| && m.rs[i].fp == f.fp && m.rs[i].ip == f.at.ip
    && (if m.rs[i].fn.Some? then m.rs[i].fn.value else g.fn) == f.fn
    && Innermost(f.at.armed) < f.at.depth && g.fp == f.fp + f.fn.nlocals + f.at.depth - 1
    && g.base == f.base + |f.at.armed|
    && Operands(m, f, g.fp) && Traps(m, f, i)
  }

  /** The frame that runs. */
  ghost predicate Current(m: Vm, f: Frame) {
    f.fn == m.fn && f.fp == m.fp && Matches(m, f.at, f.base)
  }

  ghost predicate Stacked(m: Vm, fs: seq<Frame>) {
    && |fs| == |m.rs| + 1 && fs[0].base == 0 && Current(m, fs[|m.rs|])
    && (forall i :: 0 <= i < |fs| ==> OnPath(fs[i].fn, fs[i].at))
    && (forall i: nat :: i < |m.rs| ==> Waits(m, fs[i], fs[i + 1], i))
  }

  lemma PathGoesOn(p: Program, s: Point)
    requires OnPath(p, s)
    ensures Runs(p, 0, s)
    ensures Then(p, s).Some? ==> OnPath(p, Then(p, s).value)
    ensures Else(p, s).Some? ==> OnPath(p, Else(p, s).value)
    ensures s.armed != [] ==> OnPath(p, ToHandler(s))
  {
    assert Keeps(p, 1, s);
    if Then(p, s).Some? {
      forall k: nat ensures Keeps(p, k, Then(p, s).value) { assert Keeps(p, k + 1, s); }
    }
    if Else(p, s).Some? {
      forall k: nat ensures Keeps(p, k, Else(p, s).value) { assert Keeps(p, k + 1, s); }
    }
    if s.armed != [] {
      forall k: nat ensures Keeps(p, k, ToHandler(s)) { assert Keeps(p, k + 1, s); }
    }
  }

  /** Frames lie one above the other. */
  lemma {:induction false} FramesRise(m: Vm, fs: seq<Frame>, i: nat, j: nat)
    requires Stacked(m, fs) && i <= j < |fs|
    ensures fs[i].fp <= fs[j].fp <= |m.ps| && fs[i].base <= fs[j].base <= |m.ts|
    ensures i < j ==> fs[i].fp + fs[i].fn.nlocals + fs[i].at.depth <= fs[j].fp + 1
    decreases |fs| - i
  {
    if i == j {
      if j < |m.rs| { FramesRise(m, fs, j + 1, |m.rs|); assert Waits(m, fs[j], fs[j + 1], j); }
    } else {
      assert Waits(m, fs[i], fs[i + 1], i);
      FramesRise(m, fs, i + 1, j);
    }
  }

  // ---------- waiting frames do not notice ----------

  /** What a waiting frame has on the stacks is there in d as well. */
  lemma StillWaits(m: Vm, d: Vm, f: Frame, g: Frame, g': Frame, i: nat)
    requires Waits(m, f, g, i) && g'.fn == g.fn && g'.fp == g.fp && g'.base == g.base
    requires i < |d.rs| && d.rs[i] == m.rs[i] && g.fp <= |d.ps| && g.base <= |d.ts| && g.fp <= |m.ps|
    requires g.base <= |m.ts|
    requires forall j :: 0 <= j < g.fp ==> d.ps[j] == m.ps[j]
    requires forall j :: 0 <= j < g.base ==> d.ts[j] == m.ts[j]
    ensures Waits(d, f, g', i)
  {
  }

  /** The frames below n wait as before, if what is below frame n is untouched. */
  lemma BelowWaits(m: Vm, d: Vm, fs: seq<Frame>, gs: seq<Frame>, n: nat)
    requires Stacked(m, fs) && n < |fs| && n < |gs| && n <= |d.rs|
    requires (forall i :: 0 <= i < n ==> gs[i] == fs[i] && d.rs[i] == m.rs[i])
    requires gs[n].fn == fs[n].fn && gs[n].fp == fs[n].fp && gs[n].base == fs[n].base
    requires fs[n].fp <= |d.ps| && fs[n].base <= |d.ts| && fs[n].fp <= |m.ps| && fs[n].base <= |m.ts|
    requires forall j :: 0 <= j < fs[n].fp ==> d.ps[j] == m.ps[j]
    requires forall j :: 0 <= j < fs[n].base ==> d.ts[j] == m.ts[j]
    ensures forall i: nat :: i < n ==> Waits(d, gs[i], gs[i + 1], i)
  {
    hide Waits;
    forall i: nat | i < n ensures Waits(d, gs[i], gs[i + 1], i) {
      assert Waits(m, fs[i], fs[i + 1], i);
      FramesRise(m, fs, i + 1, n);
      StillWaits(m, d, fs[i], fs[i + 1], gs[i + 1], i);
    }
  }

  // ---------- the four ways a step goes ----------

  /** The current frame goes on at another point of its path. */
  lemma InFrame(m: Vm, fs: seq<Frame>, d: Vm, r: Point) returns (gs: seq<Frame>)
    requires Stacked(m, fs) && SameFrame(m, d) && Beneath(m, d) && Outer(m, d, fs[|m.rs|].base)
    requires OnPath(m.fn, r) && Matches(d, r, fs[|m.rs|].base)
    ensures Stacked(d, gs)
  {
    hide OnPath, Waits, Matches;
    var n := |m.rs|;
    gs := fs[n := fs[n].(at := r)];
    BelowWaits(m, d, fs, gs, n);
  }

  /** A callee is entered. */
  lemma Entered(m: Vm, fs: seq<Frame>, d: Vm) returns (gs: seq<Frame>)
    requires Stacked(m, fs) && Runs(m.fn, 0, fs[|m.rs|].at) && Calls(m, fs[|m.rs|].at, d)
    requires var t := Then(m.fn, fs[|m.rs|].at).value;
      t.armed == fs[|m.rs|].at.armed && Innermost(t.armed) < t.depth && OnPath(m.fn, t)
    requires |d.ps| >= d.fp + d.fn.nlocals && (forall j :: d.fp + d.fn.nlocals <= j < |d.ps| ==> d.ps[j].Full?)
    requires Disciplined(d.fn)
    ensures Stacked(d, gs)
  {
    hide OnPath, Runs, Disciplined, Then;
    var n, f := |m.rs|, fs[|m.rs|];
    var t := Then(m.fn, f.at).value;
    var spare := |d.ps| - d.fp - d.fn.nlocals;
    var top := Frame(d.fn, d.fp, Point(0, spare, []), |m.ts|);
    gs := fs[n := f.(at := t)] + [top];
    EntryOnPath(d.fn, spare);
    SamePrefix(m, d);
    CallerWaits(m, d, f, t, top);
    BelowWaits(m, d, fs, gs, n);
    assert Current(d, top);
  }

  lemma SamePrefix(m: Vm, d: Vm)
    requires d.fp <= |d.ps| && d.fp <= |m.ps| && d.ps[..d.fp] == m.ps[..d.fp] && |d.rs| == |m.rs| + 1
    requires d.rs[..|m.rs|] == m.rs
    ensures forall j :: 0 <= j < d.fp ==> d.ps[j] == m.ps[j]
    ensures forall j :: 0 <= j < |m.rs| ==> d.rs[j] == m.rs[j]
  {
    forall j | 0 <= j < d.fp ensures d.ps[j] == m.ps[j] { assert d.ps[..d.fp][j] == m.ps[..d.fp][j]; }
    forall j | 0 <= j < |m.rs| ensures d.rs[j] == m.rs[j] { assert d.rs[..|m.rs|][j] == m.rs[j]; }
  }

  lemma EntryOnPath(p: Program, spare: nat)
    requires Disciplined(p)
    ensures OnPath(p, Point(0, spare, []))
  {
    assert Raise(Point(0, 0, []), spare) == Point(0, spare, []);
    forall k: nat ensures Keeps(p, k, Point(0, spare, [])) { KeepsRaised(p, k, Point(0, 0, []), spare); }
  }

  lemma CallerWaits(m: Vm, d: Vm, f: Frame, t: Point, top: Frame)
    requires Current(m, f) && Runs(m.fn, 0, f.at) && Calls(m, f.at, d) && Then(m.fn, f.at) == Some(t)
    requires t.armed == f.at.armed && Innermost(t.armed) < t.depth
    requires top.fn == d.fn && top.fp == d.fp && top.base == |m.ts|
    requires forall j :: 0 <= j < d.fp ==> d.ps[j] == m.ps[j]
    ensures Waits(d, f.(at := t), top, |m.rs|)
  {
    hide Runs, Then;
  }

  /** RET hands a value to the frame below. */
  lemma HandsBack(m: Vm, fs: seq<Frame>) returns (gs: seq<Frame>)
    requires Stacked(m, fs) && fs[|m.rs|].at.armed == [] && m.rs != []
    ensures DoReturn(m).Running? && Stacked(DoReturn(m).vm, gs)
  {
    hide OnPath;
    var n := |m.rs|;
    gs := fs[..n];
    var d := DoReturn(m).vm;
    assert Waits(m, fs[n - 1], fs[n], n - 1);
    CallerMatches(m, fs[n - 1], fs[n], n - 1);
    FramesRise(m, fs, n - 1, n);
    BelowWaits(m, d, fs, gs, n - 1);
  }

  lemma CallerMatches(m: Vm, f: Frame, g: Frame, i: nat)
    requires Waits(m, f, g, i) && Current(m, g) && g.at.armed == [] && |m.rs| == i + 1
    ensures DoReturn(m).Running? && Current(DoReturn(m).vm, f)
    ensures var d := DoReturn(m).vm; |d.rs| == i && (forall j :: 0 <= j < i ==> d.rs[j] == m.rs[j]) && d.ts == m.ts
    ensures var d := DoReturn(m).vm;
      g.fp <= |m.ps| && g.fp <= |d.ps| && forall j :: 0 <= j < g.fp ==> d.ps[j] == m.ps[j]
  {
    var d := DoReturn(m).vm;
    assert Armed(d, f.at.armed, f.base);
  }

  /** The frame whose trap is innermost, below a frame without any. */
  lemma {:induction false} Catcher(m: Vm, fs: seq<Frame>, n: nat) returns (i: nat)
    requires Stacked(m, fs) && n < |fs| && fs[n].base > 0
    ensures i < n && fs[i].at.armed != [] && fs[i].base + |fs[i].at.armed| == fs[n].base
    decreases n
  {
    hide OnPath;
    assert Waits(m, fs[n - 1], fs[n], n - 1);
    if fs[n - 1].at.armed != [] { i := n - 1; } else { i := Catcher(m, fs, n - 1); }
  }

  /** An uncaught failure ends in the handler of a frame further down. */
  lemma Uncaught(m: Vm, fs: seq<Frame>, u: Vm, f: Fault) returns (gs: seq<Frame>)
    requires Stacked(m, fs) && fs[|m.rs|].at.armed == [] && u.ts == m.ts && u.rs == m.rs && Beneath(m, u) && m.ts != []
    ensures Unwind(u, f).Running? && Stacked(Unwind(u, f).vm, gs)
  {
    hide OnPath;
    var n := |m.rs|;
    var i := Catcher(m, fs, n);
    var g, d := fs[i], Unwind(u, f).vm;
    assert Waits(m, g, fs[i + 1], i);
    FramesRise(m, fs, i + 1, n);
    PathGoesOn(g.fn, g.at);
    HandlerCurrent(m, u, f, g, fs[i + 1], i);
    gs := fs[..i] + [g.(at := ToHandler(g.at))];
    BelowWaits(m, d, fs, gs, i);
  }

  lemma HandlerCurrent(m: Vm, u: Vm, f: Fault, g: Frame, above: Frame, i: nat)
    requires Waits(m, g, above, i) && g.at.armed != [] && g.base + |g.at.armed| == |m.ts|
    requires u.ts == m.ts && u.rs == m.rs && Beneath(m, u) && above.fp <= m.fp
    ensures Unwind(u, f).Running?
    ensures var d := Unwind(u, f).vm;
      && Current(d, g.(at := ToHandler(g.at))) && |d.rs| == i && (forall j :: 0 <= j < i ==> d.rs[j] == m.rs[j])
      && g.fp <= |d.ps| && (forall j :: 0 <= j < g.fp ==> d.ps[j] == m.ps[j])
      && g.base <= |d.ts| && (forall j :: 0 <= j < g.base ==> d.ts[j] == m.ts[j])
  {
    var n, d := |g.at.armed| - 1, Unwind(u, f).vm;
    assert m.ts[g.base + n] == m.ts[|m.ts| - 1];
    assert Armed(d, g.at.armed[..n], g.base);
  }

  // ---------- every step ----------

  lemma FailedTraps(m: Vm, d: Vm)
    requires Fails(m, Running(d))
    ensures m.ts != [] && |d.ts| < |m.ts| && |d.rs| <= |m.rs|
  {
  }

  /** A step to a longer return stack enters a callee, and leaves the traps alone. */
  lemma OnlyCallsPush(m: Vm, s: Point, base: nat, d: Vm)
    requires Runs(m.fn, 0, s) && Follows(m, s, base, Running(d)) && |d.rs| > |m.rs|
    requires m.fn.code[s.ip] == OP_RET ==> |d.rs| <= |m.rs|
    ensures Calls(m, s, d)
  {
    hide Matches, Then, Else, Runs, Unwind;
    if Fails(m, Running(d)) { FailedTraps(m, d); }
  }

  /** The opcodes that enter a callee. */
  predicate IsCall(op: nat) { op in {OP_CALL1, OP_CALL2, OP_CALLN, OP_CALLF, OP_CALLS} }

  lemma ThenOfCall(p: Program, s: Point)
    requires Runs(p, 0, s) && IsCall(p.code[s.ip])
    ensures Then(p, s).Some? && Then(p, s).value.armed == s.armed && Innermost(s.armed) < Then(p, s).value.depth
  {
  }

  lemma OnlyCallsEnter(h: Host, env: CompileEnv, k: nat, m: Vm, d: Vm)
    requires ValidEnv(env) && Step(h, env, k, m) == Running(d) && |d.rs| > |m.rs|
    ensures 0 <= m.ip < |m.fn.code| && IsCall(m.fn.code[m.ip])
  {
    hide CompileLambda, CallFresh;
  }

  lemma CalleeFits(env: CompileEnv, f: Ray)
    requires ValidEnv(env) && f.Lambda? && CompileLambda(env, f.params, f.body).Some?
    ensures |f.params| <= CompileLambda(env, f.params, f.body).value.nlocals
  {
    if f.body != [] { CompSeqGrows(env, Table([], f.params), 0, f.body); }
  }

  /** A callee's frame has all its slots, and what is above them are operands. */
  lemma CallShape(h: Host, env: CompileEnv, m: Vm, n: int, d: Vm)
    requires ValidEnv(env) && DoCall(h, env, m, n) == Running(d) && |d.rs| > |m.rs|
    ensures |d.ps| == d.fp + d.fn.nlocals
  {
    var f := Top(m, n).value;
    if f.Lambda? && CompileLambda(env, f.params, f.body).Some? { CalleeFits(env, f); }
  }

  lemma SelfShape(m: Vm, n: int, d: Vm)
    requires DoCallSelf(m, n) == Running(d) && Args(m, n).Some?
    ensures |d.ps| >= d.fp + d.fn.nlocals && forall j :: d.fp + d.fn.nlocals <= j < |d.ps| ==> d.ps[j].Full?
  {
  }

  lemma EnteredShape(h: Host, env: CompileEnv, k: nat, m: Vm, s: Point, base: nat, d: Vm)
    requires ValidEnv(env) && Matches(m, s, base) && Runs(m.fn, 0, s) && Step(h, env, k, m) == Running(d)
    requires |d.rs| > |m.rs|
    ensures |d.ps| >= d.fp + d.fn.nlocals && forall j :: d.fp + d.fn.nlocals <= j < |d.ps| ==> d.ps[j].Full?
  {
    hide CompileLambda, CallFresh, DoCall, DoCallSelf, Args, Unwind;
    OnlyCallsEnter(h, env, k, m, d);
    StepExec(h, env, k, m);
    var op := m.fn.code[m.ip];
    var n := ReadIndex(m.fn.code, m.ip + 1, false);
    if op == OP_CALL1 { CallShape(h, env, m.(ip := m.ip + 1), 1, d); }
    else if op == OP_CALL2 { CallShape(h, env, m.(ip := m.ip + 1), 2, d); }
    else if op == OP_CALLS {
      OperandsFull(m, s, base, n);
      ArgsIgnoreIp(m, m.ip + 2, n);
      SelfShape(m.(ip := m.ip + 2), n, d);
    }
    else { CallShape(h, env, m.(ip := m.ip + 2), n, d); }
  }

  /** RET leaves the frame, with its traps closed. */
  lemma RetStep(h: Host, env: CompileEnv, k: nat, m: Vm)
    requires ValidEnv(env) && 0 <= m.ip < |m.fn.code| && m.fn.code[m.ip] == OP_RET
    ensures Step(h, env, k, m) == DoReturn(m)
    ensures DoReturn(m).Running? ==> |DoReturn(m).vm.rs| < |m.rs|
  {
  }

  lemma CurrentOf(m: Vm, fs: seq<Frame>)
    requires Stacked(m, fs)
    ensures |fs| == |m.rs| + 1 && fs[0].base == 0
    ensures var f := fs[|m.rs|];
      f.fn == m.fn && f.fp == m.fp && m.ip == f.at.ip && Matches(m, f.at, f.base) && OnPath(m.fn, f.at)
    ensures |m.ts| == fs[|m.rs|].base + |fs[|m.rs|].at.armed|
  {
  }

  /** Every step of the machine keeps every frame at a disciplined point: the one that runs goes
      on, enters a callee, hands a value back, or fails into the nearest handler, in whatever
      frame that is. */
  lemma StepKeeps(h: Host, env: CompileEnv, k: nat, m: Vm, fs: seq<Frame>, d: Vm) returns (gs: seq<Frame>)
    requires ValidEnv(env) && Stacked(m, fs) && Step(h, env, k, m) == Running(d)
    requires |d.rs| > |m.rs| ==> Disciplined(d.fn)
    ensures Stacked(d, gs)
  {
    hide OnPath, Stacked, Matches, Step, Disciplined, Runs, Then, Else, Unwind, DoReturn, Calls, Fails;
    CurrentOf(m, fs);
    var s, base := fs[|m.rs|].at, fs[|m.rs|].base;
    PathGoesOn(m.fn, s);
    AnyFollows(h, env, k, m, s, base);
    IpInside(m.fn, s);
    if m.fn.code[s.ip] == OP_RET { RetStep(h, env, k, m); }
    if |d.rs| > |m.rs| {
      gs := Enters(h, env, k, m, fs, d);
    } else if m.fn.code[s.ip] == OP_RET {
      NoTrapsAtRet(m.fn, s);
      gs := HandsBackHere(m, fs);
    } else if s.armed == [] && Fails(m, Running(d)) {
      gs := FailsHere(m, fs, d);
    } else {
      CallsPush(m, s, d);
      var r := GoesTo(m, s, base, d);
      gs := InFrame(m, fs, d, r);
    }
  }

  lemma IpInside(p: Program, s: Point)
    requires Runs(p, 0, s)
    ensures 0 <= s.ip < |p.code|
  {
  }

  lemma NoTrapsAtRet(p: Program, s: Point)
    requires Runs(p, 0, s) && p.code[s.ip] == OP_RET
    ensures s.armed == []
  {
  }

  lemma CallsPush(m: Vm, s: Point, d: Vm)
    requires Runs(m.fn, 0, s)
    ensures Calls(m, s, d) ==> |d.rs| > |m.rs|
  {
    hide Runs, Then;
  }

  lemma GoesTo(m: Vm, s: Point, base: nat, d: Vm) returns (r: Point)
    requires Runs(m.fn, 0, s) && Follows(m, s, base, Running(d)) && !Calls(m, s, d) && m.fn.code[s.ip] != OP_RET
    requires s.armed != [] || !Fails(m, Running(d))
    requires Then(m.fn, s).Some? ==> OnPath(m.fn, Then(m.fn, s).value)
    requires Else(m.fn, s).Some? ==> OnPath(m.fn, Else(m.fn, s).value)
    requires s.armed != [] ==> OnPath(m.fn, ToHandler(s))
    ensures SameFrame(m, d) && Beneath(m, d) && Outer(m, d, base) && OnPath(m.fn, r) && Matches(d, r, base)
  {
    hide OnPath, Matches, Runs, Then, Else, Calls, Fails;
    r := if Then(m.fn, s).Some? && Matches(d, Then(m.fn, s).value, base) then Then(m.fn, s).value
         else if Else(m.fn, s).Some? && Matches(d, Else(m.fn, s).value, base) then Else(m.fn, s).value
         else ToHandler(s);
  }

  lemma Enters(h: Host, env: CompileEnv, k: nat, m: Vm, fs: seq<Frame>, d: Vm) returns (gs: seq<Frame>)
    requires ValidEnv(env) && Stacked(m, fs) && Step(h, env, k, m) == Running(d) && |d.rs| > |m.rs| && Disciplined(d.fn)
    ensures Stacked(d, gs)
  {
    hide OnPath, Stacked, Matches, Step, Disciplined, Runs, Then, Else, Unwind;
    CurrentOf(m, fs);
    var s, base := fs[|m.rs|].at, fs[|m.rs|].base;
    PathGoesOn(m.fn, s);
    AnyFollows(h, env, k, m, s, base);
    OnlyCallsEnter(h, env, k, m, d);
    OnlyCallsPush(m, s, base, d);
    ThenOfCall(m.fn, s);
    EnteredShape(h, env, k, m, s, base, d);
    gs := Entered(m, fs, d);
  }

  lemma HandsBackHere(m: Vm, fs: seq<Frame>) returns (gs: seq<Frame>)
    requires Stacked(m, fs) && fs[|m.rs|].at.armed == [] && DoReturn(m).Running?
    ensures Stacked(DoReturn(m).vm, gs)
  {
    hide Stacked;
    gs := HandsBack(m, fs);
  }

  lemma FailsHere(m: Vm, fs: seq<Frame>, d: Vm) returns (gs: seq<Frame>)
    requires Stacked(m, fs) && fs[|m.rs|].at.armed == [] && Fails(m, Running(d))
    ensures Stacked(d, gs)
  {
    hide Stacked, Unwind;
    FailedTraps(m, d);
    var u: Vm, f: Fault :| u.ts == m.ts && u.rs == m.rs && Beneath(m, u) && Running(d) == Unwind(u, f);
    gs := Uncaught(m, fs, u, f);
  }

  // ---------- whole runs ----------

  /** One step; its fuel bounds the handler it may run to its end. */
  ghost predicate Goes(h: Host, env: CompileEnv, m: Vm, d: Vm)
    requires ValidEnv(env)
  {
    exists k: nat :: Step(h, env, k, m) == Running(d)
  }

  ghost predicate Chain(h: Host, env: CompileEnv, ms: seq<Vm>)
    requires ValidEnv(env)
  {
    forall i :: 0 <= i < |ms| - 1 ==> Goes(h, env, ms[i], ms[i + 1])
  }

  lemma ChainRest(h: Host, env: CompileEnv, ms: seq<Vm>)
    requires ValidEnv(env) && ms != [] && Chain(h, env, ms)
    ensures Chain(h, env, ms[1..])
  {
    hide Goes;
    var rest := ms[1..];
    forall i | 0 <= i < |rest| - 1 ensures Goes(h, env, rest[i], rest[i + 1]) {
      assert Goes(h, env, ms[i + 1], ms[i + 2]);
    }
  }

  /** In every run of the machine, with any depth of calls, early returns and failures caught
      any number of frames down: at each moment every frame on the return stack, not only the
      one that runs, is at a point of a disciplined path of its own code. */
  lemma {:induction false} RunKeeps(h: Host, env: CompileEnv, ms: seq<Vm>,
                                    fs: seq<Frame>) returns (fss: seq<seq<Frame>>)
    requires ValidEnv(env) && ms != [] && Stacked(ms[0], fs) && Chain(h, env, ms)
    requires forall i :: 0 <= i < |ms| ==> Disciplined(ms[i].fn)
    ensures |fss| == |ms| && fss[0] == fs && forall i :: 0 <= i < |ms| ==> Stacked(ms[i], fss[i])
    decreases |ms|
  {
    hide Stacked, Disciplined, Step;
    if |ms| == 1 { return [fs]; }
    ChainRest(h, env, ms);
    assert Goes(h, env, ms[0], ms[1]);
    var k: nat :| Step(h, env, k, ms[0]) == Running(ms[1]);
    var gs := StepKeeps(h, env, k, ms[0], fs, ms[1]);
    var rest := RunKeeps(h, env, ms[1..], gs);
    fss := [fs] + rest;
    forall i | 0 <= i < |ms| ensures Stacked(ms[i], fss[i]) {
      if i > 0 { assert ms[i] == ms[1..][i - 1]; }
    }
  }

  /** A lambda called from outside begins with one frame; what it was compiled from decides that
      its code is disciplined. */
  lemma StartIsStacked(env: CompileEnv, f: Ray, args: seq<Ray>, w: World)
    requires ValidEnv(env) && f.Lambda? && f.body != [] && (forall i :: 0 <= i < |f.body| ==> NoErrors(f.body[i]))
    requires CompileLambda(env, f.params, f.body).Some? && |args| == |f.params|
    requires |CompileLambda(env, f.params, f.body).value.consts| <= 0x1_0000
    ensures var p := CompileLambda(env, f.params, f.body).value;
      Disciplined(p) && Stacked(Start(p, args, w).vm, [Frame(p, 0, Point(0, 0, []), 0)])
  {
    hide CompileLambda, NoErrors, OnPath;
    var p := CompileLambda(env, f.params, f.body).value;
    CalleeFits(env, f);
    CompiledCodeIsDisciplined(env, f.params, f.body);
    EntryOnPath(p, 0);
  }

  /** How a run can end: with a value, in the outermost frame and with every trap closed; with
      an error that no trap of any frame guards; out of fuel; or stuck, but only in a dynamic
      scope or because a handler of its own was. */
  lemma Endings(h: Host, env: CompileEnv, k: nat, m: Vm, fs: seq<Frame>)
    requires ValidEnv(env) && Stacked(m, fs) && Step(h, env, k, m).Halted?
    ensures 0 <= m.ip < |m.fn.code|
    ensures var out := Step(h, env, k, m).out; var op := m.fn.code[m.ip];
      && (out.Value? ==> op == OP_RET && m.rs == [] && m.ts == [])
      && (out.Raised? ==> m.ts == [])
      && (out.Stuck? ==> op == OP_SCOPE_BEGIN || op == OP_SCOPE_END || op == OP_TRYH)
  {
    hide OnPath, Stacked, Matches, Disciplined, Runs, Then, Else, Calls, Step, Follows;
    CurrentOf(m, fs);
    var s, base := fs[|m.rs|].at, fs[|m.rs|].base;
    PathGoesOn(m.fn, s);
    IpInside(m.fn, s);
    if Step(h, env, k, m).out.Value? { ValueAtRet(h, env, k, m); }
    if Step(h, env, k, m).out.Raised? { RaisedUncaught(h, env, k, m); }
    if m.fn.code[m.ip] == OP_RET { NoTrapsAtRet(m.fn, s); }
    if !(m.fn.code[m.ip] in {OP_SCOPE_BEGIN, OP_SCOPE_END, OP_TRYH}) { StepFollows(h, env, k, m, s, base); }
  }

  lemma ValueAtRet(h: Host, env: CompileEnv, k: nat, m: Vm)
    requires ValidEnv(env) && 0 <= m.ip < |m.fn.code| && Step(h, env, k, m).Halted? && Step(h, env, k, m).out.Value?
    ensures m.fn.code[m.ip] == OP_RET && m.rs == []
  {
    hide CompileLambda;
  }

  lemma RaisedUncaught(h: Host, env: CompileEnv, k: nat, m: Vm)
    requires ValidEnv(env) && 0 <= m.ip < |m.fn.code| && Step(h, env, k, m).Halted? && Step(h, env, k, m).out.Raised?
    ensures m.ts == []
  {
    hide CompileLambda;
  }
}
