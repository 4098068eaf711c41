/** Running the code of a statement does what the tree walker does when it executes it. */
module StmtSimulation {
  import opened Values
  import opened Ast
  import opened Bytecode
  import opened Callbacks
  import opened Compiler
  import opened Vm
  import opened TreeWalker
  import opened ExprSimulation

  /** The machine has run the statement, or left the whole chunk through its `return`. */
  ghost predicate Ran(at: nat, m: State, f: Frame, log: Log, signal: Signal) {
    && LocalsAgree(m, f) && m.log == log
    && match signal
       case Normal => m.status.Running? && m.ip == at
       case Ret(v) => m.status == Returned(v)
  }

  lemma {:induction false} StmtCorrect(
    p: Probe, c: Chunk, s: Stmt, c': Chunk, k: Chunk,
    cx: Context, u: World, fuel: nat, f: Frame, log: Log, f': Frame, log': Log, signal: Signal, m: State)
    returns (m': State)
    requires Serves(u, cx.world) && SlotsBelow(s, TEMP_BASE)
    requires CompileStmt(p, c, s) == c' && c'.ok && Embeds(k, c, c')
    requires At(c, m, f, log) && Exec(cx, fuel, s, f, log) == Done(f', log', signal)
    ensures Reaches(k, u, m, m') && Ran(|c'.code|, m', f', log', signal)
    decreases fuel, s, 1
  {
    hide Step, Run;
    match s
    case Decl(name, slot, _, value) =>
      m' := StoreCorrect(p, c, name, slot, value, c', k, cx.world, u, f, log, f', log', m);
    case Assign(name, slot, value) =>
      m' := StoreCorrect(p, c, name, slot, value, c', k, cx.world, u, f, log, f', log', m);
    case Block(body) =>
      var c1 := CompileBlock(p, c, body, 0);
      var m1 := BlockCorrect(p, c, body, 0, c1, k, cx, u, fuel, f, log, f', log', signal, m);
      m' := Ended(c1, c.next, k, u, m, m1, f', log', signal);
    case If(_, _, els) =>
      if els.None? {
        m' := ThenCorrect(p, c, s, c', k, cx, u, fuel, f, log, f', log', signal, m);
      } else {
        m' := ElseCorrect(p, c, s, c', k, cx, u, fuel, f, log, f', log', signal, m);
      }
    case While(_, _) => m' := WhileCorrect(p, c, s, c', k, cx, u, fuel, f, log, f', log', signal, m);
    case CallStmt(callee, args) =>
      var (c1, r) := CompileCall(p, c, callee, args);
      var x := EvalCall(cx.world, callee, args, f, log);
      var m1 := CallCorrect(p, c, callee, args, c1, r, k, cx.world, u, f, log, x.v, x.log, m);
      m' := Ended(c1, c.next, k, u, m, m1, f', log', signal);
    case Return(result) => m' := ReturnCorrect(p, c, result, c', k, cx, u, fuel, f, log, f', log', signal, m);
  }

  /** Dropping the temporaries of a statement leaves the locals alone. */
  lemma {:induction false} DropsRun(c: Chunk, first: nat, end: nat, k: Chunk, w: World, m: State)
    returns (m': State)
    requires TEMP_BASE <= first && Alive(m) && m.ip == |c.code|
    requires Embeds(k, c, StringDrops(c, first, end))
    ensures Reaches(k, w, m, m') && Alive(m') && m'.ip == |StringDrops(c, first, end).code|
    ensures m'.log == m.log && Keeps(m, m', first)
    decreases end - first
  {
    hide Step, Run;
    if first >= end || first >= MAX_REG {
      m' := m;
      ReachesSelf(k, w, m);
    } else if first in c.strs {
      var c1 := Emit(c, Instr(DropStr, first, 0, 0, 0)).(strs := c.strs - {first});
      StepDrop(k, w, m, k.code[m.ip]);
      var m1 := Stored(m, first, Nil);
      m' := DropsRun(c1, first + 1, end, k, w, m1);
      ReachesTrans(k, w, m, m1, m');
    } else {
      m' := DropsRun(c, first + 1, end, k, w, m);
    }
  }

  /** The common tail of every statement. */
  lemma Ended(c1: Chunk, start: nat, k: Chunk, w: World, m: State, m1: State, f: Frame, log: Log, signal: Signal)
    returns (m': State)
    requires Reaches(k, w, m, m1) && Ran(|c1.code|, m1, f, log, signal)
    requires TEMP_BASE <= start && Embeds(k, c1, EndStmt(c1, start))
    ensures Reaches(k, w, m, m') && Ran(|EndStmt(c1, start).code|, m', f, log, signal)
  {
    hide Step, Run;
    if signal.Normal? {
      m' := DropsRun(c1, start, c1.next, k, w, m1);
      ReachesTrans(k, w, m, m1, m');
    } else {
      m' := m1;
    }
  }

  lemma StoreCorrect(
    p: Probe, c: Chunk, name: Name, slot: int, value: Expr, c': Chunk, k: Chunk,
    w: World, u: World, f: Frame, log: Log, f': Frame, log': Log, m: State) returns (m': State)
    requires Serves(u, w) && ExprSlotsBelow(value, TEMP_BASE) && 0 <= slot < TEMP_BASE
    requires CompileStore(p, c, name, slot, value) == c' && c'.ok && Embeds(k, c, c')
    requires At(c, m, f, log) && Eval(w, value, f, log).Val?
    requires Store(f, slot, Eval(w, value, f, log).v, Eval(w, value, f, log).log) == Done(f', log', Normal)
    ensures Reaches(k, u, m, m') && Ran(|c'.code|, m', f', log', Normal)
  {
    hide Step, Run;
    var (c1, src) := CompileExpr(p, c, value);
    var c2 := Emit(NoteSlot(c1, slot), Instr(MoveOp(value), slot, src, 0, 0));
    var x := Eval(w, value, f, log);
    var m1 := ExprCorrect(p, c, value, c1, src, k, w, u, f, log, x.v, x.log, m);
    StepMove(k, u, m1, Instr(MoveOp(value), slot, src, 0, 0));
    var m2 := Stored(m1, slot, x.v);
    ReachesTrans(k, u, m, m1, m2);
    m' := Ended(c2, c.next, k, u, m, m2, f', log', Normal);
  }

  lemma ReturnCorrect(
    p: Probe, c: Chunk, result: Option<Expr>, c': Chunk, k: Chunk,
    cx: Context, u: World, fuel: nat, f: Frame, log: Log, f': Frame, log': Log, signal: Signal, m: State)
    returns (m': State)
    requires Serves(u, cx.world) && (result.Some? ==> ExprSlotsBelow(result.value, TEMP_BASE))
    requires CompileStmt(p, c, Return(result)) == c' && c'.ok && Embeds(k, c, c')
    requires At(c, m, f, log) && Exec(cx, fuel, Return(result), f, log) == Done(f', log', signal)
    ensures Reaches(k, u, m, m') && Ran(|c'.code|, m', f', log', signal)
  {
    hide CompileExpr, Eval, Step, Run, StringDrops;
    var w := cx.world;
    match result
    case None =>
      StepReturn(k, u, m, Instr(ReturnNil, 0, 0, 0, 0));
      m' := m.(status := Returned(Nil));
    case Some(e) =>
      var (c1, r) := CompileExpr(p, c, e);
      var x := Eval(w, e, f, log);
      var m1 := ExprCorrect(p, c, e, c1, r, k, w, u, f, log, x.v, x.log, m);
      StepReturn(k, u, m1, Instr(ReturnVal, r, 0, 0, 0));
      m' := m1.(status := Returned(x.v));
      ReachesTrans(k, u, m, m1, m');
  }

  lemma {:induction false} BlockCorrect(
    p: Probe, c: Chunk, body: seq<Stmt>, i: nat, c': Chunk, k: Chunk,
    cx: Context, u: World, fuel: nat, f: Frame, log: Log, f': Frame, log': Log, signal: Signal, m: State)
    returns (m': State)
    requires Serves(u, cx.world) && i <= |body| && forall j | 0 <= j < |body| :: SlotsBelow(body[j], TEMP_BASE)
    requires CompileBlock(p, c, body, i) == c' && c'.ok && Embeds(k, c, c')
    requires At(c, m, f, log) && ExecBlock(cx, fuel, body, i, f, log) == Done(f', log', signal)
    ensures Reaches(k, u, m, m') && Ran(|c'.code|, m', f', log', signal)
    decreases fuel, body, |body| - i
  {
    hide Step, Run;
    if i == |body| {
      m' := m;
      ReachesSelf(k, u, m);
    } else {
      var c1 := CompileStmt(p, c, body[i]);
      var x := Exec(cx, fuel, body[i], f, log);
      var m1 := StmtCorrect(p, c, body[i], c1, k, cx, u, fuel, f, log, x.frame, x.log, x.signal, m);
      if x.signal.Ret? {
        m' := m1;
      } else {
        m' := BlockCorrect(
          p, c1.(next := c.next), body, i + 1, c', k, cx, u, fuel, x.frame, x.log, f', log', signal, m1);
        ReachesTrans(k, u, m, m1, m');
      }
    }
  }

  /** A tested condition leads into the body, or to the target of its branch. */
  lemma CondCorrect(
    p: Probe, c: Chunk, cond: Expr, c1: Chunk, cr: nat, target: nat, k: Chunk,
    w: World, u: World, f: Frame, log: Log, v: Value, log': Log, m: State) returns (m': State)
    requires Serves(u, w) && ExprSlotsBelow(cond, TEMP_BASE)
    requires CompileExpr(p, c, cond) == (c1, cr) && c1.ok && Embeds(k, c, c1)
    requires |c1.code| < |k.code| && k.code[|c1.code|] == Instr(JumpIfFalse, cr, 0, 0, target)
    requires Embeds(k, Emit(c1, Instr(JumpIfFalse, cr, 0, 0, 0)), CondBranch(c1, cr, c.next))
    requires At(c, m, f, log) && Eval(w, cond, f, log) == Val(v, log') && !(v.Str? && v.s != [])
    ensures Reaches(k, u, m, m') && Progresses(k, u, m, m')
    ensures Ran(if CondTruth(w.ops, v) then |CondBranch(c1, cr, c.next).code| else target, m', f, log', Normal)
  {
    hide Step, Run;
    var m1 := ExprCorrect(p, c, cond, c1, cr, k, w, u, f, log, v, log', m);
    m' := Branched(c1, cr, c.next, target, k, u, m, m1, f);
  }

  lemma Branched(c1: Chunk, cr: nat, start: nat, target: nat, k: Chunk, w: World, m: State, m1: State, f: Frame)
    returns (m': State)
    requires TEMP_BASE <= start && Reaches(k, w, m, m1) && Alive(m1) && LocalsAgree(m1, f) && cr < MAX_REG
    requires m1.ip == |c1.code| < |k.code| && k.code[m1.ip] == Instr(JumpIfFalse, cr, 0, 0, target)
    requires Embeds(k, Emit(c1, Instr(JumpIfFalse, cr, 0, 0, 0)), CondBranch(c1, cr, start))
    requires var v := m1.regs[cr]; !(v.Str? && v.s != [])
    ensures Reaches(k, w, m, m') && Progresses(k, w, m, m')
    ensures Ran(if CondTruth(w.ops, m1.regs[cr]) then |CondBranch(c1, cr, start).code| else target,
                m', f, m1.log, Normal)
  {
    hide Step, Run;
    var c2 := Emit(c1, Instr(JumpIfFalse, cr, 0, 0, 0));
    var truth := CondTruth(w.ops, m1.regs[cr]);
    StepBranch(k, w, m1, k.code[m1.ip]);
    m' := m1.(ip := if truth then m1.ip + 1 else target);
    ProgressTrans(k, w, m, m1, m');
    if truth && cr !in c2.strs {
      var m2 := m';
      m' := DropsRun(c2, start, c2.next, k, w, m2);
      TransProgress(k, w, m, m2, m');
    }
  }

  lemma {:induction false} ThenCorrect(
    p: Probe, c: Chunk, s: Stmt, c': Chunk, k: Chunk,
    cx: Context, u: World, fuel: nat, f: Frame, log: Log, f': Frame, log': Log, signal: Signal, m: State)
    returns (m': State)
    requires s.If? && s.els.None? && Serves(u, cx.world) && SlotsBelow(s, TEMP_BASE)
    requires CompileIf(p, c, s) == c' && c'.ok && Embeds(k, c, c')
    requires At(c, m, f, log) && Exec(cx, fuel, s, f, log) == Done(f', log', signal)
    ensures Reaches(k, u, m, m') && Ran(|c'.code|, m', f', log', signal)
    decreases fuel, s, 0
  {
    hide Step, Run;
    var w := cx.world;
    var c1, cr, c2, c3, ce := ThenCode(p, c, s, c', k);
    var x := Eval(w, s.cond, f, log);
    var m1 := CondCorrect(p, c, s.cond, c1, cr, |c3.code|, k, w, u, f, log, x.v, x.log, m);
    var m2 := m1;
    if CondTruth(w.ops, x.v) {
      m2 := StmtCorrect(p, c2, s.thn, c3, k, cx, u, fuel, f, x.log, f', log', signal, m1);
      ReachesTrans(k, u, m, m1, m2);
    }
    m' := Ended(ce, c.next, k, u, m, m2, f', log', signal);
  }

  lemma {:induction false} ElseCorrect(
    p: Probe, c: Chunk, s: Stmt, c': Chunk, k: Chunk,
    cx: Context, u: World, fuel: nat, f: Frame, log: Log, f': Frame, log': Log, signal: Signal, m: State)
    returns (m': State)
    requires s.If? && s.els.Some? && Serves(u, cx.world) && SlotsBelow(s, TEMP_BASE)
    requires CompileIf(p, c, s) == c' && c'.ok && Embeds(k, c, c')
    requires At(c, m, f, log) && Exec(cx, fuel, s, f, log) == Done(f', log', signal)
    ensures Reaches(k, u, m, m') && Ran(|c'.code|, m', f', log', signal)
    decreases fuel, s, 0
  {
    hide Step, Run;
    var w := cx.world;
    var c1, cr, c2, c3, c4, c5, ce := ElseCode(p, c, s, c', k);
    var x := Eval(w, s.cond, f, log);
    var m1 := CondCorrect(p, c, s.cond, c1, cr, |c3.code| + 1, k, w, u, f, log, x.v, x.log, m);
    var m2;
    if CondTruth(w.ops, x.v) {
      m2 := StmtCorrect(p, c2, s.thn, c3, k, cx, u, fuel, f, x.log, f', log', signal, m1);
      ReachesTrans(k, u, m, m1, m2);
      if signal.Normal? {
        m2 := SkipElse(k, u, m, m2, |ce.code|);
      }
    } else {
      m2 := StmtCorrect(p, c4, s.els.value, c5, k, cx, u, fuel, f, x.log, f', log', signal, m1);
      ReachesTrans(k, u, m, m1, m2);
    }
    m' := Ended(ce, c.next, k, u, m, m2, f', log', signal);
  }

  lemma SkipElse(k: Chunk, w: World, m: State, m1: State, target: nat) returns (m': State)
    requires Reaches(k, w, m, m1) && Alive(m1) && m1.ip < |k.code| && k.code[m1.ip] == Instr(Jump, 0, 0, 0, target)
    ensures m' == m1.(ip := target) && Reaches(k, w, m, m')
  {
    hide Step, Run;
    StepJump(k, w, m1, k.code[m1.ip]);
    m' := m1.(ip := target);
    ReachesTrans(k, w, m, m1, m');
  }

  /** The two chunks use the same constants, registers and slots. */
  ghost predicate SameExtent(c: Chunk, c': Chunk) {
    c.consts == c'.consts && c.peak == c'.peak && c.maxSlot == c'.maxSlot
  }

  /** The pieces of an if statement as they lie in the chunk; `ce` is the chunk before the final drops. */
  lemma ThenCode(p: Probe, c: Chunk, s: Stmt, c': Chunk, k: Chunk)
    returns (c1: Chunk, cr: nat, c2: Chunk, c3: Chunk, ce: Chunk)
    requires s.If? && s.els.None? && CompileIf(p, c, s) == c' && c'.ok && Embeds(k, c, c')
    ensures CompileExpr(p, c, s.cond) == (c1, cr) && c1.ok && Embeds(k, c, c1)
    ensures c2 == CondBranch(c1, cr, c.next) && Embeds(k, Emit(c1, Instr(JumpIfFalse, cr, 0, 0, 0)), c2)
    ensures CompileStmt(p, c2, s.thn) == c3 && c2.ok && c3.ok && Embeds(k, c2, c3) && c2.next == c.next
    ensures |c1.code| < |k.code| && k.code[|c1.code|] == Instr(JumpIfFalse, cr, 0, 0, |c3.code|)
    ensures c' == EndStmt(ce, c.next) && Embeds(k, ce, c')
    ensures |ce.code| == |c3.code| && SameExtent(ce, c3) && ce.next == c3.next
  {
    var head := CompileExpr(p, c, s.cond);
    c1, cr := head.0, head.1;
    c2 := CondBranch(c1, cr, c.next);
    c3 := CompileStmt(p, c2, s.thn);
    ce := Patch(c3, |c1.code|, |c3.code|);
  }

  lemma ElseCode(p: Probe, c: Chunk, s: Stmt, c': Chunk, k: Chunk)
    returns (c1: Chunk, cr: nat, c2: Chunk, c3: Chunk, c4: Chunk, c5: Chunk, ce: Chunk)
    requires s.If? && s.els.Some? && CompileIf(p, c, s) == c' && c'.ok && Embeds(k, c, c')
    ensures CompileExpr(p, c, s.cond) == (c1, cr) && c1.ok && Embeds(k, c, c1)
    ensures c2 == CondBranch(c1, cr, c.next) && Embeds(k, Emit(c1, Instr(JumpIfFalse, cr, 0, 0, 0)), c2)
    ensures CompileStmt(p, c2, s.thn) == c3 && c2.ok && c3.ok && Embeds(k, c2, c3) && c2.next == c.next
    ensures |c1.code| < |k.code| && k.code[|c1.code|] == Instr(JumpIfFalse, cr, 0, 0, |c3.code| + 1)
    ensures c' == EndStmt(ce, c.next) && Embeds(k, ce, c')
    ensures CompileStmt(p, c4, s.els.value) == c5 && c4.ok && c5.ok && Embeds(k, c4, c5) && c4.next == c.next
    ensures |c4.code| == |c3.code| + 1 && |ce.code| == |c5.code|
    ensures SameExtent(c4, c3) && SameExtent(ce, c5) && ce.next == c5.next
    ensures |c3.code| < |k.code| && k.code[|c3.code|] == Instr(Jump, 0, 0, 0, |ce.code|)
  {
    var head := CompileExpr(p, c, s.cond);
    c1, cr := head.0, head.1;
    c2 := CondBranch(c1, cr, c.next);
    c3 := CompileStmt(p, c2, s.thn);
    c4 := Patch(Emit(c3, Instr(Jump, 0, 0, 0, 0)), |c1.code|, |c3.code| + 1).(next := c.next);
    c5 := CompileStmt(p, c4, s.els.value);
    ce := Patch(c5, |c3.code|, |c5.code|);
  }

  lemma {:induction false} WhileCorrect(
    p: Probe, c: Chunk, s: Stmt, c': Chunk, k: Chunk,
    cx: Context, u: World, fuel: nat, f: Frame, log: Log, f': Frame, log': Log, signal: Signal, m: State)
    returns (m': State)
    requires s.While? && Serves(u, cx.world) && SlotsBelow(s, TEMP_BASE)
    requires c.ok && CompileWhile(p, c, s) == c' && c'.ok && Embeds(k, c, c')
    requires At(c, m, f, log) && ExecWhile(cx, fuel, s, f, log) == Done(f', log', signal)
    ensures Reaches(k, u, m, m') && Ran(|c'.code|, m', f', log', signal)
    decreases fuel, s, 0
  {
    hide Step, Run, CompileExpr, CompileStmt, Eval, Exec;
    var c2, c3, ce, truth, log1, b, m1 := WhileHead(p, c, s, c', k, cx, u, fuel, f, log, m);
    if truth {
      m' := IterationCorrect(p, c, s, c', c2, c3, k, cx, u, fuel - 1, f, log1, b, f', log', signal, m, m1);
    } else {
      m' := Ended(ce, c.next, k, u, m, m1, f', log', signal);
    }
  }

  /** The test at the head of a loop, and what each of its outcomes leads to. */
  lemma WhileHead(
    p: Probe, c: Chunk, s: Stmt, c': Chunk, k: Chunk, cx: Context, u: World, fuel: nat, f: Frame, log: Log, m: State)
    returns (c2: Chunk, c3: Chunk, ce: Chunk, truth: bool, log1: Log, b: Executed, m1: State)
    requires s.While? && Serves(u, cx.world) && SlotsBelow(s, TEMP_BASE)
    requires c.ok && CompileWhile(p, c, s) == c' && c'.ok && Embeds(k, c, c') && At(c, m, f, log)
    requires fuel > 0 && (ExecWhile(cx, fuel, s, f, log).Done? || ExecWhile(cx, fuel, s, f, log).OutOfFuel?)
    ensures Reaches(k, u, m, m1) && Progresses(k, u, m, m1)
    ensures !truth ==>
      && ExecWhile(cx, fuel, s, f, log) == Done(f, log1, Normal) && Ran(|ce.code|, m1, f, log1, Normal)
      && c' == EndStmt(ce, c.next) && Embeds(k, ce, c')
    ensures truth ==>
      && At(c2, m1, f, log1) && CompileStmt(p, c2, s.loopBody) == c3 && c3.ok && Embeds(k, c2, c3)
      && |c3.code| < |k.code| && k.code[|c3.code|] == Instr(Jump, 0, 0, 0, |c.code|)
      && Exec(cx, fuel - 1, s.loopBody, f, log1) == b
      && ExecWhile(cx, fuel, s, f, log)
         == if b.Done? && b.signal.Normal? then ExecWhile(cx, fuel - 1, s, b.frame, b.log) else b
  {
    hide Step, Run;
    var c1, cr;
    c1, cr, c2, c3, ce := WhileCode(p, c, s, c', k);
    var x := Eval(cx.world, s.cond, f, log);
    log1, truth := x.log, CondTruth(cx.world.ops, x.v);
    b := Exec(cx, fuel - 1, s.loopBody, f, log1);
    m1 := CondCorrect(p, c, s.cond, c1, cr, |ce.code|, k, cx.world, u, f, log, x.v, log1, m);
  }

  /** Once the condition holds: the body, the back edge and the remaining iterations. */
  lemma {:induction false} IterationCorrect(
    p: Probe, c: Chunk, s: Stmt, c': Chunk, c2: Chunk, c3: Chunk, k: Chunk,
    cx: Context, u: World, fuel: nat, f: Frame, log: Log, b: Executed,
    f': Frame, log': Log, signal: Signal, m: State, m1: State)
    returns (m': State)
    requires s.While? && Serves(u, cx.world) && SlotsBelow(s, TEMP_BASE)
    requires c.ok && TEMP_BASE <= c.next && CompileWhile(p, c, s) == c' && c'.ok && Embeds(k, c, c')
    requires CompileStmt(p, c2, s.loopBody) == c3 && c3.ok && Embeds(k, c2, c3)
    requires |c3.code| < |k.code| && k.code[|c3.code|] == Instr(Jump, 0, 0, 0, |c.code|)
    requires Reaches(k, u, m, m1) && At(c2, m1, f, log)
    requires Exec(cx, fuel, s.loopBody, f, log) == b && b.Done?
    requires b.signal.Ret? ==> b == Done(f', log', signal)
    requires b.signal.Normal? ==> ExecWhile(cx, fuel, s, b.frame, b.log) == Done(f', log', signal)
    ensures Reaches(k, u, m, m') && Ran(|c'.code|, m', f', log', signal)
    decreases fuel, s, 2
  {
    hide Step, Run;
    var m2 := StmtCorrect(p, c2, s.loopBody, c3, k, cx, u, fuel, f, log, b.frame, b.log, b.signal, m1);
    ReachesTrans(k, u, m, m1, m2);
    if b.signal.Ret? {
      m' := m2;
    } else {
      var m3 := LoopBack(c, k, u, m, m2, b.frame, b.log);
      m' := WhileCorrect(p, c, s, c', k, cx, u, fuel, b.frame, b.log, f', log', signal, m3);
      ReachesTrans(k, u, m, m3, m');
    }
  }

  lemma LoopBack(c: Chunk, k: Chunk, w: World, m: State, m2: State, f: Frame, log: Log) returns (m3: State)
    requires c.ok && TEMP_BASE <= c.next && Reaches(k, w, m, m2) && Alive(m2) && LocalsAgree(m2, f) && m2.log == log
    requires m2.ip < |k.code| && k.code[m2.ip] == Instr(Jump, 0, 0, 0, |c.code|)
    ensures Reaches(k, w, m, m3) && At(c, m3, f, log)
  {
    hide Step, Run;
    m3 := SkipElse(k, w, m, m2, |c.code|);
  }

  lemma WhileCode(p: Probe, c: Chunk, s: Stmt, c': Chunk, k: Chunk)
    returns (c1: Chunk, cr: nat, c2: Chunk, c3: Chunk, ce: Chunk)
    requires s.While? && CompileWhile(p, c, s) == c' && c'.ok && Embeds(k, c, c')
    ensures CompileExpr(p, c, s.cond) == (c1, cr) && c1.ok && Embeds(k, c, c1)
    ensures c2 == CondBranch(c1, cr, c.next) && Embeds(k, Emit(c1, Instr(JumpIfFalse, cr, 0, 0, 0)), c2)
    ensures CompileStmt(p, c2, s.loopBody) == c3 && c2.ok && c3.ok && Embeds(k, c2, c3) && c2.next == c.next
    ensures |c1.code| < |k.code| && k.code[|c1.code|] == Instr(JumpIfFalse, cr, 0, 0, |ce.code|)
    ensures |c3.code| < |k.code| && k.code[|c3.code|] == Instr(Jump, 0, 0, 0, |c.code|)
    ensures c' == EndStmt(ce, c.next) && Embeds(k, ce, c')
    ensures |ce.code| == |c3.code| + 1 && SameExtent(ce, c3) && ce.next == c3.next
  {
    var head := CompileExpr(p, c, s.cond);
    c1, cr := head.0, head.1;
    c2 := CondBranch(c1, cr, c.next);
    c3 := CompileStmt(p, c2, s.loopBody);
    var c4 := Emit(c3, Instr(Jump, 0, 0, 0, |c.code|));
    ce := Patch(c4, |c1.code|, |c4.code|);
  }
}
