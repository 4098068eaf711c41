/** A loop the tree walker never finishes is never finished by its compiled code either. */
module Divergence {
  import opened Values
  import opened Ast
  import opened Bytecode
  import opened Callbacks
  import opened Compiler
  import opened Vm
  import opened TreeWalker
  import opened ExprSimulation
  import opened StmtSimulation

  /** Still running after at least `n` dispatches. */
  ghost predicate RunsOn(k: Chunk, w: World, m: State, n: nat) {
    exists j: nat :: n <= j && Run(k, w, m, j).status.Running?
  }

  lemma {:induction false} StaysStopped(k: Chunk, w: World, m: State, n: nat)
    requires !m.status.Running?
    ensures Run(k, w, m, n) == m
    decreases n
  {
    if n > 0 {
      StaysStopped(k, w, m, n - 1);
    }
  }

  lemma RunsUntil(k: Chunk, w: World, m: State, n: nat)
    requires RunsOn(k, w, m, n)
    ensures Run(k, w, m, n).status.Running?
  {
    var j: nat :| n <= j && Run(k, w, m, j).status.Running?;
    RunCompose(k, w, m, n, j - n);
    if !Run(k, w, m, n).status.Running? {
      StaysStopped(k, w, Run(k, w, m, n), j - n);
    }
  }

  lemma RunsOnBefore(k: Chunk, w: World, m: State, m1: State, n: nat)
    requires Reaches(k, w, m, m1) && RunsOn(k, w, m1, n)
    ensures RunsOn(k, w, m, n)
  {
    var i: nat :| Run(k, w, m, i) == m1;
    var j: nat :| n <= j && Run(k, w, m1, j).status.Running?;
    RunCompose(k, w, m, i, j);
  }

  lemma RunsOnLonger(k: Chunk, w: World, m: State, m1: State, n: nat)
    requires Progresses(k, w, m, m1) && RunsOn(k, w, m1, n)
    ensures RunsOn(k, w, m, n + 1)
  {
    var i: nat :| i > 0 && Run(k, w, m, i) == m1;
    var j: nat :| n <= j && Run(k, w, m1, j).status.Running?;
    RunCompose(k, w, m, i, j);
  }

  lemma RunsOnAtOnce(k: Chunk, w: World, m: State)
    requires m.status.Running?
    ensures RunsOn(k, w, m, 0)
  {
    assert Run(k, w, m, 0) == m;
  }

  /** Each unit of the walker's fuel is matched by at least one dispatch. */
  lemma {:induction false} StmtDiverges(
    p: Probe, c: Chunk, s: Stmt, c': Chunk, k: Chunk, cx: Context, u: World, fuel: nat, f: Frame, log: Log, m: State)
    requires Serves(u, cx.world) && SlotsBelow(s, TEMP_BASE)
    requires CompileStmt(p, c, s) == c' && c'.ok && Embeds(k, c, c')
    requires At(c, m, f, log) && Exec(cx, fuel, s, f, log) == OutOfFuel
    ensures RunsOn(k, u, m, fuel)
    decreases fuel, s, 1
  {
    hide Step, Run;
    match s
    case Block(body) => BlockDiverges(p, c, body, 0, CompileBlock(p, c, body, 0), k, cx, u, fuel, f, log, m);
    case If(_, _, els) =>
      if els.None? {
        ThenDiverges(p, c, s, c', k, cx, u, fuel, f, log, m);
      } else {
        ElseDiverges(p, c, s, c', k, cx, u, fuel, f, log, m);
      }
    case While(_, _) => WhileDiverges(p, c, s, c', k, cx, u, fuel, f, log, m);
    case _ =>
  }

  lemma {:induction false} BlockDiverges(
    p: Probe, c: Chunk, body: seq<Stmt>, i: nat, c': Chunk, k: Chunk,
    cx: Context, u: World, fuel: nat, f: Frame, log: Log, m: State)
    requires Serves(u, cx.world) && i <= |body| && forall j | 0 <= j < |body| :: SlotsBelow(body[j], TEMP_BASE)
    requires CompileBlock(p, c, body, i) == c' && c'.ok && Embeds(k, c, c')
    requires At(c, m, f, log) && ExecBlock(cx, fuel, body, i, f, log) == OutOfFuel
    ensures RunsOn(k, u, m, fuel)
    decreases fuel, body, |body| - i
  {
    hide Step, Run;
    var c1 := CompileStmt(p, c, body[i]);
    var x := Exec(cx, fuel, body[i], f, log);
    if x.Done? {
      var m1 := StmtCorrect(p, c, body[i], c1, k, cx, u, fuel, f, log, x.frame, x.log, x.signal, m);
      BlockDiverges(p, c1.(next := c.next), body, i + 1, c', k, cx, u, fuel, x.frame, x.log, m1);
      RunsOnBefore(k, u, m, m1, fuel);
    } else {
      StmtDiverges(p, c, body[i], c1, k, cx, u, fuel, f, log, m);
    }
  }

  lemma {:induction false} ThenDiverges(
    p: Probe, c: Chunk, s: Stmt, c': Chunk, k: Chunk, cx: Context, u: World, fuel: nat, f: Frame, log: Log, m: State)
    requires s.If? && s.els.None? && Serves(u, cx.world) && SlotsBelow(s, TEMP_BASE)
    requires CompileIf(p, c, s) == c' && c'.ok && Embeds(k, c, c')
    requires At(c, m, f, log) && Exec(cx, fuel, s, f, log) == OutOfFuel
    ensures RunsOn(k, u, m, fuel)
    decreases fuel, s, 0
  {
    hide Step, Run;
    var c1, cr, c2, c3, ce := ThenCode(p, c, s, c', k);
    var x := Eval(cx.world, s.cond, f, log);
    var m1 := CondCorrect(p, c, s.cond, c1, cr, |c3.code|, k, cx.world, u, f, log, x.v, x.log, m);
    StmtDiverges(p, c2, s.thn, c3, k, cx, u, fuel, f, x.log, m1);
    RunsOnBefore(k, u, m, m1, fuel);
  }

  lemma {:induction false} ElseDiverges(
    p: Probe, c: Chunk, s: Stmt, c': Chunk, k: Chunk, cx: Context, u: World, fuel: nat, f: Frame, log: Log, m: State)
    requires s.If? && s.els.Some? && Serves(u, cx.world) && SlotsBelow(s, TEMP_BASE)
    requires CompileIf(p, c, s) == c' && c'.ok && Embeds(k, c, c')
    requires At(c, m, f, log) && Exec(cx, fuel, s, f, log) == OutOfFuel
    ensures RunsOn(k, u, m, fuel)
    decreases fuel, s, 0
  {
    hide Step, Run;
    var c1, cr, c2, c3, c4, c5, ce := ElseCode(p, c, s, c', k);
    var x := Eval(cx.world, s.cond, f, log);
    var m1 := CondCorrect(p, c, s.cond, c1, cr, |c3.code| + 1, k, cx.world, u, f, log, x.v, x.log, m);
    if CondTruth(cx.world.ops, x.v) {
      StmtDiverges(p, c2, s.thn, c3, k, cx, u, fuel, f, x.log, m1);
    } else {
      StmtDiverges(p, c4, s.els.value, c5, k, cx, u, fuel, f, x.log, m1);
    }
    RunsOnBefore(k, u, m, m1, fuel);
  }

  lemma {:induction false} WhileDiverges(
    p: Probe, c: Chunk, s: Stmt, c': Chunk, k: Chunk, cx: Context, u: World, fuel: nat, f: Frame, log: Log, m: State)
    requires s.While? && Serves(u, cx.world) && SlotsBelow(s, TEMP_BASE)
    requires c.ok && CompileWhile(p, c, s) == c' && c'.ok && Embeds(k, c, c')
    requires At(c, m, f, log) && ExecWhile(cx, fuel, s, f, log) == OutOfFuel
    ensures RunsOn(k, u, m, fuel)
    decreases fuel, s, 0
  {
    hide Step, Run, CompileExpr, CompileStmt, Eval, Exec;
    if fuel > 0 {
      var c2, c3, ce, truth, log1, b, m1 := WhileHead(p, c, s, c', k, cx, u, fuel, f, log, m);
      IterationDiverges(p, c, s, c', c2, c3, k, cx, u, fuel - 1, f, log1, b, m1);
      RunsOnLonger(k, u, m, m1, fuel - 1);
    } else {
      RunsOnAtOnce(k, u, m);
    }
  }

  lemma {:induction false} IterationDiverges(
    p: Probe, c: Chunk, s: Stmt, c': Chunk, c2: Chunk, c3: Chunk, k: Chunk,
    cx: Context, u: World, fuel: nat, f: Frame, log: Log, b: Executed, m1: State)
    requires s.While? && Serves(u, cx.world) && SlotsBelow(s, TEMP_BASE)
    requires c.ok && TEMP_BASE <= c.next && CompileWhile(p, c, s) == c' && c'.ok && Embeds(k, c, c')
    requires CompileStmt(p, c2, s.loopBody) == c3 && c3.ok && Embeds(k, c2, c3)
    requires |c3.code| < |k.code| && k.code[|c3.code|] == Instr(Jump, 0, 0, 0, |c.code|)
    requires At(c2, m1, f, log) && Exec(cx, fuel, s.loopBody, f, log) == b
    requires b.OutOfFuel? || (b.Done? && b.signal.Normal? && ExecWhile(cx, fuel, s, b.frame, b.log) == OutOfFuel)
    ensures RunsOn(k, u, m1, fuel)
    decreases fuel, s, 2
  {
    hide Step, Run;
    if b.Done? {
      var m2 := StmtCorrect(p, c2, s.loopBody, c3, k, cx, u, fuel, f, log, b.frame, b.log, b.signal, m1);
      var m3 := LoopBack(c, k, u, m1, m2, b.frame, b.log);
      WhileDiverges(p, c, s, c', k, cx, u, fuel, b.frame, b.log, m3);
      RunsOnBefore(k, u, m1, m3, fuel);
    } else {
      StmtDiverges(p, c2, s.loopBody, c3, k, cx, u, fuel, f, log, m1);
    }
  }
}
