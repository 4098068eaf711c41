/**
 The promise of the compiled tier: a loop means the same whether it is walked or
 compiled, and it ends in one tier exactly when it ends in the other.
 */
module TierEquivalence {
  import opened Values
  import opened Ast
  import opened Bytecode
  import opened Callbacks
  import opened Compiler
  import opened Vm
  import opened TreeWalker
  import opened ExprSimulation
  import opened StmtSimulation
  import opened Divergence
  import opened ChunkSafety

  /** The stack as the runtime hands it to the machine: temporaries cleared. */
  function Entry(k: Chunk, f: Frame, log: Log): State
    requires |f.slots| == MAX_REG && TEMP_BASE <= k.next <= MAX_REG
  {
    State(0, f.slots[..TEMP_BASE] + seq(k.next - TEMP_BASE, _ => Nil) + f.slots[k.next..], log, Running)
  }

  /** Same locals, same events, and the same return signal. */
  ghost predicate SameOutcome(m: State, r: Executed) {
    r.Done? && LocalsAgree(m, r.frame) && m.log == r.log &&
    m.status == match r.signal case Normal => Stopped case Ret(v) => Returned(v)
  }

  /** A loop, its compiled chunk, and a frame to run them on. */
  ghost predicate Compiled(p: Probe, loop: Stmt, k: Chunk, cx: Context, u: World, f: Frame) {
    && CompileLoop(p, loop) == Some(k) && SlotsBelow(loop, TEMP_BASE)
    && Serves(u, cx.world) && |f.slots| == MAX_REG && TEMP_BASE <= k.next <= MAX_REG
  }

  lemma CompiledFits(p: Probe, loop: Stmt)
    requires CompileLoop(p, loop).Some?
    ensures TEMP_BASE <= CompileLoop(p, loop).value.next <= MAX_REG
  {
    LoopChunkClosed(p, loop);
  }

  /** From any entry state that carries the frame's locals. */
  lemma LoopFrom(
    p: Probe, loop: Stmt, k: Chunk, cx: Context, u: World, fuel: nat, f: Frame, log: Log, m: State)
    returns (n: nat)
    requires CompileLoop(p, loop) == Some(k) && SlotsBelow(loop, TEMP_BASE) && Serves(u, cx.world)
    requires m.ip == 0 && m.status.Running? && m.log == log && LocalsAgree(m, f)
    requires Exec(cx, fuel, loop, f, log).Done?
    ensures SameOutcome(Run(k, u, m, n), Exec(cx, fuel, loop, f, log))
  {
    hide Step;
    var r := Exec(cx, fuel, loop, f, log);
    var c := CompileStmt(p, InitChunk(), loop);
    var m' := StmtCorrect(p, InitChunk(), loop, c, k, cx, u, fuel, f, log, r.frame, r.log, r.signal, m);
    if r.signal.Normal? {
      StepReturn(k, u, m', Instr(Opcode.Ret, 0, 0, 0, 0));
      ReachesTrans(k, u, m, m', m'.(status := Stopped));
      n :| Run(k, u, m, n) == m'.(status := Stopped);
    } else {
      n :| Run(k, u, m, n) == m';
    }
  }

  /** Whatever the walker finishes without error, the compiled loop finishes the same way. */
  lemma LoopRefines(p: Probe, loop: Stmt, k: Chunk, cx: Context, u: World, fuel: nat, f: Frame, log: Log)
    returns (n: nat)
    requires Compiled(p, loop, k, cx, u, f)
    requires Exec(cx, fuel, loop, f, log).Done?
    ensures SameOutcome(Run(k, u, Entry(k, f, log), n), Exec(cx, fuel, loop, f, log))
  {
    n := LoopFrom(p, loop, k, cx, u, fuel, f, log, Entry(k, f, log));
  }

  /** Where the walker is still looping, so is the machine. */
  lemma LoopKeepsRunning(p: Probe, loop: Stmt, k: Chunk, cx: Context, u: World, fuel: nat, f: Frame, log: Log)
    requires Compiled(p, loop, k, cx, u, f) && Exec(cx, fuel, loop, f, log).OutOfFuel?
    ensures Run(k, u, Entry(k, f, log), fuel).status.Running?
  {
    StmtDiverges(p, InitChunk(), loop, CompileStmt(p, InitChunk(), loop), k, cx, u, fuel, f, log, Entry(k, f, log));
    RunsUntil(k, u, Entry(k, f, log), fuel);
  }

  lemma StopIsFinal(k: Chunk, w: World, m: State, n: nat, n': nat)
    requires !Run(k, w, m, n).status.Running? && !Run(k, w, m, n').status.Running?
    ensures Run(k, w, m, n) == Run(k, w, m, n')
  {
    if n <= n' {
      RunCompose(k, w, m, n, n' - n);
      StaysStopped(k, w, Run(k, w, m, n), n' - n);
    } else {
      RunCompose(k, w, m, n', n - n');
      StaysStopped(k, w, Run(k, w, m, n'), n - n');
    }
  }

  /** The walker meets no error and none of the points where the tiers part. */
  ghost predicate Smooth(cx: Context, loop: Stmt, f: Frame, log: Log) {
    forall fuel: nat :: Exec(cx, fuel, loop, f, log).Done? || Exec(cx, fuel, loop, f, log).OutOfFuel?
  }

  /** On a smooth program, however the machine ends is how the walker ends. */
  lemma MachineAgrees(p: Probe, loop: Stmt, k: Chunk, cx: Context, u: World, f: Frame, log: Log, n: nat)
    requires Compiled(p, loop, k, cx, u, f) && Smooth(cx, loop, f, log)
    requires !Run(k, u, Entry(k, f, log), n).status.Running?
    ensures SameOutcome(Run(k, u, Entry(k, f, log), n), Exec(cx, n, loop, f, log))
  {
    if Exec(cx, n, loop, f, log).OutOfFuel? {
      LoopKeepsRunning(p, loop, k, cx, u, n, f, log);
    }
    var n' := LoopRefines(p, loop, k, cx, u, n, f, log);
    StopIsFinal(k, u, Entry(k, f, log), n, n');
  }

  ghost predicate WalkerEnds(cx: Context, loop: Stmt, f: Frame, log: Log) {
    exists fuel: nat :: Exec(cx, fuel, loop, f, log).Done?
  }

  ghost predicate MachineEnds(k: Chunk, w: World, m: State) {
    exists n: nat :: !Run(k, w, m, n).status.Running?
  }

  /** On a smooth program the tiers end together or not at all. */
  lemma TiersAgree(p: Probe, loop: Stmt, k: Chunk, cx: Context, u: World, f: Frame, log: Log)
    requires Compiled(p, loop, k, cx, u, f) && Smooth(cx, loop, f, log)
    ensures WalkerEnds(cx, loop, f, log) <==> MachineEnds(k, u, Entry(k, f, log))
  {
    if WalkerEnds(cx, loop, f, log) {
      var fuel: nat :| Exec(cx, fuel, loop, f, log).Done?;
      var n := LoopRefines(p, loop, k, cx, u, fuel, f, log);
      assert !Run(k, u, Entry(k, f, log), n).status.Running?;
    }
    if MachineEnds(k, u, Entry(k, f, log)) {
      var n: nat :| !Run(k, u, Entry(k, f, log), n).status.Running?;
      MachineAgrees(p, loop, k, cx, u, f, log, n);
      assert Exec(cx, n, loop, f, log).Done?;
    }
  }

  /** The register file of a compiled function: parameters first, everything else nil. */
  function Registers(args: seq<Value>, size: nat): seq<Value>
    requires |args| <= size
  {
    args + seq(size - |args|, _ => Nil)
  }

  function FnFrame(args: seq<Value>): Frame
    requires |args| <= MAX_REG
  {
    Frame(Registers(args, MAX_REG), |args|)
  }

  /** A function body gives its caller the same value whether walked or compiled. */
  lemma FnRefines(p: Probe, body: seq<Stmt>, k: Chunk, cx: Context, u: World, fuel: nat, args: seq<Value>, log: Log)
    returns (n: nat)
    requires CompileFn(p, body) == Some(k) && Serves(u, cx.world) && |args| <= MAX_REG
    requires forall i | 0 <= i < |body| :: SlotsBelow(body[i], TEMP_BASE)
    requires ExecBlock(cx, fuel, body, 0, FnFrame(args), log).Done?
    ensures var r := ExecBlock(cx, fuel, body, 0, FnFrame(args), log);
            var m := Run(k, u, State(0, Registers(args, MAX_REG), log, Running), n);
            m.log == r.log && m.status == Returned(if r.signal.Ret? then r.signal.v else Nil)
  {
    var f := FnFrame(args);
    var r := ExecBlock(cx, fuel, body, 0, f, log);
    var c := CompileBlock(p, InitChunk(), body, 0);
    var m := State(0, f.slots, log, Running);
    assert Embeds(k, InitChunk(), c);
    var m' := BlockCorrect(p, InitChunk(), body, 0, c, k, cx, u, fuel, f, log, r.frame, r.log, r.signal, m);
    if r.signal.Normal? {
      StepReturn(k, u, m', Instr(ReturnNil, 0, 0, 0, 0));
      ReachesTrans(k, u, m, m', m'.(status := Returned(Nil)));
      n :| Run(k, u, m, n) == m'.(status := Returned(Nil));
    } else {
      n :| Run(k, u, m, n) == m';
    }
  }

  /** Where the walker is still busy with a function body, so is the machine, which reads no cancel flag there. */
  lemma FnKeepsRunning(
    p: Probe, body: seq<Stmt>, k: Chunk, cx: Context, u: World, fuel: nat, args: seq<Value>, log: Log)
    requires CompileFn(p, body) == Some(k) && Serves(u, cx.world) && |args| <= MAX_REG
    requires forall i | 0 <= i < |body| :: SlotsBelow(body[i], TEMP_BASE)
    requires ExecBlock(cx, fuel, body, 0, FnFrame(args), log).OutOfFuel?
    ensures Run(k, u, State(0, Registers(args, MAX_REG), log, Running), fuel).status.Running?
  {
    var f := FnFrame(args);
    var c := CompileBlock(p, InitChunk(), body, 0);
    var m := State(0, f.slots, log, Running);
    assert Embeds(k, InitChunk(), c);
    BlockDiverges(p, InitChunk(), body, 0, c, k, cx, u, fuel, f, log, m);
    RunsUntil(k, u, m, fuel);
  }

  ghost predicate BodyEnds(cx: Context, body: seq<Stmt>, f: Frame, log: Log) {
    exists fuel: nat :: ExecBlock(cx, fuel, body, 0, f, log).Done?
  }

  /** A function the walker meets no error in ends compiled if and only if it ends walked. */
  lemma FnTiersAgree(p: Probe, body: seq<Stmt>, k: Chunk, cx: Context, u: World, args: seq<Value>, log: Log)
    requires CompileFn(p, body) == Some(k) && Serves(u, cx.world) && |args| <= MAX_REG
    requires forall i | 0 <= i < |body| :: SlotsBelow(body[i], TEMP_BASE)
    requires forall fuel: nat ::
      var r := ExecBlock(cx, fuel, body, 0, FnFrame(args), log); r.Done? || r.OutOfFuel?
    ensures BodyEnds(cx, body, FnFrame(args), log)
       <==> MachineEnds(k, u, State(0, Registers(args, MAX_REG), log, Running))
  {
    hide CompileFn, ExecBlock, Run;
    var m := State(0, Registers(args, MAX_REG), log, Running);
    if BodyEnds(cx, body, FnFrame(args), log) {
      var fuel: nat :| ExecBlock(cx, fuel, body, 0, FnFrame(args), log).Done?;
      var n := FnRefines(p, body, k, cx, u, fuel, args, log);
      assert !Run(k, u, m, n).status.Running?;
    }
    if MachineEnds(k, u, m) {
      var n: nat :| !Run(k, u, m, n).status.Running?;
      if ExecBlock(cx, n, body, 0, FnFrame(args), log).OutOfFuel? {
        FnKeepsRunning(p, body, k, cx, u, n, args, log);
      }
      assert ExecBlock(cx, n, body, 0, FnFrame(args), log).Done?;
    }
  }
}
