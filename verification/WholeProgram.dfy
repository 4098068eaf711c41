/**
 The two tiers of a whole program.  In the reference tier every call and every
 loop is walked.  In the tiered runtime a function called from compiled code runs
 as its cached chunk where it compiles and there is memory for it, every other
 call is walked, walked code runs its loops as chunks where they compile, and all
 of these may call each other to any depth.
 */
module WholeProgram {
  import opened Values
  import opened Ast
  import opened Bytecode
  import opened Callbacks
  import opened Compiler
  import opened Vm
  import opened TreeWalker
  import opened ExprSimulation
  import opened StmtSimulation
  import opened ChunkSafety
  import opened TierEquivalence
  import opened RegisterFile
  import opened SlotBound

  datatype Fn = Fn(params: nat, body: seq<Stmt>)

  /**
   `base` answers everything that is not a call of one of the program's own
   functions; `memory` tells whether a chunk and its registers can be allocated.
   */
  datatype Program = Program(
    fns: map<Name, Fn>, base: World, fnProbe: Name -> Probe, loopProbe: Log -> Probe, memory: (Log, Event) -> bool)

  /** Calls made by compiled code run the callee's chunk where there is one; walked calls walk the callee. */
  datatype Caller = Chunked | Interpreted

  ghost predicate WellFormed(prog: Program) {
    && ExactInts(prog.base.ops)
    && forall f | f in prog.fns ::
         forall i | 0 <= i < |prog.fns[f].body| :: SlotsBelow(prog.fns[f].body[i], TEMP_BASE)
  }

  predicate OwnCall(prog: Program, e: Event) {
    e.Called? && e.callee.owner.None? && e.callee.name in prog.fns
  }

  /** Inside a function, returning a call of an own function takes the trampoline. */
  function ContextOf(prog: Program, w: World): Context {
    Context(w, f => f in prog.fns)
  }

  function Refused(log: Log): Reply {
    Reply(true, Nil, log)
  }

  function FnResult(r: Executed): Reply
    requires r.Done?
  {
    Reply(false, if r.signal.Ret? then r.signal.v else Nil, r.log)
  }

  // ----- the reference tier -----

  ghost function Walked(prog: Program, depth: nat): World
    decreases depth, 1
  {
    World(prog.base.ops, (log, e) => WalkedReply(prog, depth, log, e))
  }

  /** A body that raises, or never ends, counts as refused. */
  ghost function WalkBody(cx: Context, body: seq<Stmt>, f: Frame, log: Log): Reply {
    if fuel: nat :| ExecBlock(cx, fuel, body, 0, f, log).Done?
    then FnResult(ExecBlock(cx, fuel, body, 0, f, log))
    else Refused(log)
  }

  ghost function WalkedReply(prog: Program, depth: nat, log: Log, e: Event): Reply
    decreases depth, 0
  {
    if !OwnCall(prog, e) then prog.base.reply(log, e)
    else
      var fn := prog.fns[e.callee.name];
      if depth == 0 || |e.args| != fn.params || |e.args| > MAX_REG then Refused(log)
      else
        WalkBody(ContextOf(prog, Walked(prog, depth - 1)), fn.body, FnFrame(e.args), log)
  }

  // ----- the tiered runtime -----

  ghost function Tiered(prog: Program, depth: nat, caller: Caller): World
    decreases depth, 1
  {
    World(prog.base.ops, (log, e) => TieredReply(prog, depth, caller, log, e))
  }

  ghost function TieredReply(prog: Program, depth: nat, caller: Caller, log: Log, e: Event): Reply
    decreases depth, 0
  {
    if !OwnCall(prog, e) then prog.base.reply(log, e)
    else
      var fn := prog.fns[e.callee.name];
      if depth == 0 || |e.args| != fn.params || |e.args| > MAX_REG then Refused(log)
      else
        var vm := Tiered(prog, depth - 1, Chunked);
        var k := CompileFn(prog.fnProbe(e.callee.name), fn.body);
        if caller.Chunked? && prog.memory(log, e) && k.Some? then RunChunk(k.value, vm, e.args, log)
        else
          TieredBody(prog.loopProbe, ContextOf(prog, Tiered(prog, depth - 1, Interpreted)), vm,
                     fn.body, FnFrame(e.args), log)
  }

  /** Registers a function chunk is given: its temporaries, its parameters and a margin. */
  function FileSize(k: Chunk, argc: nat): nat {
    Max(k.next + 32, argc + 32)
  }

  ghost function RunChunk(k: Chunk, w: World, args: seq<Value>, log: Log): Reply {
    var m := State(0, Registers(args, FileSize(k, |args|)), log, Running);
    if n: nat :| !Run(k, w, m, n).status.Running?
    then
      var m' := Run(k, w, m, n);
      Reply(false, if m'.status.Returned? then m'.status.result else Nil, m'.log)
    else Refused(log)
  }

  /** The interpreter of the tiered runtime: like `Exec`, but a loop that compiles is run as a chunk, on `vm`. */
  ghost function ExecTiered(
    probe: Log -> Probe, cx: Context, vm: World, fuel: nat, s: Stmt, f: Frame, log: Log): Executed
    decreases fuel, s, 1
  {
    match s
    case Block(body) => BlockTiered(probe, cx, vm, fuel, body, 0, f, log)
    case If(cond, thn, els) =>
      (match Eval(cx.world, cond, f, log)
       case RaisedE => Raised
       case ApartE => Apart
       case Val(v, log') =>
         if CondTruth(cx.world.ops, v) then ExecTiered(probe, cx, vm, fuel, thn, f, log')
         else if els.Some? then ExecTiered(probe, cx, vm, fuel, els.value, f, log')
         else Done(f, log', Normal))
    case While(_, _) =>
      (match CompileLoop(probe(log), s)
       case Some(k) => RunLoop(k, vm, f, log)
       case None => WhileTiered(probe, cx, vm, fuel, s, f, log))
    case _ => Exec(cx, fuel, s, f, log)
  }

  ghost function BlockTiered(
    probe: Log -> Probe, cx: Context, vm: World, fuel: nat, body: seq<Stmt>, i: nat, f: Frame, log: Log): Executed
    requires i <= |body|
    decreases fuel, body, |body| - i
  {
    if i == |body| then Done(f, log, Normal)
    else
      var r := ExecTiered(probe, cx, vm, fuel, body[i], f, log);
      if !r.Done? || r.signal.Ret? then r else BlockTiered(probe, cx, vm, fuel, body, i + 1, r.frame, r.log)
  }

  ghost function WhileTiered(
    probe: Log -> Probe, cx: Context, vm: World, fuel: nat, s: Stmt, f: Frame, log: Log): Executed
    requires s.While?
    decreases fuel, s, 0
  {
    if fuel == 0 then OutOfFuel
    else
      match Eval(cx.world, s.cond, f, log)
      case RaisedE => Raised
      case ApartE => Apart
      case Val(v, log') =>
        if !CondTruth(cx.world.ops, v) then Done(f, log', Normal)
        else
          var r := ExecTiered(probe, cx, vm, fuel - 1, s.loopBody, f, log');
          if !r.Done? || r.signal.Ret? then r else WhileTiered(probe, cx, vm, fuel - 1, s, r.frame, r.log)
  }

  ghost function TieredBody(probe: Log -> Probe, cx: Context, vm: World, body: seq<Stmt>, f: Frame, log: Log): Reply {
    if fuel: nat :| BlockTiered(probe, cx, vm, fuel, body, 0, f, log).Done?
    then FnResult(BlockTiered(probe, cx, vm, fuel, body, 0, f, log))
    else Refused(log)
  }

  /** A compiled loop on the interpreter's own stack; it announces the frame it uses. */
  ghost function RunLoop(k: Chunk, w: World, f: Frame, log: Log): Executed {
    if |f.slots| != MAX_REG || !(TEMP_BASE <= k.next <= MAX_REG) then Apart
    else
      var m := Entry(k, f, log);
      if n: nat :| !Run(k, w, m, n).status.Running?
      then
        var m' := Run(k, w, m, n);
        Done(Frame(m'.regs, FrameSize(f.size, k)), m'.log,
             if m'.status.Returned? then Signal.Ret(m'.status.result) else Normal)
      else OutOfFuel
  }

  // ----- the tiers agree -----

  /** The tiered frame holds the walker's locals; compiled loops may have widened it. */
  ghost predicate FramesAgree(f: Frame, g: Frame) {
    && |f.slots| == |g.slots| == MAX_REG && f.size <= g.size
    && forall i | 0 <= i < TEMP_BASE :: f.slots[i] == g.slots[i]
  }

  lemma {:induction false} EvalAgrees(w: World, u: World, e: Expr, f: Frame, g: Frame, log: Log)
    requires Covers(u, w) && FramesAgree(f, g) && ExprSlotsBelow(e, TEMP_BASE) && Eval(w, e, f, log).Val?
    ensures Eval(u, e, g, log) == Eval(w, e, f, log)
    decreases e, 1
  {
    match e
    case Not(x) => EvalAgrees(w, u, x, f, g, log);
    case Logic(isAnd, l, r) =>
      EvalAgrees(w, u, l, f, g, log);
      var lv := Eval(w, l, f, log);
      if LogicTruth(lv.v) == isAnd {
        EvalAgrees(w, u, r, f, g, lv.log);
      }
    case Binary(op, l, r) =>
      EvalAgrees(w, u, l, f, g, log);
      EvalAgrees(w, u, r, f, g, Eval(w, l, f, log).log);
    case Call(callee, args) => ArgsAgree(w, u, args, 0, f, g, log);
    case _ =>
  }

  lemma {:induction false} ArgsAgree(w: World, u: World, args: seq<Expr>, i: nat, f: Frame, g: Frame, log: Log)
    requires Covers(u, w) && FramesAgree(f, g) && i <= |args| && EvalArgs(w, args, i, f, log).Vals?
    requires forall j | 0 <= j < |args| :: ExprSlotsBelow(args[j], TEMP_BASE)
    ensures EvalArgs(u, args, i, g, log) == EvalArgs(w, args, i, f, log)
    decreases args, |args| - i
  {
    if i < |args| {
      EvalAgrees(w, u, args[i], f, g, log);
      ArgsAgree(w, u, args, i + 1, f, g, Eval(w, args[i], f, log).log);
    }
  }

  ghost predicate OutcomesAgree(r: Executed, t: Executed) {
    r.Done? && t.Done? && FramesAgree(r.frame, t.frame) && r.log == t.log && r.signal == t.signal
  }

  // ----- the walker's frame and fuel -----

  lemma {:induction false} FrameBound(cx: Context, fuel: nat, s: Stmt, f: Frame, log: Log, lim: nat)
    requires SlotsBelow(s, lim) && Exec(cx, fuel, s, f, log).Done?
    ensures var f' := Exec(cx, fuel, s, f, log).frame; |f'.slots| == |f.slots| && f'.size <= Max(f.size, lim)
    decreases fuel, s, 1
  {
    match s
    case Block(body) => BlockFrameBound(cx, fuel, body, 0, f, log, lim);
    case If(cond, thn, els) =>
      var v := Eval(cx.world, cond, f, log);
      if CondTruth(cx.world.ops, v.v) {
        FrameBound(cx, fuel, thn, f, v.log, lim);
      } else if els.Some? {
        FrameBound(cx, fuel, els.value, f, v.log, lim);
      }
    case While(_, _) => WhileFrameBound(cx, fuel, s, f, log, lim);
    case _ =>
  }

  lemma {:induction false} BlockFrameBound(
    cx: Context, fuel: nat, body: seq<Stmt>, i: nat, f: Frame, log: Log, lim: nat)
    requires i <= |body| && forall j | 0 <= j < |body| :: SlotsBelow(body[j], lim)
    requires ExecBlock(cx, fuel, body, i, f, log).Done?
    ensures var f' := ExecBlock(cx, fuel, body, i, f, log).frame; |f'.slots| == |f.slots| && f'.size <= Max(f.size, lim)
    decreases fuel, body, |body| - i
  {
    if i < |body| {
      FrameBound(cx, fuel, body[i], f, log, lim);
      var r := Exec(cx, fuel, body[i], f, log);
      if r.signal.Normal? {
        BlockFrameBound(cx, fuel, body, i + 1, r.frame, r.log, lim);
      }
    }
  }

  lemma {:induction false} WhileFrameBound(cx: Context, fuel: nat, s: Stmt, f: Frame, log: Log, lim: nat)
    requires s.While? && SlotsBelow(s, lim) && ExecWhile(cx, fuel, s, f, log).Done?
    ensures var f' := ExecWhile(cx, fuel, s, f, log).frame; |f'.slots| == |f.slots| && f'.size <= Max(f.size, lim)
    decreases fuel, s, 0
  {
    var v := Eval(cx.world, s.cond, f, log);
    if CondTruth(cx.world.ops, v.v) {
      FrameBound(cx, fuel - 1, s.loopBody, f, v.log, lim);
      var r := Exec(cx, fuel - 1, s.loopBody, f, v.log);
      if r.signal.Normal? {
        WhileFrameBound(cx, fuel - 1, s, r.frame, r.log, lim);
      }
    }
  }

  /** More fuel never changes an outcome that was reached. */
  lemma {:induction false} MoreFuel(cx: Context, fuel: nat, more: nat, s: Stmt, f: Frame, log: Log)
    requires fuel <= more && !Exec(cx, fuel, s, f, log).OutOfFuel?
    ensures Exec(cx, more, s, f, log) == Exec(cx, fuel, s, f, log)
    decreases fuel, s, 1
  {
    match s
    case Block(body) => BlockMoreFuel(cx, fuel, more, body, 0, f, log);
    case If(cond, thn, els) =>
      var v := Eval(cx.world, cond, f, log);
      if v.Val? {
        if CondTruth(cx.world.ops, v.v) && !(v.v.Str? && v.v.s != []) {
          MoreFuel(cx, fuel, more, thn, f, v.log);
        } else if els.Some? && !CondTruth(cx.world.ops, v.v) {
          MoreFuel(cx, fuel, more, els.value, f, v.log);
        }
      }
    case While(_, _) => WhileMoreFuel(cx, fuel, more, s, f, log);
    case _ =>
  }

  lemma {:induction false} BlockMoreFuel(
    cx: Context, fuel: nat, more: nat, body: seq<Stmt>, i: nat, f: Frame, log: Log)
    requires i <= |body| && fuel <= more && !ExecBlock(cx, fuel, body, i, f, log).OutOfFuel?
    ensures ExecBlock(cx, more, body, i, f, log) == ExecBlock(cx, fuel, body, i, f, log)
    decreases fuel, body, |body| - i
  {
    if i < |body| {
      MoreFuel(cx, fuel, more, body[i], f, log);
      var r := Exec(cx, fuel, body[i], f, log);
      if r.Done? && r.signal.Normal? {
        BlockMoreFuel(cx, fuel, more, body, i + 1, r.frame, r.log);
      }
    }
  }

  lemma {:induction false} WhileMoreFuel(cx: Context, fuel: nat, more: nat, s: Stmt, f: Frame, log: Log)
    requires s.While? && fuel <= more && !ExecWhile(cx, fuel, s, f, log).OutOfFuel?
    ensures ExecWhile(cx, more, s, f, log) == ExecWhile(cx, fuel, s, f, log)
    decreases fuel, s, 0
  {
    var v := Eval(cx.world, s.cond, f, log);
    if v.Val? && CondTruth(cx.world.ops, v.v) && !(v.v.Str? && v.v.s != []) {
      MoreFuel(cx, fuel - 1, more - 1, s.loopBody, f, v.log);
      var r := Exec(cx, fuel - 1, s.loopBody, f, v.log);
      if r.Done? && r.signal.Normal? {
        WhileMoreFuel(cx, fuel - 1, more - 1, s, r.frame, r.log);
      }
    }
  }

  lemma {:induction false} TieredMoreFuel(
    probe: Log -> Probe, cx: Context, vm: World, fuel: nat, more: nat, s: Stmt, f: Frame, log: Log)
    requires fuel <= more && ExecTiered(probe, cx, vm, fuel, s, f, log).Done?
    ensures ExecTiered(probe, cx, vm, more, s, f, log) == ExecTiered(probe, cx, vm, fuel, s, f, log)
    decreases fuel, s, 1
  {
    hide RunLoop, CompileLoop;
    match s
    case Block(body) => BlockTieredMoreFuel(probe, cx, vm, fuel, more, body, 0, f, log);
    case If(cond, thn, els) =>
      var v := Eval(cx.world, cond, f, log);
      if CondTruth(cx.world.ops, v.v) {
        TieredMoreFuel(probe, cx, vm, fuel, more, thn, f, v.log);
      } else if els.Some? {
        TieredMoreFuel(probe, cx, vm, fuel, more, els.value, f, v.log);
      }
    case While(_, _) =>
      if CompileLoop(probe(log), s).None? {
        WhileTieredMoreFuel(probe, cx, vm, fuel, more, s, f, log);
      }
    case _ =>
  }

  lemma {:induction false} BlockTieredMoreFuel(
    probe: Log -> Probe, cx: Context, vm: World, fuel: nat, more: nat, body: seq<Stmt>, i: nat, f: Frame, log: Log)
    requires i <= |body| && fuel <= more && BlockTiered(probe, cx, vm, fuel, body, i, f, log).Done?
    ensures BlockTiered(probe, cx, vm, more, body, i, f, log) == BlockTiered(probe, cx, vm, fuel, body, i, f, log)
    decreases fuel, body, |body| - i
  {
    if i < |body| {
      TieredMoreFuel(probe, cx, vm, fuel, more, body[i], f, log);
      var r := ExecTiered(probe, cx, vm, fuel, body[i], f, log);
      if r.signal.Normal? {
        BlockTieredMoreFuel(probe, cx, vm, fuel, more, body, i + 1, r.frame, r.log);
      }
    }
  }

  lemma {:induction false} WhileTieredMoreFuel(
    probe: Log -> Probe, cx: Context, vm: World, fuel: nat, more: nat, s: Stmt, f: Frame, log: Log)
    requires s.While? && fuel <= more && WhileTiered(probe, cx, vm, fuel, s, f, log).Done?
    ensures WhileTiered(probe, cx, vm, more, s, f, log) == WhileTiered(probe, cx, vm, fuel, s, f, log)
    decreases fuel, s, 0
  {
    var v := Eval(cx.world, s.cond, f, log);
    if CondTruth(cx.world.ops, v.v) {
      TieredMoreFuel(probe, cx, vm, fuel - 1, more - 1, s.loopBody, f, v.log);
      var r := ExecTiered(probe, cx, vm, fuel - 1, s.loopBody, f, v.log);
      if r.signal.Normal? {
        WhileTieredMoreFuel(probe, cx, vm, fuel - 1, more - 1, s, r.frame, r.log);
      }
    }
  }

  // ----- statements agree -----

  /** A compiled loop entered from the tiered frame still does what the walker does. */
  lemma LoopAgrees(
    p: Probe, loop: Stmt, k: Chunk, cx: Context, u: World, fuel: nat, f: Frame, g: Frame, log: Log)
    requires CompileLoop(p, loop) == Some(k) && SlotsBelow(loop, TEMP_BASE) && loop.While?
    requires Serves(u, cx.world) && FramesAgree(f, g) && Exec(cx, fuel, loop, f, log).Done?
    ensures OutcomesAgree(Exec(cx, fuel, loop, f, log), RunLoop(k, u, g, log))
  {
    hide CompileLoop, Run, Exec;
    CompiledFits(p, loop);
    var m := Entry(k, g, log);
    var n := LoopFrom(p, loop, k, cx, u, fuel, f, log, m);
    forall j: nat | !Run(k, u, m, j).status.Running?
      ensures Run(k, u, m, j) == Run(k, u, m, n)
    {
      StopIsFinal(k, u, m, j, n);
    }
    FrameBound(cx, fuel, loop, f, log, TEMP_BASE);
  }

  /**
   The same loop with its calls served on the stack it runs on: whatever they
   leave above the frame the loop announced, it ends as the walker does.
   */
  lemma NestedLoopAgrees(
    p: Probe, loop: Stmt, k: Chunk, cx: Context, u: World, fuel: nat, f: Frame, g: Frame, log: Log, served: Service)
    returns (n: nat)
    requires CompileLoop(p, loop) == Some(k) && SlotsBelow(loop, TEMP_BASE) && loop.While? && KeepsSize(served)
    requires Serves(u, cx.world) && FramesAgree(f, g) && Exec(cx, fuel, loop, f, log).Done?
    ensures Limit(k) <= MAX_REG
    ensures var m := NestedRun(k, u, FrameSize(g.size, k), served, Entry(k, g, log), n);
            && !m.status.Running?
            && OutcomesAgree(Exec(cx, fuel, loop, f, log),
                             Done(Frame(m.regs, FrameSize(g.size, k)), m.log,
                                  if m.status.Returned? then Signal.Ret(m.status.result) else Normal))
  {
    hide CompileLoop, Run, NestedRun, Exec, KeepsSize;
    CompiledFits(p, loop);
    var m := Entry(k, g, log);
    n := LoopFrom(p, loop, k, cx, u, fuel, f, log, m);
    LoopChunkClosed(p, loop);
    LoopLimit(p, loop, k);
    NestedCallsInvisible(k, u, FrameSize(g.size, k), served, m, m, n);
    FrameBound(cx, fuel, loop, f, log, TEMP_BASE);
    var r, t := Run(k, u, m, n), NestedRun(k, u, FrameSize(g.size, k), served, m, n);
    forall i | 0 <= i < TEMP_BASE ensures t.regs[i] == r.regs[i] {
      assert t.regs[..Limit(k)][i] == r.regs[..Limit(k)][i];
    }
  }

  lemma LoopLimit(p: Probe, loop: Stmt, k: Chunk)
    requires CompileLoop(p, loop) == Some(k) && SlotsBelow(loop, TEMP_BASE)
    ensures TEMP_BASE <= Limit(k) == k.next <= MAX_REG
  {
    StmtSlots(p, InitChunk(), loop, TEMP_BASE);
    LoopChunkClosed(p, loop);
  }

  /** The walker's outcome of a statement is the tiered interpreter's outcome. */
  lemma {:induction false} StmtTiered(
    probe: Log -> Probe, cx: Context, u: World, vm: World, fuel: nat, s: Stmt, f: Frame, g: Frame, log: Log)
    requires SlotsBelow(s, TEMP_BASE) && Serves(u, cx.world) && Serves(vm, cx.world) && FramesAgree(f, g)
    requires Exec(cx, fuel, s, f, log).Done?
    ensures OutcomesAgree(Exec(cx, fuel, s, f, log), ExecTiered(probe, cx.(world := u), vm, fuel, s, g, log))
    decreases fuel, s, 1
  {
    hide RunLoop, CompileLoop;
    match s
    case Decl(_, _, _, value) => EvalAgrees(cx.world, u, value, f, g, log);
    case Assign(_, _, value) => EvalAgrees(cx.world, u, value, f, g, log);
    case Block(body) => BlockTieredAgrees(probe, cx, u, vm, fuel, body, 0, f, g, log);
    case If(cond, thn, els) =>
      EvalAgrees(cx.world, u, cond, f, g, log);
      var v := Eval(cx.world, cond, f, log);
      if CondTruth(cx.world.ops, v.v) {
        StmtTiered(probe, cx, u, vm, fuel, thn, f, g, v.log);
      } else if els.Some? {
        StmtTiered(probe, cx, u, vm, fuel, els.value, f, g, v.log);
      }
    case While(_, _) =>
      match CompileLoop(probe(log), s) {
        case Some(k) => LoopAgrees(probe(log), s, k, cx, vm, fuel, f, g, log);
        case None => WhileTieredAgrees(probe, cx, u, vm, fuel, s, f, g, log);
      }
    case CallStmt(callee, args) => ArgsAgree(cx.world, u, args, 0, f, g, log);
    case Return(result) =>
      if result.Some? {
        EvalAgrees(cx.world, u, result.value, f, g, log);
      }
    case _ =>
  }

  lemma {:induction false} BlockTieredAgrees(
    probe: Log -> Probe, cx: Context, u: World, vm: World, fuel: nat, body: seq<Stmt>, i: nat,
    f: Frame, g: Frame, log: Log)
    requires i <= |body| && forall j | 0 <= j < |body| :: SlotsBelow(body[j], TEMP_BASE)
    requires Serves(u, cx.world) && Serves(vm, cx.world) && FramesAgree(f, g)
    requires ExecBlock(cx, fuel, body, i, f, log).Done?
    ensures OutcomesAgree(ExecBlock(cx, fuel, body, i, f, log),
                          BlockTiered(probe, cx.(world := u), vm, fuel, body, i, g, log))
    decreases fuel, body, |body| - i
  {
    hide Exec, ExecTiered;
    if i < |body| {
      StmtTiered(probe, cx, u, vm, fuel, body[i], f, g, log);
      var r := Exec(cx, fuel, body[i], f, log);
      if r.signal.Normal? {
        var g' := ExecTiered(probe, cx.(world := u), vm, fuel, body[i], g, log).frame;
        BlockTieredAgrees(probe, cx, u, vm, fuel, body, i + 1, r.frame, g', r.log);
      }
    }
  }

  lemma {:induction false} WhileTieredAgrees(
    probe: Log -> Probe, cx: Context, u: World, vm: World, fuel: nat, s: Stmt, f: Frame, g: Frame, log: Log)
    requires s.While? && SlotsBelow(s, TEMP_BASE) && FramesAgree(f, g)
    requires Serves(u, cx.world) && Serves(vm, cx.world)
    requires ExecWhile(cx, fuel, s, f, log).Done?
    ensures OutcomesAgree(ExecWhile(cx, fuel, s, f, log), WhileTiered(probe, cx.(world := u), vm, fuel, s, g, log))
    decreases fuel, s, 0
  {
    hide Exec, ExecTiered;
    EvalAgrees(cx.world, u, s.cond, f, g, log);
    var v := Eval(cx.world, s.cond, f, log);
    if CondTruth(cx.world.ops, v.v) {
      StmtTiered(probe, cx, u, vm, fuel - 1, s.loopBody, f, g, v.log);
      var r := Exec(cx, fuel - 1, s.loopBody, f, v.log);
      if r.signal.Normal? {
        var g' := ExecTiered(probe, cx.(world := u), vm, fuel - 1, s.loopBody, g, v.log).frame;
        WhileTieredAgrees(probe, cx, u, vm, fuel - 1, s, r.frame, g', r.log);
      }
    }
  }

  // ----- calls agree -----

  /** A function chunk on its own short register file answers as the walked body does. */
  lemma ChunkAnswers(
    p: Probe, body: seq<Stmt>, k: Chunk, cx: Context, u: World, fuel: nat, args: seq<Value>, log: Log)
    requires CompileFn(p, body) == Some(k) && Serves(u, cx.world) && |args| <= MAX_REG
    requires forall i | 0 <= i < |body| :: SlotsBelow(body[i], TEMP_BASE)
    requires ExecBlock(cx, fuel, body, 0, FnFrame(args), log).Done?
    ensures RunChunk(k, u, args, log) == FnResult(ExecBlock(cx, fuel, body, 0, FnFrame(args), log))
  {
    hide Run, CompileFn, ExecBlock, Closed;
    var r := ExecBlock(cx, fuel, body, 0, FnFrame(args), log);
    var n := FnRefines(p, body, k, cx, u, fuel, args, log);
    FnLimit(p, body);
    FnChunkClosed(p, body);
    var size := FileSize(k, |args|);
    var m := State(0, Registers(args, size), log, Running);
    var full := State(0, Registers(args, MAX_REG), log, Running);
    SameOnAnyFile(k, u, args, log, MAX_REG, size, n);
    assert !Run(k, u, m, n).status.Running?;
    forall j: nat | !Run(k, u, m, j).status.Running?
      ensures Run(k, u, m, j) == Run(k, u, m, n)
    {
      StopIsFinal(k, u, m, j, n);
    }
  }

  /** Register files of any two sizes that cover the chunk give the same run. */
  lemma SameOnAnyFile(k: Chunk, w: World, args: seq<Value>, log: Log, n1: nat, n2: nat, steps: nat)
    requires Closed(k) && Limit(k) <= n1 && Limit(k) <= n2 && |args| <= n1 && |args| <= n2
    ensures var s1 := Run(k, w, State(0, Registers(args, n1), log, Running), steps);
            var s2 := Run(k, w, State(0, Registers(args, n2), log, Running), steps);
            s1.status == s2.status && s1.log == s2.log
  {
    hide Run;
    var big := State(0, Registers(args, Max(n1, n2)), log, Running);
    assert big.regs[..n1] == Registers(args, n1) && big.regs[..n2] == Registers(args, n2);
    RunShort(k, w, big, n1, steps);
    RunShort(k, w, big, n2, steps);
  }

  /**
   The whole runtime: whatever the fully walked program answers to an event, at
   any call depth, the tiered program answers too, with the same value and the
   same events, whoever calls and whether or not there is memory for a chunk.
   */
  lemma {:induction false} TiersCover(prog: Program, depth: nat, caller: Caller)
    requires WellFormed(prog)
    ensures Covers(Tiered(prog, depth, caller), Walked(prog, depth))
    decreases depth
  {
    hide CompileFn, RunChunk, TieredBody, WalkBody, ExecBlock, WellFormed;
    if depth > 0 {
      TiersCover(prog, depth - 1, Chunked);
      TiersCover(prog, depth - 1, Interpreted);
    }
    forall log, e | !Walked(prog, depth).reply(log, e).raised
      ensures Tiered(prog, depth, caller).reply(log, e) == Walked(prog, depth).reply(log, e)
    {
      if OwnCall(prog, e) {
        CallCovered(prog, depth, caller, log, e);
      }
    }
  }

  lemma CallCovered(prog: Program, depth: nat, caller: Caller, log: Log, e: Event)
    requires WellFormed(prog) && OwnCall(prog, e) && !WalkedReply(prog, depth, log, e).raised
    requires depth > 0 ==> Covers(Tiered(prog, depth - 1, Chunked), Walked(prog, depth - 1))
    requires depth > 0 ==> Covers(Tiered(prog, depth - 1, Interpreted), Walked(prog, depth - 1))
    ensures TieredReply(prog, depth, caller, log, e) == WalkedReply(prog, depth, log, e)
  {
    hide ExecBlock, BlockTiered, CompileFn, RunChunk, TieredBody;
    var fn := prog.fns[e.callee.name];
    var vm, u := Tiered(prog, depth - 1, Chunked), Tiered(prog, depth - 1, Interpreted);
    var cx := ContextOf(prog, Walked(prog, depth - 1));
    var fuel: nat :| ExecBlock(cx, fuel, fn.body, 0, FnFrame(e.args), log).Done?
      && WalkedReply(prog, depth, log, e) == FnResult(ExecBlock(cx, fuel, fn.body, 0, FnFrame(e.args), log));
    var k := CompileFn(prog.fnProbe(e.callee.name), fn.body);
    if caller.Chunked? && prog.memory(log, e) && k.Some? {
      ChunkAnswers(prog.fnProbe(e.callee.name), fn.body, k.value, cx, vm, fuel, e.args, log);
    } else {
      assert ContextOf(prog, u) == cx.(world := u);
      BodyAnswers(prog.loopProbe, cx, u, vm, fuel, fn.body, FnFrame(e.args), log);
    }
  }

  /** A body that is walked with its loops as chunks answers as the fully walked body does. */
  lemma BodyAnswers(
    probe: Log -> Probe, cx: Context, u: World, vm: World, fuel: nat, body: seq<Stmt>, f: Frame, log: Log)
    requires forall i | 0 <= i < |body| :: SlotsBelow(body[i], TEMP_BASE)
    requires Serves(u, cx.world) && Serves(vm, cx.world)
    requires |f.slots| == MAX_REG && ExecBlock(cx, fuel, body, 0, f, log).Done?
    ensures TieredBody(probe, cx.(world := u), vm, body, f, log) == FnResult(ExecBlock(cx, fuel, body, 0, f, log))
  {
    hide ExecBlock, BlockTiered;
    var cu := cx.(world := u);
    BlockTieredAgrees(probe, cx, u, vm, fuel, body, 0, f, f, log);
    forall j: nat | BlockTiered(probe, cu, vm, j, body, 0, f, log).Done?
      ensures BlockTiered(probe, cu, vm, j, body, 0, f, log) == BlockTiered(probe, cu, vm, fuel, body, 0, f, log)
    {
      BlockTieredMoreFuel(probe, cu, vm, j, Max(j, fuel), body, 0, f, log);
      BlockTieredMoreFuel(probe, cu, vm, fuel, Max(j, fuel), body, 0, f, log);
    }
  }

  /** Which fuel the reference tier is given makes no difference to its answer. */
  lemma WalkBodyUnique(cx: Context, fuel: nat, body: seq<Stmt>, f: Frame, log: Log)
    requires ExecBlock(cx, fuel, body, 0, f, log).Done?
    ensures WalkBody(cx, body, f, log) == FnResult(ExecBlock(cx, fuel, body, 0, f, log))
  {
    hide ExecBlock;
    forall j: nat | ExecBlock(cx, j, body, 0, f, log).Done?
      ensures ExecBlock(cx, j, body, 0, f, log) == ExecBlock(cx, fuel, body, 0, f, log)
    {
      BlockMoreFuel(cx, j, Max(j, fuel), body, 0, f, log);
      BlockMoreFuel(cx, fuel, Max(j, fuel), body, 0, f, log);
    }
  }

  /** A top-level program: outside any function no return takes the trampoline. */
  lemma ProgramRunsTheSame(prog: Program, depth: nat, fuel: nat, main: seq<Stmt>, f: Frame, log: Log)
    requires WellFormed(prog) && |f.slots| == MAX_REG
    requires forall i | 0 <= i < |main| :: SlotsBelow(main[i], TEMP_BASE)
    requires ExecBlock(Context(Walked(prog, depth), _ => false), fuel, main, 0, f, log).Done?
    ensures OutcomesAgree(
      ExecBlock(Context(Walked(prog, depth), _ => false), fuel, main, 0, f, log),
      BlockTiered(prog.loopProbe, Context(Tiered(prog, depth, Interpreted), _ => false),
                  Tiered(prog, depth, Chunked), fuel, main, 0, f, log))
  {
    hide ExecBlock, BlockTiered;
    TiersCover(prog, depth, Chunked);
    TiersCover(prog, depth, Interpreted);
    var none: Name -> bool := _ => false;
    var cx := Context(Walked(prog, depth), none);
    var u, vm := Tiered(prog, depth, Interpreted), Tiered(prog, depth, Chunked);
    BlockTieredAgrees(prog.loopProbe, cx, u, vm, fuel, main, 0, f, f, log);
    assert cx.(world := u) == Context(u, none);
  }
}
