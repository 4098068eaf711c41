/**
 Where a call puts its arguments.  The interpreter binds them on a stack that
 still holds older values, the compiled tier in a register file of its own; the
 callee finds argument `i` in slot `i` in both, and nothing of what was there
 before.
 */
module CallFrames {
  import opened Values
  import opened Ast
  import opened Bytecode
  import opened Callbacks
  import opened Compiler
  import opened Vm
  import opened TreeWalker
  import opened TierEquivalence
  import opened RegisterFile
  import opened WholeProgram

  /** Argument `i` is in slot `i`, on the interpreter's stack and in any register file. */
  lemma ArgumentsInOrder(args: seq<Value>, stack: seq<Value>, stackSize: nat, size: nat)
    requires |args| <= MAX_REG && |stack| == MAX_REG && |args| <= size
    ensures forall i | 0 <= i < |args| ::
              FnFrame(args).slots[i] == Prepared(stack, stackSize, args)[i] == Registers(args, size)[i] == args[i]
    ensures |FnFrame(args).slots| == MAX_REG && FnFrame(args).size == |args| && |Registers(args, size)| == size
    ensures forall i | |args| <= i < MAX_REG :: FnFrame(args).slots[i] == Nil
    ensures forall i | |args| <= i < size :: Registers(args, size)[i] == Nil
  {
  }

  // ----- what was on the stack before -----

  /** The frame as the interpreter makes it: older values may be left beyond the slots it clears. */
  function StackFrame(stack: seq<Value>, stackSize: nat, args: seq<Value>): Frame
    requires |stack| == MAX_REG && |args| <= MAX_REG
  {
    Frame(Prepared(stack, stackSize, args), |args|)
  }

  /** `g` holds what `f` holds, and possibly something where `f` holds nothing. */
  ghost predicate Stale(f: Frame, g: Frame) {
    && |f.slots| == |g.slots| && f.size == g.size
    && forall i | 0 <= i < |f.slots| && !f.slots[i].Nil? :: g.slots[i] == f.slots[i]
  }

  lemma {:induction false} EvalStale(w: World, e: Expr, f: Frame, g: Frame, log: Log)
    requires Stale(f, g) && Eval(w, e, f, log).Val?
    ensures Eval(w, e, g, log) == Eval(w, e, f, log)
    decreases e, 1
  {
    match e
    case Not(x) => EvalStale(w, x, f, g, log);
    case Logic(isAnd, l, r) =>
      EvalStale(w, l, f, g, log);
      var lv := Eval(w, l, f, log);
      if LogicTruth(lv.v) == isAnd {
        EvalStale(w, r, f, g, lv.log);
      }
    case Binary(_, l, r) =>
      EvalStale(w, l, f, g, log);
      EvalStale(w, r, f, g, Eval(w, l, f, log).log);
    case Call(_, args) => ArgsStale(w, args, 0, f, g, log);
    case _ =>
  }

  lemma {:induction false} ArgsStale(w: World, args: seq<Expr>, i: nat, f: Frame, g: Frame, log: Log)
    requires Stale(f, g) && i <= |args| && EvalArgs(w, args, i, f, log).Vals?
    ensures EvalArgs(w, args, i, g, log) == EvalArgs(w, args, i, f, log)
    decreases args, |args| - i
  {
    if i < |args| {
      EvalStale(w, args[i], f, g, log);
      ArgsStale(w, args, i + 1, f, g, Eval(w, args[i], f, log).log);
    }
  }

  /** The same end, events and signal, and again no more than stale slots between the frames. */
  ghost predicate SameEnd(r: Executed, t: Executed) {
    r.Done? && t.Done? && Stale(r.frame, t.frame) && r.log == t.log && r.signal == t.signal
  }

  lemma {:induction false} StmtStale(cx: Context, fuel: nat, s: Stmt, f: Frame, g: Frame, log: Log)
    requires Stale(f, g) && Exec(cx, fuel, s, f, log).Done?
    ensures SameEnd(Exec(cx, fuel, s, f, log), Exec(cx, fuel, s, g, log))
    decreases fuel, s, 1
  {
    match s
    case Decl(_, _, _, value) => EvalStale(cx.world, value, f, g, log);
    case Assign(_, _, value) => EvalStale(cx.world, value, f, g, log);
    case Block(body) => BlockStale(cx, fuel, body, 0, f, g, log);
    case If(cond, thn, els) =>
      EvalStale(cx.world, cond, f, g, log);
      var v := Eval(cx.world, cond, f, log);
      if CondTruth(cx.world.ops, v.v) {
        StmtStale(cx, fuel, thn, f, g, v.log);
      } else if els.Some? {
        StmtStale(cx, fuel, els.value, f, g, v.log);
      }
    case While(_, _) => WhileStale(cx, fuel, s, f, g, log);
    case CallStmt(_, args) => ArgsStale(cx.world, args, 0, f, g, log);
    case Return(result) =>
      if result.Some? {
        EvalStale(cx.world, result.value, f, g, log);
      }
    case _ =>
  }

  lemma {:induction false} BlockStale(
    cx: Context, fuel: nat, body: seq<Stmt>, i: nat, f: Frame, g: Frame, log: Log)
    requires i <= |body| && Stale(f, g) && ExecBlock(cx, fuel, body, i, f, log).Done?
    ensures SameEnd(ExecBlock(cx, fuel, body, i, f, log), ExecBlock(cx, fuel, body, i, g, log))
    decreases fuel, body, |body| - i
  {
    hide Exec;
    if i < |body| {
      StmtStale(cx, fuel, body[i], f, g, log);
      var r := Exec(cx, fuel, body[i], f, log);
      if r.signal.Normal? {
        BlockStale(cx, fuel, body, i + 1, r.frame, Exec(cx, fuel, body[i], g, log).frame, r.log);
      }
    }
  }

  lemma {:induction false} WhileStale(cx: Context, fuel: nat, s: Stmt, f: Frame, g: Frame, log: Log)
    requires s.While? && Stale(f, g) && ExecWhile(cx, fuel, s, f, log).Done?
    ensures SameEnd(ExecWhile(cx, fuel, s, f, log), ExecWhile(cx, fuel, s, g, log))
    decreases fuel, s, 0
  {
    hide Exec;
    EvalStale(cx.world, s.cond, f, g, log);
    var v := Eval(cx.world, s.cond, f, log);
    if CondTruth(cx.world.ops, v.v) {
      StmtStale(cx, fuel - 1, s.loopBody, f, g, v.log);
      var r := Exec(cx, fuel - 1, s.loopBody, f, v.log);
      if r.signal.Normal? {
        WhileStale(cx, fuel - 1, s, r.frame, Exec(cx, fuel - 1, s.loopBody, g, v.log).frame, r.log);
      }
    }
  }

  /**
   A body that ends on a fresh frame ends the same way, with the same events and
   result, on the interpreter's stack, whatever calls before it have left there.
   */
  lemma OldValuesInvisible(
    cx: Context, fuel: nat, body: seq<Stmt>, stack: seq<Value>, stackSize: nat, args: seq<Value>, log: Log)
    requires |stack| == MAX_REG && |args| <= MAX_REG && ExecBlock(cx, fuel, body, 0, FnFrame(args), log).Done?
    ensures SameEnd(ExecBlock(cx, fuel, body, 0, FnFrame(args), log),
                    ExecBlock(cx, fuel, body, 0, StackFrame(stack, stackSize, args), log))
  {
    ArgumentsInOrder(args, stack, stackSize, MAX_REG);
    BlockStale(cx, fuel, body, 0, FnFrame(args), StackFrame(stack, stackSize, args), log);
  }

  // ----- calls of a function that hands back one parameter -----

  /** The body `return` of the parameter in slot `i`. */
  function Projection(i: nat): seq<Stmt> {
    [Return(Some(Ident([], i)))]
  }

  lemma ProjectionWalked(cx: Context, fuel: nat, args: seq<Value>, i: nat, log: Log)
    requires i < |args| <= MAX_REG && !args[i].Nil?
    ensures var r := ExecBlock(cx, fuel, Projection(i), 0, FnFrame(args), log);
            r == Done(FnFrame(args), log, Signal.Ret(args[i]))
  {
    var body := Projection(i);
    ArgumentsInOrder(args, seq(MAX_REG, _ => Nil), 0, MAX_REG);
    assert Exec(cx, fuel, body[0], FnFrame(args), log) == Done(FnFrame(args), log, Signal.Ret(args[i]));
  }

  lemma ProjectionTiered(probe: Log -> Probe, cx: Context, vm: World, fuel: nat, args: seq<Value>, i: nat, log: Log)
    requires i < |args| <= MAX_REG && !args[i].Nil?
    ensures var r := BlockTiered(probe, cx, vm, fuel, Projection(i), 0, FnFrame(args), log);
            r == Done(FnFrame(args), log, Signal.Ret(args[i]))
  {
    var body := Projection(i);
    ProjectionWalked(cx, fuel, args, i, log);
    assert ExecBlock(cx, fuel, body, 0, FnFrame(args), log) == Exec(cx, fuel, body[0], FnFrame(args), log);
    assert ExecTiered(probe, cx, vm, fuel, body[0], FnFrame(args), log) == Exec(cx, fuel, body[0], FnFrame(args), log);
  }

  lemma ProjectionCompiled(p: Probe, i: nat)
    ensures var k := CompileFn(p, Projection(i));
            k.Some? && |k.value.code| == 2 && k.value.code[0] == Instr(ReturnVal, i, 0, 0, 0)
  {
    var c, body := InitChunk(), Projection(i);
    var c1 := Emit(NoteSlot(c, i), Instr(ReturnVal, i, 0, 0, 0));
    assert StringDrops(c1, c.next, c.next) == c1;
    assert CompileStmt(p, c, body[0]) == c1;
    assert CompileBlock(p, c, body, 0) == CompileBlock(p, c1, body, 1) == c1;
  }

  lemma ProjectionRun(p: Probe, w: World, args: seq<Value>, i: nat, log: Log)
    requires i < |args|
    ensures CompileFn(p, Projection(i)).Some?
    ensures RunChunk(CompileFn(p, Projection(i)).value, w, args, log) == Reply(false, args[i], log)
  {
    hide CompileFn;
    ProjectionCompiled(p, i);
    var k := CompileFn(p, Projection(i)).value;
    var m := State(0, Registers(args, FileSize(k, |args|)), log, Running);
    assert m.regs[i] == args[i];
    assert Run(k, w, m, 1) == Run(k, w, Step(k, w, false, m), 0) == m.(status := Returned(args[i]));
    forall n: nat | !Run(k, w, m, n).status.Running? ensures Run(k, w, m, n) == Run(k, w, m, 1) {
      StopIsFinal(k, w, m, n, 1);
    }
  }

  /** The program's function `f` takes `arity` arguments and hands back the one in slot `i`. */
  ghost predicate Projects(prog: Program, f: Name, arity: nat, i: nat) {
    f in prog.fns && prog.fns[f] == Fn(arity, Projection(i))
  }

  /** A call of it answers its i-th argument in both tiers, for every arity and whoever calls. */
  lemma ProjectionAnswers(
    prog: Program, f: Name, i: nat, args: seq<Value>, depth: nat, caller: Caller, log: Log)
    requires i < |args| <= MAX_REG && !args[i].Nil? && depth > 0 && Projects(prog, f, |args|, i)
    ensures var e := Called(Callee(None, f), args);
            WalkedReply(prog, depth, log, e) == TieredReply(prog, depth, caller, log, e) == Reply(false, args[i], log)
  {
    hide ExecBlock, BlockTiered, CompileFn, RunChunk, Projection;
    var e := Called(Callee(None, f), args);
    var cx := ContextOf(prog, Walked(prog, depth - 1));
    var u, vm := ContextOf(prog, Tiered(prog, depth - 1, Interpreted)), Tiered(prog, depth - 1, Chunked);
    forall fuel: nat
      ensures ExecBlock(cx, fuel, Projection(i), 0, FnFrame(args), log)
           == Done(FnFrame(args), log, Signal.Ret(args[i]))
      ensures BlockTiered(prog.loopProbe, u, vm, fuel, Projection(i), 0, FnFrame(args), log)
           == Done(FnFrame(args), log, Signal.Ret(args[i]))
    {
      ProjectionWalked(cx, fuel, args, i, log);
      ProjectionTiered(prog.loopProbe, u, vm, fuel, args, i, log);
    }
    ProjectionRun(prog.fnProbe(f), vm, args, i, log);
    assert ExecBlock(cx, 0, Projection(i), 0, FnFrame(args), log).Done?;
    assert BlockTiered(prog.loopProbe, u, vm, 0, Projection(i), 0, FnFrame(args), log).Done?;
  }

  /** A call with the wrong number of arguments, or too deep, is refused in both tiers. */
  lemma WrongCallsRefused(prog: Program, depth: nat, caller: Caller, log: Log, e: Event)
    requires OwnCall(prog, e) && (depth == 0 || |e.args| != prog.fns[e.callee.name].params)
    ensures WalkedReply(prog, depth, log, e) == TieredReply(prog, depth, caller, log, e) == Refused(log)
    ensures Refused(log).raised
  {
  }
}
