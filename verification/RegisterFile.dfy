/**
 How much of the stack a chunk touches.  A register file that covers the chunk's
 limit is as good as the full stack, and a nested call that saves and restores
 that much of the stack is invisible to the caller.
 */
module RegisterFile {
  import opened Values
  import opened Ast
  import opened Bytecode
  import opened Callbacks
  import opened Compiler
  import opened Vm
  import opened ChunkSafety
  import opened Cancellation

  /** The same machine on a file of only `n` registers. */
  function Short(s: State, n: nat): State
    requires n <= |s.regs|
  {
    s.(regs := s.regs[..n])
  }

  lemma PutShort(s: State, r: nat, v: Value, n: nat)
    requires r < n <= |s.regs|
    ensures n <= |Put(s, r, v).regs| && Put(Short(s, n), r, v) == Short(Put(s, r, v), n)
  {
    assert s.regs[r := v][..n] == s.regs[..n][r := v];
  }

  lemma WindowShort(s: State, first: nat, argc: nat, n: nat)
    requires first + argc <= n <= |s.regs|
    ensures Window(s.regs[..n], first, argc) == Window(s.regs, first, argc)
  {
    assert s.regs[..n][first..first + argc] == s.regs[first..first + argc];
  }

  lemma AccessShort(k: Chunk, w: World, s: State, i: Instr, n: nat)
    requires IsAccess(i.op) && n <= |s.regs|
    requires (i.a < n || i.op == PrepIndex) && (i.op in {GetIndex, PrepIndex, SetIndex} ==> i.c < n)
    ensures |AccessStep(k, w, s, i).regs| == |s.regs|
    ensures AccessStep(k, w, Short(s, n), i) == Short(AccessStep(k, w, s, i), n)
  {
    if i.a < n {
      forall v: Value ensures Put(Short(s, n), i.a, v) == Short(Put(s, i.a, v), n) {
        PutShort(s, i.a, v, n);
      }
    }
  }

  lemma CallShort(w: World, s: State, dst: nat, callee: Callee, first: nat, argc: nat, n: nat)
    requires dst < n && first + argc <= n <= |s.regs|
    ensures var args := Window(s.regs, first, argc);
            |CallStep(w, s, dst, callee, args).regs| == |s.regs| && Window(s.regs[..n], first, argc) == args &&
            CallStep(w, Short(s, n), dst, callee, args) == Short(CallStep(w, s, dst, callee, args), n)
  {
    WindowShort(s, first, argc, n);
    PutShort(s, dst, w.reply(s.log, Called(callee, Window(s.regs, first, argc))).value, n);
  }

  lemma ControlShort(w: World, s: State, i: Instr, n: nat)
    requires IsControl(i.op) && n <= |s.regs| && (i.op in {JumpIfFalse, ReturnVal} ==> i.a < n)
    ensures ControlStep(w, false, Short(s, n), i) == Short(ControlStep(w, false, s, i), n)
    ensures |ControlStep(w, false, s, i).regs| == |s.regs|
  {
  }

  lemma ComputeShort(k: Chunk, w: World, s: State, i: Instr, at: nat, n: nat)
    requires !IsControl(i.op) && !IsAccess(i.op) && i.op != CallFunc && i.op != CallMethod
    requires |k.code| > 0 && n <= |s.regs| && InstrOk(i, at, |k.code| - 1, |k.consts|, n)
    ensures i.a < n && Result(k, w, Short(s, n), i) == Result(k, w, s, i)
    ensures Put(Short(s, n), i.a, Result(k, w, s, i)) == Short(Put(s, i.a, Result(k, w, s, i)), n)
    ensures |Put(s, i.a, Result(k, w, s, i)).regs| == |s.regs|
  {
    PutShort(s, i.a, Result(k, w, s, i), n);
  }

  lemma StepShort(k: Chunk, w: World, s: State, n: nat)
    requires Closed(k) && s.status.Running? && s.ip < |k.code| && Limit(k) <= n <= |s.regs|
    ensures |Step(k, w, false, s).regs| == |s.regs|
    ensures Step(k, w, false, Short(s, n)) == Short(Step(k, w, false, s), n)
  {
    hide ControlStep, AccessStep, CallStep, Result, Put, Window;
    var i := k.code[s.ip];
    assert s.ip < |k.code| - 1 ==> InstrOk(i, s.ip, |k.code| - 1, |k.consts|, Limit(k));
    if IsControl(i.op) {
      ControlShort(w, s, i, n);
    } else if IsAccess(i.op) {
      AccessShort(k, w, s, i, n);
    } else if i.op == CallFunc {
      CallShort(w, s, i.a, Callee(None, KName(k, i.b)), i.c, i.offset, n);
    } else if i.op == CallMethod {
      CallShort(w, s, i.a, Callee(Some(KName(k, i.b)), KName(k, i.c)),
                (i.offset / 0x1_0000) % 0x1_0000, i.offset % 0x1_0000, n);
    } else {
      ComputeShort(k, w, s, i, s.ip, n);
    }
  }

  lemma {:induction false} RunShort(k: Chunk, w: World, s: State, n: nat, steps: nat)
    requires Closed(k) && s.ip < |k.code| && Limit(k) <= n <= |s.regs|
    ensures |Run(k, w, s, steps).regs| == |s.regs|
    ensures Run(k, w, Short(s, n), steps) == Short(Run(k, w, s, steps), n)
    decreases steps
  {
    hide Step, InstrOk;
    if !s.status.Running? {
      StoppedShort(k, w, s, n, steps);
    } else if steps > 0 {
      var s' := Step(k, w, false, s);
      StepShort(k, w, s, n);
      StepMovesForward(k, w, false, s);
      if s'.status.Running? {
        RunShort(k, w, s', n, steps - 1);
      } else {
        StoppedShort(k, w, s', n, steps - 1);
      }
    }
  }

  lemma {:induction false} StoppedShort(k: Chunk, w: World, s: State, n: nat, steps: nat)
    requires !s.status.Running? && n <= |s.regs|
    ensures Run(k, w, s, steps) == s && Run(k, w, Short(s, n), steps) == Short(s, n)
    decreases steps
  {
    hide InstrOk;
    if steps > 0 {
      StoppedShort(k, w, s, n, steps - 1);
    }
  }

  /** Register `r` is an operand of the instruction. */
  ghost predicate Names(i: Instr, r: nat) {
    match i.op
    case LoadK => r == i.a
    case LoadKStr => r == i.a
    case DropStr => r == i.a
    case JumpIfFalse => r == i.a
    case ReturnVal => r == i.a
    case Move => r == i.a || r == i.b
    case MoveStr => r == i.a || r == i.b
    case OpNot => r == i.a || r == i.b
    case Truthy => r == i.a || r == i.b
    case Jump => false
    case Ret => false
    case ReturnNil => false
    case CallFunc => r == i.a || i.c <= r < i.c + i.offset
    case CallMethod =>
      var first := (i.offset / 0x1_0000) % 0x1_0000;
      r == i.a || first <= r < first + i.offset % 0x1_0000
    case GetField => r == i.a
    case GetFieldV => r == i.a
    case SetField => r == i.a
    case GetIndex => r == i.a || r == i.c || r == i.offset
    case SetIndex => r == i.a || r == i.c || r == i.offset
    case PrepIndex => (r == i.a && r != NO_REG) || r == i.c
    case _ => r == i.a || r == i.b || r == i.c
  }

  lemma NamedBelowLimit(k: Chunk, at: nat, r: nat)
    requires Closed(k) && at < |k.code| && Names(k.code[at], r)
    ensures r < Limit(k)
  {
    assert at < |k.code| - 1 ==> InstrOk(k.code[at], at, |k.code| - 1, |k.consts|, Limit(k));
  }

  /** The frame size the runtime announces before it runs a chunk. */
  function FrameSize(stackSize: nat, k: Chunk): nat {
    Max(Max(stackSize, k.next), k.maxSlot)
  }

  /** Slots the interpreter clears for a callee: a margin over its parameters, and the caller's frame. */
  function Cleared(stackSize: nat, argc: nat): nat {
    Min(Max(argc + 64, stackSize + 1), MAX_REG)
  }

  /** The stack as the callee finds it: its arguments, then nil, then whatever was there. */
  function Prepared(stack: seq<Value>, stackSize: nat, args: seq<Value>): (s: seq<Value>)
    requires |stack| == MAX_REG && |args| <= MAX_REG
    ensures |s| == MAX_REG
  {
    seq(MAX_REG, i requires 0 <= i < MAX_REG =>
      if i < |args| then args[i] else if i < Cleared(stackSize, |args|) then Nil else stack[i])
  }

  type Body = seq<Value> -> seq<Value>

  /** The stack after a call: the caller's frame, then whatever the callee's body left. */
  function NestedStack(stack: seq<Value>, stackSize: nat, args: seq<Value>, body: Body): (s: seq<Value>)
    requires |stack| == MAX_REG && |args| <= MAX_REG && |body(Prepared(stack, stackSize, args))| == MAX_REG
    ensures |s| == MAX_REG && forall i | 0 <= i < stackSize && i < MAX_REG :: s[i] == stack[i]
  {
    var left := body(Prepared(stack, stackSize, args));
    seq(MAX_REG, i requires 0 <= i < MAX_REG => if i < stackSize then stack[i] else left[i])
  }

  /**
   A call served by the interpreter: the caller's frame is saved, the slots are
   cleared, the arguments bound, the body does as it likes with the whole stack
   (calls of its own included), and the frame is put back.
   */
  method NestedCall(stack: array<Value>, stackSize: nat, args: seq<Value>, body: Body)
    requires stack.Length == MAX_REG && |args| <= MAX_REG && forall s :: |body(s)| == |s|
    modifies stack
    ensures stack[..] == NestedStack(old(stack[..]), stackSize, args, body)
  {
    var saveSlots := if stackSize < MAX_REG then stackSize else MAX_REG;
    var saved := stack[..saveSlots];
    var zeroSlots := Cleared(stackSize, |args|);
    for i := 0 to zeroSlots
      invariant forall j | 0 <= j < MAX_REG :: stack[j] == if j < i then Nil else old(stack[j])
    {
      stack[i] := Nil;
    }
    for i := 0 to |args|
      invariant forall j | 0 <= j < MAX_REG ::
        stack[j] == if j < i then args[j] else if j < zeroSlots then Nil else old(stack[j])
    {
      stack[i] := args[i];
    }
    assert stack[..] == Prepared(old(stack[..]), stackSize, args);
    var after := body(stack[..]);
    for i := 0 to MAX_REG
      invariant forall j | 0 <= j < i :: stack[j] == after[j]
    {
      stack[i] := after[i];
    }
    for i := 0 to saveSlots
      invariant forall j | 0 <= j < MAX_REG :: stack[j] == if j < i then saved[j] else after[j]
    {
      stack[i] := saved[i];
    }
  }

  function Min(x: nat, y: nat): nat {
    if x < y then x else y
  }

  // ----- chunks whose calls are served on the same stack -----

  predicate IsCall(op: Opcode) {
    op == CallFunc || op == CallMethod
  }

  /** The callee and the arguments of a call instruction. */
  function Designated(k: Chunk, s: State, i: Instr): (r: (Callee, seq<Value>))
    requires IsCall(i.op)
    ensures |r.1| <= |s.regs|
  {
    if i.op == CallFunc then
      (Callee(None, KName(k, i.b)), Window(s.regs, i.c, if i.offset < 0 then 0 else i.offset))
    else
      (Callee(Some(KName(k, i.b)), KName(k, i.c)),
       Window(s.regs, (i.offset / 0x1_0000) % 0x1_0000, i.offset % 0x1_0000))
  }

  /** Which calls the interpreter serves, and what their bodies do to the stack; the others leave it alone. */
  type Service = (Log, Event) -> Option<Body>

  ghost predicate KeepsSize(served: Service) {
    forall log, e, regs | served(log, e).Some? :: |served(log, e).value(regs)| == |regs|
  }

  lemma SizeKept(served: Service, log: Log, e: Event, regs: seq<Value>)
    requires KeepsSize(served) && served(log, e).Some?
    ensures |served(log, e).value(regs)| == |regs|
  {
  }

  /** One dispatch on the interpreter's own stack, of which the running chunk has announced `size` slots. */
  ghost function NestedStep(k: Chunk, w: World, size: nat, served: Service, s: State): (t: State)
    requires |s.regs| == MAX_REG && KeepsSize(served)
    ensures |t.regs| == MAX_REG
  {
    if !s.status.Running? || s.ip >= |k.code| || !IsCall(k.code[s.ip].op) then Step(k, w, false, s)
    else
      var i := k.code[s.ip];
      var (callee, args) := Designated(k, s, i);
      match served(s.log, Called(callee, args))
      case None => Step(k, w, false, s)
      case Some(body) =>
        SizeKept(served, s.log, Called(callee, args), Prepared(s.regs, size, args));
        CallStep(w, s.(regs := NestedStack(s.regs, size, args, body)), i.a, callee, args)
  }

  ghost function NestedRun(k: Chunk, w: World, size: nat, served: Service, s: State, n: nat): (t: State)
    requires |s.regs| == MAX_REG && KeepsSize(served)
    ensures |t.regs| == MAX_REG
    decreases n
  {
    if n == 0 then s else NestedRun(k, w, size, served, NestedStep(k, w, size, served, s), n - 1)
  }

  lemma CallOnPrefix(w: World, s: State, t: State, dst: nat, callee: Callee, args: seq<Value>, n: nat)
    requires dst < n <= |s.regs| == |t.regs| && Short(s, n) == Short(t, n)
    ensures |CallStep(w, s, dst, callee, args).regs| == |CallStep(w, t, dst, callee, args).regs| == |s.regs|
    ensures Short(CallStep(w, s, dst, callee, args), n) == Short(CallStep(w, t, dst, callee, args), n)
  {
    var v := w.reply(s.log, Called(callee, args)).value;
    PutShort(s, dst, v, n);
    PutShort(t, dst, v, n);
  }

  /** A call served on the stack changes nothing below the announced size, save its destination. */
  lemma NestedStepShort(k: Chunk, w: World, size: nat, served: Service, s: State)
    requires Closed(k) && s.status.Running? && s.ip < |k.code| && |s.regs| == MAX_REG && KeepsSize(served)
    requires Limit(k) <= size && Limit(k) <= MAX_REG
    ensures |Step(k, w, false, s).regs| == MAX_REG
    ensures Short(NestedStep(k, w, size, served, s), Limit(k)) == Short(Step(k, w, false, s), Limit(k))
  {
    hide CallStep, NestedStack, Prepared, Window, KeepsSize;
    StepShort(k, w, s, MAX_REG);
    var i, n := k.code[s.ip], Limit(k);
    if IsCall(i.op) {
      var (callee, args) := Designated(k, s, i);
      match served(s.log, Called(callee, args))
      case None =>
      case Some(body) =>
        assert s.ip < |k.code| - 1 ==> InstrOk(i, s.ip, |k.code| - 1, |k.consts|, n);
        SizeKept(served, s.log, Called(callee, args), Prepared(s.regs, size, args));
        var t := s.(regs := NestedStack(s.regs, size, args, body));
        assert t.regs[..n] == s.regs[..n];
        CallOnPrefix(w, t, s, i.a, callee, args, n);
    }
  }

  /**
   A chunk whose calls run on its own stack, each leaving arbitrary values above
   the frame the chunk announced: after any number of instructions it is where it
   would be had the calls touched nothing, with the same events and outcome, and
   with the same value in every register it names.
   */
  lemma {:induction false} NestedCallsInvisible(
    k: Chunk, w: World, size: nat, served: Service, s: State, t: State, steps: nat)
    requires Closed(k) && s.ip < |k.code| && |s.regs| == |t.regs| == MAX_REG && KeepsSize(served)
    requires Limit(k) <= size && Limit(k) <= MAX_REG && Short(s, Limit(k)) == Short(t, Limit(k))
    ensures |Run(k, w, t, steps).regs| == MAX_REG
    ensures Short(NestedRun(k, w, size, served, s, steps), Limit(k)) == Short(Run(k, w, t, steps), Limit(k))
    decreases steps
  {
    hide Step, NestedStep, InstrOk, Closed, KeepsSize;
    if steps > 0 {
      var s', t' := NestedStep(k, w, size, served, s), Step(k, w, false, t);
      if s.status.Running? {
        StepShort(k, w, t, MAX_REG);
        NestedStepShort(k, w, size, served, s);
        StepShort(k, w, s, Limit(k));
        StepShort(k, w, t, Limit(k));
        StepMovesForward(k, w, false, t);
      } else {
        StoppedSteps(k, w, size, served, s);
        StoppedSteps(k, w, size, served, t);
      }
      if s'.status.Running? {
        NestedCallsInvisible(k, w, size, served, s', t', steps - 1);
      } else {
        NestedStopped(k, w, size, served, s', steps - 1);
        StoppedShort(k, w, t', MAX_REG, steps - 1);
      }
    }
  }

  lemma StoppedSteps(k: Chunk, w: World, size: nat, served: Service, s: State)
    requires !s.status.Running? && |s.regs| == MAX_REG && KeepsSize(served)
    ensures NestedStep(k, w, size, served, s) == s && Step(k, w, false, s) == s
  {
  }

  lemma {:induction false} NestedStopped(k: Chunk, w: World, size: nat, served: Service, s: State, steps: nat)
    requires !s.status.Running? && |s.regs| == MAX_REG && KeepsSize(served)
    ensures NestedRun(k, w, size, served, s, steps) == s
    decreases steps
  {
    hide KeepsSize, NestedStep;
    if steps > 0 {
      StoppedSteps(k, w, size, served, s);
      NestedStopped(k, w, size, served, s, steps - 1);
    }
  }

  /** The frame the runtime announces for a loop covers every register the loop names, high locals included. */
  lemma AnnouncedFrameSuffices(p: Probe, loop: Stmt, stackSize: nat, at: nat, r: nat)
    requires CompileLoop(p, loop).Some?
    requires var k := CompileLoop(p, loop).value; at < |k.code| && Names(k.code[at], r)
    ensures var k := CompileLoop(p, loop).value; r < Limit(k) <= FrameSize(stackSize, k)
    ensures stackSize <= FrameSize(stackSize, CompileLoop(p, loop).value)
  {
    LoopChunkClosed(p, loop);
    NamedBelowLimit(CompileLoop(p, loop).value, at, r);
  }

  /**
   So nested calls are invisible to every compiled loop whose registers fit the
   stack, wherever its locals are.
   */
  lemma LoopCallsInvisible(p: Probe, loop: Stmt, w: World, stackSize: nat, served: Service, m: State, steps: nat)
    requires CompileLoop(p, loop).Some? && KeepsSize(served) && m.ip == 0 && |m.regs| == MAX_REG
    requires Limit(CompileLoop(p, loop).value) <= MAX_REG
    ensures var k := CompileLoop(p, loop).value;
            && |Run(k, w, m, steps).regs| == MAX_REG
            && Short(NestedRun(k, w, FrameSize(stackSize, k), served, m, steps), Limit(k))
            == Short(Run(k, w, m, steps), Limit(k))
  {
    hide Run, NestedRun, KeepsSize, CompileLoop;
    LoopChunkClosed(p, loop);
    var k := CompileLoop(p, loop).value;
    NestedCallsInvisible(k, w, FrameSize(stackSize, k), served, m, m, steps);
  }

  /** A callee sees nothing of its caller's frame, nor anything else within 64 slots of its parameters. */
  lemma NothingOfTheCaller(stack: seq<Value>, stackSize: nat, args: seq<Value>, i: nat)
    requires |stack| == MAX_REG && |args| <= i < MAX_REG && (i < stackSize || i < |args| + 64)
    ensures Prepared(stack, stackSize, args)[i] == Nil
  {
    assert i < Cleared(stackSize, |args|);
  }
}
