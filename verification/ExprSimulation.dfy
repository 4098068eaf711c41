/** Running the code of an expression computes what the tree walker evaluates it to. */
module ExprSimulation {
  import opened Values
  import opened Ast
  import opened Bytecode
  import opened Callbacks
  import opened Compiler
  import opened Vm
  import opened TreeWalker

  /** The final chunk `k` carries what compilation appended between `c` and `c'`. */
  ghost predicate Embeds(k: Chunk, c: Chunk, c': Chunk) {
    && |c'.code| <= |k.code| && (forall i | |c.code| <= i < |c'.code| :: k.code[i] == c'.code[i])
    && |c'.consts| <= |k.consts| && (forall i | |c.consts| <= i < |c'.consts| :: k.consts[i] == c'.consts[i])
  }

  ghost predicate Alive(s: State) {
    s.status.Running? && |s.regs| == MAX_REG
  }

  ghost predicate LocalsAgree(s: State, f: Frame) {
    |s.regs| == |f.slots| == MAX_REG && forall i | 0 <= i < TEMP_BASE :: s.regs[i] == f.slots[i]
  }

  /** The machine stands where the code of the next construct begins. */
  ghost predicate At(c: Chunk, s: State, f: Frame, log: Log) {
    c.ok && TEMP_BASE <= c.next && Alive(s) && LocalsAgree(s, f) && s.ip == |c.code| && s.log == log
  }

  /** Registers below `lim` are as they were. */
  ghost predicate Keeps(s: State, s': State, lim: nat) {
    |s.regs| == |s'.regs| && forall i | 0 <= i < lim && i < |s.regs| :: s'.regs[i] == s.regs[i]
  }

  /** The machine has run past the construct, with the value in register `r`. */
  ghost predicate Computed(c: Chunk, c': Chunk, r: nat, s: State, s': State, v: Value, log: Log) {
    && Alive(s') && s'.ip == |c'.code| && s'.log == log
    && c.next <= c'.next && r < c'.next && r < MAX_REG
    && s'.regs[r] == v && Keeps(s, s', c.next)
  }

  lemma {:induction false} ExprCorrect(
    p: Probe, c: Chunk, e: Expr, c': Chunk, r: nat, k: Chunk,
    w: World, u: World, f: Frame, log: Log, v: Value, log': Log, s: State) returns (s': State)
    requires Serves(u, w) && ExprSlotsBelow(e, TEMP_BASE)
    requires CompileExpr(p, c, e) == (c', r) && c'.ok && Embeds(k, c, c')
    requires At(c, s, f, log) && Eval(w, e, f, log) == Val(v, log')
    ensures Reaches(k, u, s, s') && Computed(c, c', r, s, s', v, log')
    decreases e, 1
  {
    hide Step, Run;
    match e
    case IntLit(_) => s' := LiteralCorrect(c, e, k, u, s);
    case FloatLit(_) => s' := LiteralCorrect(c, e, k, u, s);
    case BoolLit(_) => s' := LiteralCorrect(c, e, k, u, s);
    case StrLit(_) => s' := LiteralCorrect(c, e, k, u, s);
    case Ident(_, _) => s' := s; ReachesSelf(k, u, s);
    case Not(_) => s' := NotCorrect(p, c, e, c', r, k, w, u, f, log, v, log', s);
    case Logic(_, _, _) => s' := LogicCorrect(p, c, e, c', r, k, w, u, f, log, v, log', s);
    case Binary(_, _, _) => s' := BinaryCorrect(p, c, e, c', r, k, w, u, f, log, v, log', s);
    case Call(callee, args) => s' := CallCorrect(p, c, callee, args, c', r, k, w, u, f, log, v, log', s);
  }

  lemma LiteralCorrect(c: Chunk, e: Expr, k: Chunk, w: World, s: State) returns (s': State)
    requires IsLiteral(e) && CompileLiteral(c, e).0.ok && Embeds(k, c, CompileLiteral(c, e).0)
    requires Alive(s) && s.ip == |c.code|
    ensures Reaches(k, w, s, s')
    ensures var (c', r) := CompileLiteral(c, e);
            Computed(c, c', r, s, s', LiteralValue(e), s.log)
  {
    hide Step, Run;
    StepLoad(k, w, s, k.code[s.ip]);
    s' := Stored(s, c.next, LiteralValue(e));
  }

  lemma {:induction false} NotCorrect(
    p: Probe, c: Chunk, e: Expr, c': Chunk, r: nat, k: Chunk,
    w: World, u: World, f: Frame, log: Log, v: Value, log': Log, s: State) returns (s': State)
    requires e.Not? && Serves(u, w) && ExprSlotsBelow(e, TEMP_BASE)
    requires CompileNot(p, c, e) == (c', r) && c'.ok && Embeds(k, c, c')
    requires At(c, s, f, log) && Eval(w, e, f, log) == Val(v, log')
    ensures Reaches(k, u, s, s') && Computed(c, c', r, s, s', v, log')
    decreases e, 0
  {
    hide Step, Run;
    var (c1, src) := CompileExpr(p, c, e.operand);
    var x := Eval(w, e.operand, f, log);
    var s1 := ExprCorrect(p, c, e.operand, c1, src, k, w, u, f, log, x.v, x.log, s);
    StepNot(k, u, s1, Instr(OpNot, r, src, 0, 0));
    s' := Stored(s1, r, OfBool(!TruthyNot(w.ops, x.v)));
    ReachesTrans(k, u, s, s1, s');
  }

  /** Both tiers give an operator the same value wherever the walker gives one. */
  lemma OperatorsAgree(ops: FloatOps, op: BinOp, l: Value, r: Value)
    requires ExactInts(ops) && !LeavesExactRange(op, l, r) && EvalBinary(ops, op, l, r).Some?
    ensures BinaryResult(ops, BinOpcode(op), l, r) == EvalBinary(ops, op, l, r).value
  {
    if l.Int? && r.Int? && op in {Add, Sub, Lt, Gt, Lte, Gte} {
      assert ExactOn(ops, l.i, r.i) && ExactOn(ops, r.i, l.i);
    }
  }

  lemma {:induction false} BinaryCorrect(
    p: Probe, c: Chunk, e: Expr, c': Chunk, r: nat, k: Chunk,
    w: World, u: World, f: Frame, log: Log, v: Value, log': Log, s: State) returns (s': State)
    requires e.Binary? && Serves(u, w) && ExprSlotsBelow(e, TEMP_BASE)
    requires CompileBinary(p, c, e) == (c', r) && c'.ok && Embeds(k, c, c')
    requires At(c, s, f, log) && Eval(w, e, f, log) == Val(v, log')
    ensures Reaches(k, u, s, s') && Computed(c, c', r, s, s', v, log')
    decreases e, 0
  {
    hide Step, Run;
    var (c1, r1) := CompileExpr(p, c, e.left);
    var (c2, r2) := CompileExpr(p, c1, e.right);
    var x := Eval(w, e.left, f, log);
    var y := Eval(w, e.right, f, x.log);
    var s1 := ExprCorrect(p, c, e.left, c1, r1, k, w, u, f, log, x.v, x.log, s);
    var s2 := ExprCorrect(p, c1, e.right, c2, r2, k, w, u, f, x.log, y.v, y.log, s1);
    ReachesTrans(k, u, s, s1, s2);
    OperatorsAgree(w.ops, e.op, x.v, y.v);
    StepBinary(k, u, s2, Instr(BinOpcode(e.op), r, r1, r2, 0));
    s' := Stored(s2, r, v);
    ReachesTrans(k, u, s, s2, s');
  }

  lemma {:induction false} LogicCorrect(
    p: Probe, c: Chunk, e: Expr, c': Chunk, r: nat, k: Chunk,
    w: World, u: World, f: Frame, log: Log, v: Value, log': Log, s: State) returns (s': State)
    requires e.Logic? && Serves(u, w) && ExprSlotsBelow(e, TEMP_BASE)
    requires CompileLogic(p, c, e) == (c', r) && c'.ok && Embeds(k, c, c')
    requires At(c, s, f, log) && Eval(w, e, f, log) == Val(v, log')
    ensures Reaches(k, u, s, s') && Computed(c, c', r, s, s', v, log')
    decreases e, 0
  {
    hide CompileExpr, CompileArgs;
    hide Step, Run;
    var c1, lr, tl, c3, c4, rr := LogicCode(p, c, e, c', r, k);
    var x := Eval(w, e.left, f, log);
    var s1 := ExprCorrect(p, c, e.left, c1, lr, k, w, u, f, log, x.v, x.log, s);
    var s2 := LeftTested(k, u, s1, e.isAnd, lr, tl, r, |c'.code|);
    ReachesTrans(k, u, s, s1, s2);
    if LogicTruth(x.v) != e.isAnd {
      s' := s2;
    } else {
      var y := Eval(w, e.right, f, x.log);
      var s3 := ExprCorrect(p, c3, e.right, c4, rr, k, w, u, f, x.log, y.v, y.log, s2);
      s' := RightTested(k, u, s, s2, s3, r, rr);
    }
  }

  lemma RightTested(k: Chunk, w: World, s: State, s2: State, s3: State, r: nat, rr: nat) returns (s': State)
    requires Reaches(k, w, s, s2) && Reaches(k, w, s2, s3) && Alive(s3) && r < MAX_REG && rr < MAX_REG
    requires s3.ip < |k.code| && k.code[s3.ip] == Instr(Truthy, r, rr, 0, 0)
    ensures s' == Stored(s3, r, OfBool(LogicTruth(s3.regs[rr]))) && Reaches(k, w, s, s')
  {
    hide Step, Run;
    ReachesTrans(k, w, s, s2, s3);
    StepTruthy(k, w, s3, k.code[s3.ip]);
    s' := Stored(s3, r, OfBool(LogicTruth(s3.regs[rr])));
    ReachesTrans(k, w, s, s3, s');
  }

  /** The instructions a short-circuit operator puts around its right operand. */
  ghost predicate LogicPrefix(k: Chunk, at: nat, isAnd: bool, lr: nat, tl: nat, dst: nat, end: nat) {
    && at + 3 < |k.code|
    && k.code[at] == Instr(Truthy, tl, lr, 0, 0)
    && k.code[at + 1] == Instr(Move, dst, tl, 0, 0)
    && k.code[at + 2] == Instr(JumpIfFalse, tl, 0, 0, if isAnd then end else at + 4)
    && (!isAnd ==> k.code[at + 3] == Instr(Jump, 0, 0, 0, end))
  }

  lemma LogicCode(p: Probe, c: Chunk, e: Expr, c': Chunk, r: nat, k: Chunk)
    returns (c1: Chunk, lr: nat, tl: nat, c3: Chunk, c4: Chunk, rr: nat)
    requires e.Logic? && CompileLogic(p, c, e) == (c', r) && c'.ok && Embeds(k, c, c')
    ensures && CompileExpr(p, c, e.left) == (c1, lr) && CompileExpr(p, c3, e.right) == (c4, rr)
            && c1.ok && c3.ok && c4.ok && tl == c1.next && r == c1.next + 1 < MAX_REG
            && c.next <= c1.next && c3.next == r + 1 <= c4.next == c'.next
            && |c3.code| == |c1.code| + (if e.isAnd then 3 else 4)
            && |c'.code| == |c4.code| + 1 && k.code[|c4.code|] == Instr(Truthy, r, rr, 0, 0)
            && Embeds(k, c, c1) && Embeds(k, c3, c4)
            && LogicPrefix(k, |c1.code|, e.isAnd, lr, tl, r, |c'.code|)
  {
    var left := CompileExpr(p, c, e.left);
    c1, lr := left.0, left.1;
    var (c2, t, dst) := LogicLeft(c1, lr);
    tl, c3 := t, LogicBranch(c2, e.isAnd, t);
    var right := CompileExpr(p, c3, e.right);
    c4, rr := right.0, right.1;
  }

  /** From the left operand's value to the end, or to the start of the right operand. */
  lemma LeftTested(k: Chunk, w: World, s: State, isAnd: bool, lr: nat, tl: nat, dst: nat, end: nat)
    returns (s': State)
    requires Alive(s) && lr < tl && dst == tl + 1 < MAX_REG
    requires LogicPrefix(k, s.ip, isAnd, lr, tl, dst, end)
    ensures Reaches(k, w, s, s')
    ensures && Alive(s') && s'.log == s.log && Keeps(s, s', tl)
            && if LogicTruth(s.regs[lr]) != isAnd
               then s'.ip == end && s'.regs[dst] == OfBool(!isAnd)
               else s'.ip == s.ip + (if isAnd then 3 else 4)
  {
    hide Step, Run;
    var t := OfBool(LogicTruth(s.regs[lr]));
    StepTruthy(k, w, s, k.code[s.ip]);
    var s1 := Stored(s, tl, t);
    StepMove(k, w, s1, k.code[s1.ip]);
    var s2 := Stored(s1, dst, t);
    ReachesTrans(k, w, s, s1, s2);
    StepBranch(k, w, s2, k.code[s2.ip]);
    s' := s2.(ip := if LogicTruth(s.regs[lr]) then s2.ip + 1 else if isAnd then end else s.ip + 4);
    ProgressTrans(k, w, s, s2, s');
    if !isAnd && LogicTruth(s.regs[lr]) {
      s' := LeftTrueInOr(k, w, s, s', end);
    }
  }

  lemma LeftTrueInOr(k: Chunk, w: World, s: State, s3: State, end: nat) returns (s': State)
    requires Reaches(k, w, s, s3) && Alive(s3) && s3.ip < |k.code| && k.code[s3.ip] == Instr(Jump, 0, 0, 0, end)
    ensures s' == s3.(ip := end) && Reaches(k, w, s, s')
  {
    hide Step, Run;
    StepJump(k, w, s3, k.code[s3.ip]);
    s' := s3.(ip := end);
    ReachesTrans(k, w, s, s3, s');
  }

  /** The registers from `first` on hold the given arguments. */
  ghost predicate WindowHolds(s: State, first: nat, vs: seq<Value>) {
    first + |vs| <= |s.regs| && forall j | 0 <= j < |vs| :: s.regs[first + j] == vs[j]
  }

  /** The call reaches the callback with the walker's arguments, after the walker's earlier calls. */
  lemma {:induction false} CallCorrect(
    p: Probe, c: Chunk, callee: Callee, args: seq<Expr>, c': Chunk, r: nat, k: Chunk,
    w: World, u: World, f: Frame, log: Log, v: Value, log': Log, s: State)
    returns (s': State)
    requires Serves(u, w) && forall i | 0 <= i < |args| :: ExprSlotsBelow(args[i], TEMP_BASE)
    requires CompileCall(p, c, callee, args) == (c', r) && c'.ok && Embeds(k, c, c')
    requires At(c, s, f, log) && EvalCall(w, callee, args, f, log) == Val(v, log')
    ensures Reaches(k, u, s, s') && Computed(c, c', r, s, s', v, log')
    decreases args, |args| + 1
  {
    hide Step, Run;
    var c2, c3, kc, m := CallCode(p, c, callee, args, c', r, k);
    var x := EvalArgs(w, args, 0, f, log);
    var s1 := ArgsCorrect(p, c2, args, 0, c.next, c3, k, w, u, f, log, x.vs, x.log, s);
    s' := CallMade(c, c', k, u, s, s1, callee, kc, m, r, x.vs);
  }

  lemma CallCode(p: Probe, c: Chunk, callee: Callee, args: seq<Expr>, c': Chunk, r: nat, k: Chunk)
    returns (c2: Chunk, c3: Chunk, kc: nat, m: nat)
    requires CompileCall(p, c, callee, args) == (c', r) && c'.ok && Embeds(k, c, c')
    ensures && c2.ok && c3.ok && c.next <= c2.next && |c2.code| == |c.code| && |args| <= MAX_ARGS
            && CompileArgs(p, c2, args, 0, c.next) == c3 && Embeds(k, c2, c3)
            && r == c.next + |args| < MAX_REG && c'.next == r + 1
            && |c'.code| == |c3.code| + 1 && k.code[|c3.code|] == CallInstr(callee, kc, m, r, c.next, |args|)
            && CalleeAt(k, callee, kc, m)
  {
    var named := CalleeConsts(p, c, callee);
    kc, m := named.1, named.2;
    c2 := ReserveRegs(named.0, |args|);
    c3 := CompileArgs(p, c2, args, 0, c.next);
  }

  ghost predicate CalleeAt(k: Chunk, callee: Callee, kc: nat, m: nat) {
    && kc < |k.consts| && m < |k.consts|
    && k.consts[kc] == Str(if callee.owner.None? then callee.name else callee.owner.value)
    && (callee.owner.Some? ==> k.consts[m] == Str(callee.name))
  }

  lemma CallMade(
    c: Chunk, c': Chunk, k: Chunk, w: World, s: State, s1: State,
    callee: Callee, kc: nat, m: nat, r: nat, vs: seq<Value>)
    returns (s': State)
    requires |vs| <= MAX_ARGS && r == c.next + |vs| < MAX_REG && CalleeAt(k, callee, kc, m)
    requires Reaches(k, w, s, s1) && Alive(s1) && WindowHolds(s1, c.next, vs) && Keeps(s, s1, c.next)
    requires s1.ip < |k.code| && k.code[s1.ip] == CallInstr(callee, kc, m, r, c.next, |vs|)
    requires |c'.code| == s1.ip + 1 && c'.next == r + 1
    ensures var x := w.reply(s1.log, Called(callee, vs));
            Reaches(k, w, s, s') && Computed(c, c', r, s, s', x.value, x.log)
  {
    hide Step, Run;
    assert s1.regs[c.next..r] == vs;
    CallDecodes(k, s1, callee, kc, m, r, c.next, vs);
    StepCall(k, w, s1, k.code[s1.ip], callee, vs);
    var x := w.reply(s1.log, Called(callee, vs));
    s' := Stored(s1, r, x.value).(log := x.log);
    ReachesTrans(k, w, s, s1, s');
  }

  lemma CallDecodes(k: Chunk, s: State, callee: Callee, kc: nat, m: nat, dst: nat, first: nat, vs: seq<Value>)
    requires |vs| <= MAX_ARGS && first + |vs| < MAX_REG == |s.regs| && s.regs[first..first + |vs|] == vs
    requires CalleeAt(k, callee, kc, m)
    ensures Designates(k, s, CallInstr(callee, kc, m, dst, first, |vs|), callee, vs)
  {
    PackedWindow(first, |vs|);
  }

  /** Unpacking the operand word of a method call gives back what was packed. */
  lemma PackedWindow(first: nat, argc: nat)
    requires first < MAX_REG && argc <= MAX_ARGS
    ensures var word := first * 0x1_0000 + argc;
            (word / 0x1_0000) % 0x1_0000 == first && word % 0x1_0000 == argc
  {
  }

  lemma {:induction false} ArgsCorrect(
    p: Probe, c: Chunk, args: seq<Expr>, i: nat, first: nat, c': Chunk, k: Chunk,
    w: World, u: World, f: Frame, log: Log, vs: seq<Value>, log': Log, s: State)
    returns (s': State)
    requires Serves(u, w) && forall j | 0 <= j < |args| :: ExprSlotsBelow(args[j], TEMP_BASE)
    requires i <= |args| && TEMP_BASE <= first && first + |args| <= MAX_REG
    requires CompileArgs(p, c, args, i, first) == c' && c'.ok && Embeds(k, c, c')
    requires At(c, s, f, log) && EvalArgs(w, args, i, f, log) == Vals(vs, log')
    ensures Reaches(k, u, s, s') && Alive(s') && s'.ip == |c'.code| && s'.log == log'
    ensures |vs| == |args| - i && WindowHolds(s', first + i, vs) && Keeps(s, s', first + i)
    decreases args, |args| - i
  {
    hide Step, Run;
    if i == |args| {
      s' := s;
      ReachesSelf(k, u, s);
    } else {
      var cb := c.(next := first + |args|);
      var c1 := ArgsCode(p, c, args, i, first, c', k);
      var v, log1, rest := ArgsEval(w, args, i, f, log, vs, log');
      var s1 := ArgCorrect(p, cb, args[i], first + i, c1, k, w, u, f, log, v, log1, s);
      s' := ArgsCorrect(p, c1, args, i + 1, first, c', k, w, u, f, log1, rest, log', s1);
      ReachesTrans(k, u, s, s1, s');
      WindowExtends(s, s1, s', first + i, v, rest);
    }
  }

  lemma ArgsCode(p: Probe, c: Chunk, args: seq<Expr>, i: nat, first: nat, c': Chunk, k: Chunk) returns (c1: Chunk)
    requires i < |args| && CompileArgs(p, c, args, i, first) == c' && c'.ok && Embeds(k, c, c')
    ensures CompileArg(p, c.(next := first + |args|), args[i], first + i) == c1 && c1.ok && first + |args| <= c1.next
    ensures CompileArgs(p, c1, args, i + 1, first) == c' && Embeds(k, c, c1) && Embeds(k, c1, c')
  {
    c1 := CompileArg(p, c.(next := first + |args|), args[i], first + i);
  }

  lemma ArgsEval(w: World, args: seq<Expr>, i: nat, f: Frame, log: Log, vs: seq<Value>, log': Log)
    returns (v: Value, log1: Log, rest: seq<Value>)
    requires i < |args| && EvalArgs(w, args, i, f, log) == Vals(vs, log')
    ensures Eval(w, args[i], f, log) == Val(v, log1)
    ensures EvalArgs(w, args, i + 1, f, log1) == Vals(rest, log') && vs == [v] + rest
  {
    var x := Eval(w, args[i], f, log);
    v, log1 := x.v, x.log;
    rest := EvalArgs(w, args, i + 1, f, log1).vs;
  }

  lemma WindowExtends(s: State, s1: State, s': State, first: nat, v: Value, rest: seq<Value>)
    requires first < |s1.regs| && s1.regs[first] == v && WindowHolds(s', first + 1, rest)
    requires Keeps(s, s1, first) && Keeps(s1, s', first + 1)
    ensures WindowHolds(s', first, [v] + rest) && Keeps(s, s', first)
  {
  }

  /** One argument lands in its window register; only it and fresh temporaries change. */
  lemma {:induction false} ArgCorrect(
    p: Probe, c: Chunk, e: Expr, dst: nat, c': Chunk, k: Chunk,
    w: World, u: World, f: Frame, log: Log, v: Value, log': Log, s: State)
    returns (s': State)
    requires Serves(u, w) && ExprSlotsBelow(e, TEMP_BASE)
    requires TEMP_BASE <= dst < c.next && dst < MAX_REG
    requires CompileArg(p, c, e, dst) == c' && c'.ok && Embeds(k, c, c')
    requires At(c, s, f, log) && Eval(w, e, f, log) == Val(v, log')
    ensures Reaches(k, u, s, s') && Alive(s') && s'.ip == |c'.code| && s'.log == log'
    ensures s'.regs[dst] == v && forall j | 0 <= j < c.next && j < MAX_REG && j != dst :: s'.regs[j] == s.regs[j]
    decreases e, 2
  {
    hide Step, Run;
    if IsLiteral(e) {
      StepLoad(k, u, s, k.code[s.ip]);
      s' := Stored(s, dst, LiteralValue(e));
    } else {
      var (c1, r) := CompileExpr(p, c, e);
      s' := ExprCorrect(p, c, e, c1, r, k, w, u, f, log, v, log', s);
      if r != dst {
        var s1 := s';
        StepMove(k, u, s1, k.code[s1.ip]);
        s' := Stored(s1, dst, s1.regs[r]);
        ReachesTrans(k, u, s, s1, s');
      }
    }
  }
}
