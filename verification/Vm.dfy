/** The register machine: one instruction at a time, and whole runs of it. */
module Vm {
  import opened Values
  import opened Ast
  import opened Bytecode
  import opened Callbacks

  datatype Status = Running | Stopped | Returned(result: Value)

  /** `regs` is the runtime's value stack: locals below TEMP_BASE, temporaries above. */
  datatype State = State(ip: nat, regs: seq<Value>, log: Log, status: Status)

  /** Truth of a branch condition. */
  function TruthyCond(ops: FloatOps, v: Value): bool {
    match v
    case Bool(b) => b != 0
    case Int(i) => i != 0
    case Float(f) => ops.NonZero(f)
    case _ => false
  }

  /** Truth under `!`: nil is false and every other non-number is true. */
  function TruthyNot(ops: FloatOps, v: Value): bool {
    match v
    case Bool(b) => b != 0
    case Int(i) => i != 0
    case Float(f) => ops.NonZero(f)
    case Nil => false
    case _ => true
  }

  /** Truth under `&&` and `||`: a zero float is true here. */
  function TruthyLogic(v: Value): bool {
    match v
    case Bool(b) => b != 0
    case Int(i) => i != 0
    case _ => !v.Nil?
  }

  /** The double an operand stands for; anything that is not a number counts as 0.0. */
  function AsDouble(ops: FloatOps, v: Value): Bits {
    match v
    case Int(i) => ops.ofInt(i)
    case Float(f) => f
    case _ => ops.ofInt(0)
  }

  function FromDouble(ops: FloatOps, bothInt: bool, res: Bits): Value {
    if bothInt then Int(ops.toInt(res)) else Float(res)
  }

  function Arith(ops: FloatOps, l: Value, r: Value, op: Opcode): Value {
    var bothInt := l.Int? && r.Int?;
    var lv, rv := AsDouble(ops, l), AsDouble(ops, r);
    match op
    case OpAdd => FromDouble(ops, bothInt, ops.add(lv, rv))
    case OpSub => FromDouble(ops, bothInt, ops.sub(lv, rv))
    case OpMul => FromDouble(ops, bothInt, ops.mul(lv, rv))
    case OpDiv =>
      FromDouble(ops, bothInt, if ops.NonZero(rv) then ops.div(lv, rv) else ops.ofInt(0))
    case OpMod =>
      if bothInt && ops.toInt(rv) != 0 then Int(TruncRem(ops.toInt(lv), ops.toInt(rv))) else Int(0)
    case _ => FromDouble(ops, bothInt, ops.ofInt(0))
  }

  function SameValue(ops: FloatOps, l: Value, r: Value): bool {
    match (l, r)
    case (Nil, Nil) => true
    case (Int(a), Int(b)) => a == b
    case (Float(a), Float(b)) => ops.eq(a, b)
    case (Bool(a), Bool(b)) => a == b
    case (Str(a), Str(b)) => a == b
    case _ => false
  }

  function Compare(ops: FloatOps, l: Value, r: Value, op: Opcode): Value {
    if op == OpEq then OfBool(SameValue(ops, l, r))
    else if op == OpNeq then OfBool(!SameValue(ops, l, r))
    else if l.Int? && r.Int? then
      match op
      case OpLt => OfBool(l.i < r.i)
      case OpGt => OfBool(l.i > r.i)
      case OpLte => OfBool(l.i <= r.i)
      case OpGte => OfBool(l.i >= r.i)
      case _ => Bool(0)
    else if !(l.Int? || l.Float?) || !(r.Int? || r.Float?) then Bool(0)
    else
      var lv, rv := AsDouble(ops, l), AsDouble(ops, r);
      match op
      case OpLt => OfBool(ops.lt(lv, rv))
      case OpGt => OfBool(ops.lt(rv, lv))
      case OpLte => OfBool(ops.le(lv, rv))
      case OpGte => OfBool(ops.le(rv, lv))
      case _ => Bool(0)
  }

  /** Addition and subtraction of two integers bypass the double path. */
  function BinaryResult(ops: FloatOps, op: Opcode, l: Value, r: Value): Value {
    match op
    case OpAdd => if l.Int? && r.Int? then Int(l.i + r.i) else Arith(ops, l, r, op)
    case OpSub => if l.Int? && r.Int? then Int(l.i - r.i) else Arith(ops, l, r, op)
    case OpMul => Arith(ops, l, r, op)
    case OpDiv => Arith(ops, l, r, op)
    case OpMod => Arith(ops, l, r, op)
    case _ => Compare(ops, l, r, op)
  }

  predicate IsBinary(op: Opcode) {
    op in {OpAdd, OpSub, OpMul, OpDiv, OpMod, OpEq, OpNeq, OpLt, OpGt, OpLte, OpGte}
  }

  function Reg(regs: seq<Value>, r: nat): Value {
    if r < |regs| then regs[r] else Nil
  }

  function Konst(k: Chunk, i: nat): Value {
    if i < |k.consts| then k.consts[i] else Nil
  }

  function KName(k: Chunk, i: nat): Name {
    var v := Konst(k, i);
    if v.Str? then v.s else []
  }

  /** Stores into register `r` and moves on to the next instruction. */
  function Put(s: State, r: nat, v: Value): State {
    s.(ip := s.ip + 1, regs := if r < |s.regs| then s.regs[r := v] else s.regs)
  }

  function Window(regs: seq<Value>, first: nat, argc: nat): seq<Value> {
    if first + argc <= |regs| then regs[first..first + argc] else []
  }

  function CallStep(w: World, s: State, dst: nat, callee: Callee, args: seq<Value>): State {
    var r := w.reply(s.log, Called(callee, args));
    Put(s, dst, r.value).(log := r.log)
  }

  function GoTo(s: State, target: int): State {
    s.(ip := if target < 0 then 0 else target)
  }

  /** The values a scalar field register may receive. */
  function ScalarOrNil(v: Value): Value {
    if Tag(v) > 3 then Nil else v
  }

  /** Field and array opcodes, which only forward to their callbacks. */
  function AccessStep(k: Chunk, w: World, s: State, i: Instr): State
    requires IsAccess(i.op)
  {
    match i.op
    case GetField =>
      var r := w.reply(s.log, FieldRead(KName(k, i.b), KName(k, i.c)));
      Put(s, i.a, r.value).(log := r.log)
    case GetFieldV =>
      var r := w.reply(s.log, FieldRead(KName(k, i.b), KName(k, i.c)));
      Put(s, i.a, ScalarOrNil(r.value)).(log := r.log)
    case SetField =>
      var r := w.reply(s.log, FieldWritten(KName(k, i.b), KName(k, i.c), Reg(s.regs, i.a)));
      s.(ip := s.ip + 1, log := r.log)
    case GetIndex =>
      var r := w.reply(s.log, IndexRead(KName(k, i.b), i.offset, Reg(s.regs, i.c)));
      var s' := Put(s, i.a, r.value).(log := r.log);
      if r.raised then s'.(status := Stopped) else s'
    case PrepIndex =>
      var r := w.reply(s.log, IndexChecked(KName(k, i.b), if i.a == NO_REG then -1 else i.a, Reg(s.regs, i.c)));
      var s' := s.(log := r.log);
      if r.raised then s'.(status := Stopped)
      else if r.value.Bool? && r.value.b != 0 then s'.(ip := s.ip + 1)
      else GoTo(s', i.offset)
    case SetIndex =>
      var r := w.reply(s.log, IndexWritten(KName(k, i.b), i.offset, Reg(s.regs, i.c), Reg(s.regs, i.a)));
      var s' := s.(ip := s.ip + 1, log := r.log);
      if r.raised then s'.(status := Stopped) else s'
  }

  /** What an instruction that only computes stores in its destination. */
  function Result(k: Chunk, w: World, s: State, i: Instr): Value {
    match i.op
    case LoadK => Konst(k, i.b)
    case LoadKStr => Konst(k, i.b)
    case Move => Reg(s.regs, i.b)
    case MoveStr => Reg(s.regs, i.b)
    case DropStr => Nil
    case OpNot => OfBool(!TruthyNot(w.ops, Reg(s.regs, i.b)))
    case Truthy => OfBool(TruthyLogic(Reg(s.regs, i.b)))
    case _ => BinaryResult(w.ops, i.op, Reg(s.regs, i.b), Reg(s.regs, i.c))
  }

  predicate IsAccess(op: Opcode) {
    op in {GetField, GetFieldV, SetField, GetIndex, PrepIndex, SetIndex}
  }

  predicate IsControl(op: Opcode) {
    op in {JumpIfFalse, Jump, Ret, ReturnVal, ReturnNil}
  }

  function ControlStep(w: World, cancel: bool, s: State, i: Instr): State
    requires IsControl(i.op)
  {
    match i.op
    case JumpIfFalse =>
      if TruthyCond(w.ops, Reg(s.regs, i.a)) then s.(ip := s.ip + 1) else GoTo(s, i.offset)
    case Jump => if cancel then s.(status := Stopped) else GoTo(s, i.offset)
    case Ret => s.(status := Stopped)
    case ReturnVal => s.(status := Returned(Reg(s.regs, i.a)))
    case ReturnNil => s.(status := Returned(Nil))
  }

  /** One dispatch of `vm_run`, with the cancel flag as read at that moment. */
  function Step(k: Chunk, w: World, cancel: bool, s: State): State {
    if !s.status.Running? then s
    else if s.ip >= |k.code| then s.(status := Stopped)
    else
      var i := k.code[s.ip];
      if IsControl(i.op) then ControlStep(w, cancel, s, i)
      else if IsAccess(i.op) then AccessStep(k, w, s, i)
      else if i.op == CallFunc then
        CallStep(w, s, i.a, Callee(None, KName(k, i.b)), Window(s.regs, i.c, if i.offset < 0 then 0 else i.offset))
      else if i.op == CallMethod then
        CallStep(w, s, i.a, Callee(Some(KName(k, i.b)), KName(k, i.c)),
                 Window(s.regs, (i.offset / 0x1_0000) % 0x1_0000, i.offset % 0x1_0000))
      else Put(s, i.a, Result(k, w, s, i))
  }

  /** The state after `n` dispatches that never see the cancel flag. */
  function Run(k: Chunk, w: World, s: State, n: nat): State
    decreases n
  {
    if n == 0 then s else Run(k, w, Step(k, w, false, s), n - 1)
  }

  /** Some number of dispatches leads from `s` to `s'`. */
  ghost predicate Reaches(k: Chunk, w: World, s: State, s': State) {
    exists n: nat :: Run(k, w, s, n) == s'
  }

  /** Reached, and not without executing anything. */
  ghost predicate Progresses(k: Chunk, w: World, s: State, s': State) {
    exists n: nat :: n > 0 && Run(k, w, s, n) == s'
  }

  lemma {:induction false} RunCompose(k: Chunk, w: World, s: State, n: nat, m: nat)
    ensures Run(k, w, s, n + m) == Run(k, w, Run(k, w, s, n), m)
    decreases n
  {
    if n > 0 {
      RunCompose(k, w, Step(k, w, false, s), n - 1, m);
    }
  }

  lemma ReachesSelf(k: Chunk, w: World, s: State)
    ensures Reaches(k, w, s, s)
  {
    assert Run(k, w, s, 0) == s;
  }

  lemma ReachesTrans(k: Chunk, w: World, s: State, s1: State, s2: State)
    requires Reaches(k, w, s, s1) && Reaches(k, w, s1, s2)
    ensures Reaches(k, w, s, s2)
  {
    var n: nat :| Run(k, w, s, n) == s1;
    var m: nat :| Run(k, w, s1, m) == s2;
    RunCompose(k, w, s, n, m);
  }

  lemma ProgressTrans(k: Chunk, w: World, s: State, s1: State, s2: State)
    requires Reaches(k, w, s, s1) && Progresses(k, w, s1, s2)
    ensures Progresses(k, w, s, s2) && Reaches(k, w, s, s2)
  {
    var n: nat :| Run(k, w, s, n) == s1;
    var m: nat :| m > 0 && Run(k, w, s1, m) == s2;
    RunCompose(k, w, s, n, m);
  }

  lemma TransProgress(k: Chunk, w: World, s: State, s1: State, s2: State)
    requires Progresses(k, w, s, s1) && Reaches(k, w, s1, s2)
    ensures Progresses(k, w, s, s2) && Reaches(k, w, s, s2)
  {
    var n: nat :| n > 0 && Run(k, w, s, n) == s1;
    var m: nat :| Run(k, w, s1, m) == s2;
    RunCompose(k, w, s, n, m);
  }

  lemma ReachesStep(k: Chunk, w: World, s: State)
    ensures Reaches(k, w, s, Step(k, w, false, s))
  {
    assert Run(k, w, s, 1) == Run(k, w, Step(k, w, false, s), 0);
  }

  /** The machine is running and about to execute `i`. */
  ghost predicate Fetches(k: Chunk, s: State, i: Instr) {
    s.status.Running? && s.ip < |k.code| && k.code[s.ip] == i && |s.regs| == MAX_REG
  }

  function Stored(s: State, r: nat, v: Value): State
    requires r < |s.regs|
  {
    s.(ip := s.ip + 1, regs := s.regs[r := v])
  }

  lemma StepLoad(k: Chunk, w: World, s: State, i: Instr)
    requires Fetches(k, s, i) && i.op in {LoadK, LoadKStr} && i.a < MAX_REG && i.b < |k.consts|
    ensures Reaches(k, w, s, Stored(s, i.a, k.consts[i.b]))
  {
    ReachesStep(k, w, s);
  }

  lemma StepMove(k: Chunk, w: World, s: State, i: Instr)
    requires Fetches(k, s, i) && i.op in {Move, MoveStr} && i.a < MAX_REG && i.b < MAX_REG
    ensures Reaches(k, w, s, Stored(s, i.a, s.regs[i.b]))
  {
    ReachesStep(k, w, s);
  }

  lemma StepDrop(k: Chunk, w: World, s: State, i: Instr)
    requires Fetches(k, s, i) && i.op == DropStr && i.a < MAX_REG
    ensures Reaches(k, w, s, Stored(s, i.a, Nil))
  {
    ReachesStep(k, w, s);
  }

  lemma StepNot(k: Chunk, w: World, s: State, i: Instr)
    requires Fetches(k, s, i) && i.op == OpNot && i.a < MAX_REG && i.b < MAX_REG
    ensures Reaches(k, w, s, Stored(s, i.a, OfBool(!TruthyNot(w.ops, s.regs[i.b]))))
  {
    ReachesStep(k, w, s);
  }

  lemma StepTruthy(k: Chunk, w: World, s: State, i: Instr)
    requires Fetches(k, s, i) && i.op == Truthy && i.a < MAX_REG && i.b < MAX_REG
    ensures Reaches(k, w, s, Stored(s, i.a, OfBool(TruthyLogic(s.regs[i.b]))))
  {
    ReachesStep(k, w, s);
  }

  lemma StepBinary(k: Chunk, w: World, s: State, i: Instr)
    requires Fetches(k, s, i) && IsBinary(i.op) && i.a < MAX_REG && i.b < MAX_REG && i.c < MAX_REG
    ensures Reaches(k, w, s, Stored(s, i.a, BinaryResult(w.ops, i.op, s.regs[i.b], s.regs[i.c])))
  {
    ReachesStep(k, w, s);
  }

  lemma StepBranch(k: Chunk, w: World, s: State, i: Instr)
    requires Fetches(k, s, i) && i.op == JumpIfFalse && i.a < MAX_REG && 0 <= i.offset
    ensures Progresses(k, w, s, s.(ip := if TruthyCond(w.ops, s.regs[i.a]) then s.ip + 1 else i.offset))
  {
    assert Run(k, w, s, 1) == Run(k, w, Step(k, w, false, s), 0);
  }

  lemma StepJump(k: Chunk, w: World, s: State, i: Instr)
    requires Fetches(k, s, i) && i.op == Jump && 0 <= i.offset
    ensures Reaches(k, w, s, s.(ip := i.offset))
  {
    ReachesStep(k, w, s);
  }

  lemma StepReturn(k: Chunk, w: World, s: State, i: Instr)
    requires Fetches(k, s, i) && i.op in {Ret, ReturnVal, ReturnNil} && i.a < MAX_REG
    ensures Reaches(k, w, s, s.(status := if i.op == Ret then Stopped
                                          else if i.op == ReturnNil then Returned(Nil) else Returned(s.regs[i.a])))
  {
    ReachesStep(k, w, s);
  }

  /** The callee and the window of registers a call instruction designates. */
  ghost predicate Designates(k: Chunk, s: State, i: Instr, callee: Callee, args: seq<Value>) {
    match i.op
    case CallFunc =>
      && callee.owner.None? && i.b < |k.consts| && k.consts[i.b] == Str(callee.name)
      && 0 <= i.offset && i.c + i.offset <= |s.regs| && args == s.regs[i.c..i.c + i.offset]
    case CallMethod =>
      var first, argc := (i.offset / 0x1_0000) % 0x1_0000, i.offset % 0x1_0000;
      && callee.owner.Some? && i.b < |k.consts| && k.consts[i.b] == Str(callee.owner.value)
      && i.c < |k.consts| && k.consts[i.c] == Str(callee.name)
      && first + argc <= |s.regs| && args == s.regs[first..first + argc]
    case _ => false
  }

  lemma StepCall(k: Chunk, w: World, s: State, i: Instr, callee: Callee, args: seq<Value>)
    requires Fetches(k, s, i) && i.a < MAX_REG && Designates(k, s, i, callee, args)
    ensures var r := w.reply(s.log, Called(callee, args));
            Reaches(k, w, s, Stored(s, i.a, r.value).(log := r.log))
  {
    ReachesStep(k, w, s);
  }
}
