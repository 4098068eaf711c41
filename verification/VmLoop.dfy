/**
 The dispatch loop as it runs, on a register array updated in place.  A closed
 chunk lets every operand be used as an array index without a check.
 */
module VmLoop {
  import opened Values
  import opened Ast
  import opened Bytecode
  import opened Callbacks
  import opened Vm
  import opened ChunkSafety
  import opened Cancellation

  /** The instruction about to run, with its operands in range. */
  ghost predicate Ready(k: Chunk, ip: nat, R: array<Value>) {
    && Closed(k) && ip < |k.code| && Limit(k) <= R.Length
  }

  lemma OperandsFit(k: Chunk, ip: nat, n: nat)
    requires Closed(k) && ip < |k.code| && Limit(k) <= n
    ensures k.code[ip].op in {Ret, ReturnNil} || InstrOk(k.code[ip], ip, |k.code| - 1, |k.consts|, n)
  {
    assert ip < |k.code| - 1 ==> InstrOk(k.code[ip], ip, |k.code| - 1, |k.consts|, Limit(k));
  }

  /** Opcodes that write one register from constants and other registers. */
  method Compute(k: Chunk, w: World, ip: nat, R: array<Value>, log: Log)
    requires Ready(k, ip, R)
    requires var op := k.code[ip].op; !IsControl(op) && !IsAccess(op) && op != CallFunc && op != CallMethod
    modifies R
    ensures State(ip + 1, R[..], log, Running) == Step(k, w, false, State(ip, old(R[..]), log, Running))
  {
    OperandsFit(k, ip, R.Length);
    var i := k.code[ip];
    if i.op == LoadK || i.op == LoadKStr {
      R[i.a] := k.consts[i.b];
    } else if i.op == Move || i.op == MoveStr {
      R[i.a] := R[i.b];
    } else if i.op == DropStr {
      R[i.a] := Nil;
    } else if i.op == OpNot {
      R[i.a] := OfBool(!TruthyNot(w.ops, R[i.b]));
    } else if i.op == Truthy {
      R[i.a] := OfBool(TruthyLogic(R[i.b]));
    } else {
      R[i.a] := Binary(w, i.op, R[i.b], R[i.c]);
    }
  }

  /** Two integers are added, subtracted and compared without going through doubles. */
  function Binary(w: World, op: Opcode, l: Value, r: Value): (v: Value)
    ensures v == BinaryResult(w.ops, op, l, r)
  {
    match op
    case OpAdd => if l.Int? && r.Int? then Int(l.i + r.i) else Arith(w.ops, l, r, op)
    case OpSub => if l.Int? && r.Int? then Int(l.i - r.i) else Arith(w.ops, l, r, op)
    case OpMul => Arith(w.ops, l, r, op)
    case OpDiv => Arith(w.ops, l, r, op)
    case OpMod => Arith(w.ops, l, r, op)
    case OpLt => if l.Int? && r.Int? then OfBool(l.i < r.i) else Compare(w.ops, l, r, op)
    case _ => Compare(w.ops, l, r, op)
  }

  /** Jumps and returns; they read at most one register. */
  method Control(k: Chunk, w: World, cancel: bool, ip: nat, R: array<Value>, log: Log)
    returns (ip': nat, status: Status)
    requires Ready(k, ip, R) && IsControl(k.code[ip].op)
    ensures State(ip', R[..], log, status) == Step(k, w, cancel, State(ip, R[..], log, Running))
  {
    OperandsFit(k, ip, R.Length);
    var i := k.code[ip];
    ip', status := ip, Running;
    match i.op {
      case JumpIfFalse => ip' := if TruthyCond(w.ops, R[i.a]) then ip + 1 else i.offset;
      case Jump => if cancel { status := Stopped; } else { ip' := i.offset; }
      case Ret => status := Stopped;
      case ReturnVal => status := Returned(R[i.a]);
      case ReturnNil => status := Returned(Nil);
    }
  }

  method Call(k: Chunk, w: World, ip: nat, R: array<Value>, log: Log) returns (log': Log)
    requires Ready(k, ip, R) && k.code[ip].op in {CallFunc, CallMethod}
    modifies R
    ensures State(ip + 1, R[..], log', Running) == Step(k, w, false, State(ip, old(R[..]), log, Running))
  {
    OperandsFit(k, ip, R.Length);
    var i := k.code[ip];
    var callee, first, argc := Callee(None, KName(k, i.b)), i.c, i.offset;
    if i.op == CallMethod {
      callee := Callee(Some(KName(k, i.b)), KName(k, i.c));
      first, argc := (i.offset / 0x1_0000) % 0x1_0000, i.offset % 0x1_0000;
    }
    assert Window(R[..], first, argc) == R[first..first + argc];
    var r := w.reply(log, Called(callee, R[first..first + argc]));
    R[i.a], log' := r.value, r.log;
  }

  /** Field and array opcodes; a failed index ends the run. */
  method Access(k: Chunk, w: World, ip: nat, R: array<Value>, log: Log)
    returns (ip': nat, log': Log, status: Status)
    requires Ready(k, ip, R) && IsAccess(k.code[ip].op)
    modifies R
    ensures State(ip', R[..], log', status) == Step(k, w, false, State(ip, old(R[..]), log, Running))
  {
    OperandsFit(k, ip, R.Length);
    var i := k.code[ip];
    ip', status := ip + 1, Running;
    var name := KName(k, i.b);
    var r: Reply;
    match i.op {
      case GetField => r := w.reply(log, FieldRead(name, KName(k, i.c))); R[i.a] := r.value;
      case GetFieldV => r := w.reply(log, FieldRead(name, KName(k, i.c))); R[i.a] := ScalarOrNil(r.value);
      case SetField => r := w.reply(log, FieldWritten(name, KName(k, i.c), R[i.a]));
      case GetIndex => r := w.reply(log, IndexRead(name, i.offset, R[i.c])); R[i.a] := r.value;
      case SetIndex => r := w.reply(log, IndexWritten(name, i.offset, R[i.c], R[i.a]));
      case PrepIndex =>
        r := w.reply(log, IndexChecked(name, if i.a == NO_REG then -1 else i.a, R[i.c]));
        if r.raised { ip' := ip; }
        else if !(r.value.Bool? && r.value.b != 0) { ip' := i.offset; }
    }
    if r.raised && i.op in {GetIndex, SetIndex, PrepIndex} { status := Stopped; }
    log' := r.log;
  }

  method Dispatch(k: Chunk, w: World, cancel: bool, ip: nat, R: array<Value>, log: Log)
    returns (ip': nat, log': Log, status: Status)
    requires Ready(k, ip, R)
    modifies R
    ensures State(ip', R[..], log', status) == Step(k, w, cancel, State(ip, old(R[..]), log, Running))
    ensures status.Running? ==> ip' < |k.code|
  {
    hide Closed, InstrOk, AccessStep, CallStep, Put, Result, Window;
    StepMovesForward(k, w, cancel, State(ip, R[..], log, Running));
    var op := k.code[ip].op;
    ip', log', status := ip + 1, log, Running;
    if IsControl(op) {
      ip', status := Control(k, w, cancel, ip, R, log);
    } else if IsAccess(op) {
      ip', log', status := Access(k, w, ip, R, log);
    } else if op == CallFunc || op == CallMethod {
      log' := Call(k, w, ip, R, log);
    } else {
      Compute(k, w, ip, R, log);
    }
  }

  /**
   `flags[j]` is the cancel flag as dispatch `j` would find it.  The loop stops
   when the chunk does, or after as many dispatches as there are flags.
   */
  method VmRun(k: Chunk, w: World, R: array<Value>, log: Log, flags: seq<bool>)
    returns (ip: nat, log': Log, status: Status)
    requires Closed(k) && Limit(k) <= R.Length
    modifies R
    ensures State(ip, R[..], log', status) == RunFlags(k, w, State(0, old(R[..]), log, Running), flags)
  {
    hide Step;
    ghost var start := State(0, R[..], log, Running);
    ip, log', status := 0, log, Running;
    var j := 0;
    while j < |flags| && status.Running?
      invariant j <= |flags| && (status.Running? ==> ip < |k.code|)
      invariant State(ip, R[..], log', status) == RunFlags(k, w, start, flags[..j])
    {
      ghost var s := State(ip, R[..], log', status);
      ip, log', status := Dispatch(k, w, flags[j], ip, R, log');
      RunFlagsCompose(k, w, start, flags[..j], flags[j..j + 1]);
      assert flags[..j] + flags[j..j + 1] == flags[..j + 1];
      assert RunFlags(k, w, s, flags[j..j + 1]) == Step(k, w, flags[j], s) by {
        assert flags[j..j + 1][1..] == [];
      }
      j := j + 1;
    }
    RunFlagsCompose(k, w, start, flags[..j], flags[j..]);
    assert flags[..j] + flags[j..] == flags;
    if !status.Running? {
      StoppedStays(k, w, State(ip, R[..], log', status), flags[j..]);
    } else {
      assert flags[j..] == [];
    }
  }
}
