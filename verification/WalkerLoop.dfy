/**
 The tree walker as it runs: a recursive evaluator over a stack that it updates in
 place, with loops for arguments, blocks and `while`.
 */
module WalkerLoop {
  import opened Values
  import opened Ast
  import opened Callbacks
  import opened TreeWalker

  /** How an evaluation or a statement ends; `Value?` and `Next?` are the normal ways. */
  datatype EvalEnd = Value(v: Value) | Error | Parted

  datatype ExecEnd = Next | Returning(v: Value) | Failing | Parting | Exhausted

  class Interp {
    const slots: array<Value>
    var size: nat
    var log: Log

    ghost function View(): Frame
      reads this, slots
    {
      Frame(slots[..], size)
    }

    constructor (n: nat, l: Log)
      ensures View() == Frame(seq(n, _ => Nil), 0) && log == l && fresh(slots)
    {
      slots := new Values.Value[n](_ => Nil);
      size, log := 0, l;
      new;
      assert slots[..] == seq(n, _ => Nil);
    }

    /** What the caller may rely on after an evaluation. */
    ghost predicate Evaluates(r: EvalEnd, spec: Evaluated)
      reads this
    {
      match spec
      case Val(v, l) => r == Value(v) && log == l
      case RaisedE => r == Error
      case ApartE => r == Parted
    }

    ghost predicate Executes(r: ExecEnd, spec: Executed)
      reads this, slots
    {
      match spec
      case Done(f, l, sig) =>
        View() == f && log == l && r == (match sig case Normal => Next case Ret(v) => Returning(v))
      case Raised => r == Failing
      case Apart => r == Parting
      case OutOfFuel => r == Exhausted
    }

    method EvalExpr(w: World, e: Expr) returns (r: EvalEnd)
      modifies this`log
      ensures Evaluates(r, Eval(w, e, View(), old(log)))
      decreases e, 1
    {
      match e {
        case IntLit(i) => r := Value(Int(i));
        case FloatLit(x) => r := Value(Float(x));
        case BoolLit(b) => r := Value(Bool(b));
        case StrLit(s) => r := Value(Str(s));
        case Ident(_, slot) =>
          if 0 <= slot < size && slot < slots.Length && !slots[slot].Nil? {
            r := Value(slots[slot]);
          } else {
            r := Error;
          }
        case Not(x) =>
          r := EvalExpr(w, x);
          if r.Value? { r := Value(OfBool(!NotTruth(w.ops, r.v))); }
        case Logic(_, _, _) => r := EvalLogic(w, e);
        case Binary(_, _, _) => r := EvalOperator(w, e);
        case Call(callee, args) => r := CallFunction(w, callee, args);
        case FieldGet(_, _) => r := Parted;
        case IndexGet(_, _, _) => r := Parted;
        case OtherExpr => r := Parted;
      }
    }

    method EvalLogic(w: World, e: Expr) returns (r: EvalEnd)
      requires e.Logic?
      modifies this`log
      ensures Evaluates(r, Eval(w, e, View(), old(log)))
      decreases e, 0
    {
      var l := EvalExpr(w, e.left);
      if !l.Value? { return l; }
      if LogicTruth(l.v) != e.isAnd { return Value(OfBool(!e.isAnd)); }
      var x := EvalExpr(w, e.right);
      if !x.Value? { return x; }
      r := Value(OfBool(LogicTruth(x.v)));
    }

    method EvalOperator(w: World, e: Expr) returns (r: EvalEnd)
      requires e.Binary?
      modifies this`log
      ensures Evaluates(r, Eval(w, e, View(), old(log)))
      decreases e, 0
    {
      hide EvalBinary, LeavesExactRange;
      var l := EvalExpr(w, e.left);
      if !l.Value? { return l; }
      var x := EvalExpr(w, e.right);
      if !x.Value? { return x; }
      if LeavesExactRange(e.op, l.v, x.v) { return Parted; }
      var res := EvalBinary(w.ops, e.op, l.v, x.v);
      r := if res.Some? then Value(res.value) else Error;
    }

    /** Arguments from left to right, then the call; the loop over the arguments always runs to its end. */
    method CallFunction(w: World, callee: Callee, args: seq<Expr>) returns (r: EvalEnd)
      modifies this`log
      ensures Evaluates(r, EvalCall(w, callee, args, View(), old(log)))
      decreases args, |args| + 1
    {
      hide Eval;
      var vs: seq<Values.Value>, i, failure := [], 0, None;
      while i < |args|
        invariant i <= |args| && View() == old(View())
        invariant match failure
          case None => EvalArgs(w, args, 0, View(), old(log)) == After(vs, EvalArgs(w, args, i, View(), log))
          case Some(x) => Ends(x, EvalArgs(w, args, 0, View(), old(log)))
      {
        // once an error is pending, evaluating the rest returns at once
        if failure.None? {
          var x := EvalExpr(w, args[i]);
          if x.Value? {
            ghost var rest := EvalArgs(w, args, i + 1, View(), log);
            assert rest.Vals? ==> vs + ([x.v] + rest.vs) == (vs + [x.v]) + rest.vs;
            vs := vs + [x.v];
          } else {
            failure := Some(x);
          }
        }
        i := i + 1;
      }
      if failure.Some? { return failure.value; }
      assert vs + [] == vs;
      var reply := w.reply(log, Called(callee, vs));
      if reply.raised { return Error; }
      log := reply.log;
      r := Value(reply.value);
    }

    /** The runtime's store: the frame grows to cover the slot. */
    method SetSlot(slot: nat, v: Values.Value)
      requires slot < slots.Length
      modifies this, slots
      ensures View() == WriteSlot(old(View()), slot, v) && log == old(log)
    {
      if slot >= size { size := slot + 1; }
      slots[slot] := v;
    }

    method ExecStmt(cx: Context, fuel: nat, s: Stmt) returns (r: ExecEnd)
      modifies this, slots
      ensures Executes(r, Exec(cx, fuel, s, old(View()), old(log)))
      decreases fuel, s, 1
    {
      hide Eval, EvalCall;
      match s {
        case Decl(_, _, _, _) => r := Declare(cx, fuel, s);
        case Assign(_, _, _) => r := AssignVar(cx, fuel, s);
        case Block(body) => r := ExecBody(cx, fuel, body);
        case If(cond, thn, els) =>
          var x := EvalExpr(cx.world, cond);
          if x.Error? { return Failing; }
          if x.Parted? || (x.v.Str? && x.v.s != []) { return Parting; }
          if CondTruth(cx.world.ops, x.v) {
            r := ExecStmt(cx, fuel, thn);
          } else if els.Some? {
            r := ExecStmt(cx, fuel, els.value);
          } else {
            r := Next;
          }
        case While(_, _) => r := ExecLoop(cx, fuel, s);
        case CallStmt(callee, args) =>
          var x := CallFunction(cx.world, callee, args);
          r := if x.Value? then Next else if x.Error? then Failing else Parting;
        case Return(_) => r := ReturnValue(cx, fuel, s);
        case FieldSet(_, _, _) => r := Parting;
        case IndexSet(_, _, _, _) => r := Parting;
        case OtherStmt => r := Parting;
      }
    }

    method Declare(cx: Context, fuel: nat, s: Stmt) returns (r: ExecEnd)
      requires s.Decl?
      modifies this, slots
      ensures Executes(r, Exec(cx, fuel, s, old(View()), old(log)))
    {
      hide Eval;
      var x := EvalExpr(cx.world, s.value);
      if x.Error? { return Failing; }
      if x.Parted? { return Parting; }
      if s.declType.Some? && s.declType.value != Tag(x.v) { return Failing; }
      if !(0 <= s.slot < slots.Length) { return Parting; }
      SetSlot(s.slot, x.v);
      return Next;
    }

    method AssignVar(cx: Context, fuel: nat, s: Stmt) returns (r: ExecEnd)
      requires s.Assign?
      modifies this, slots
      ensures Executes(r, Exec(cx, fuel, s, old(View()), old(log)))
    {
      hide Eval;
      var x := EvalExpr(cx.world, s.value);
      if x.Error? { return Failing; }
      if x.Parted? { return Parting; }
      if !(0 <= s.slot < size && s.slot < slots.Length) || slots[s.slot].Nil? { return Failing; }
      if Tag(slots[s.slot]) != Tag(x.v) { return Failing; }
      SetSlot(s.slot, x.v);
      return Next;
    }

    method ReturnValue(cx: Context, fuel: nat, s: Stmt) returns (r: ExecEnd)
      requires s.Return?
      modifies this, slots
      ensures Executes(r, Exec(cx, fuel, s, old(View()), old(log)))
    {
      hide Eval;
      if s.result.None? { return Returning(Nil); }
      if IsTailCall(cx, s.result.value) { return Parting; }
      var x := EvalExpr(cx.world, s.result.value);
      r := if x.Value? then Returning(x.v) else if x.Error? then Failing else Parting;
    }

    /** Statements in order until one of them does not end normally. */
    method ExecBody(cx: Context, fuel: nat, body: seq<Stmt>) returns (r: ExecEnd)
      modifies this, slots
      ensures Executes(r, ExecBlock(cx, fuel, body, 0, old(View()), old(log)))
      decreases fuel, body, |body|
    {
      hide Exec;
      ghost var want := ExecBlock(cx, fuel, body, 0, View(), log);
      var i := 0;
      while i < |body|
        invariant i <= |body| && ExecBlock(cx, fuel, body, i, View(), log) == want
      {
        r := ExecStmt(cx, fuel, body[i]);
        if !r.Next? { return; }
        i := i + 1;
      }
      return Next;
    }

    /** The loop, for as many iterations as there is fuel. */
    method ExecLoop(cx: Context, fuel: nat, s: Stmt) returns (r: ExecEnd)
      requires s.While?
      modifies this, slots
      ensures Executes(r, ExecWhile(cx, fuel, s, old(View()), old(log)))
      decreases fuel, s, 0
    {
      hide Exec, Eval;
      ghost var want := ExecWhile(cx, fuel, s, View(), log);
      var left := fuel;
      while left > 0
        invariant 0 <= left <= fuel && ExecWhile(cx, left, s, View(), log) == want
      {
        var x := EvalExpr(cx.world, s.cond);
        if x.Error? { return Failing; }
        if x.Parted? || (x.v.Str? && x.v.s != []) { return Parting; }
        if !CondTruth(cx.world.ops, x.v) { return Next; }
        left := left - 1;
        r := ExecStmt(cx, left, s.loopBody);
        if !r.Next? { return; }
      }
      return Exhausted;
    }
  }

  /** The evaluation that failed decides how the arguments end. */
  predicate Ends(x: EvalEnd, spec: ArgList) {
    match spec
    case Vals(_, _) => false
    case RaisedA => x.Error?
    case ApartA => x.Parted?
  }

  /** Values already computed, in front of the rest. */
  function After(vs: seq<Values.Value>, rest: ArgList): ArgList {
    if rest.Vals? then Vals(vs + rest.vs, rest.log) else rest
  }
}
