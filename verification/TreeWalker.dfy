/**
 The tree-walking evaluator, which defines what a program means.

 Two outcomes stop a run of it early.  `Raised` is a runtime error.  `Apart` marks
 the points where the compiled tier is known to answer differently or where the
 walker leaves this model: an integer sum, difference or ordering outside the
 exact range of a double, a non-empty string used as a condition, a returned call
 that takes the tail-call path, and field or array access.
 */
module TreeWalker {
  import opened Values
  import opened Ast
  import opened Callbacks

  /** The current frame: only slots below `size` have been written. */
  datatype Frame = Frame(slots: seq<Value>, size: nat)

  datatype Evaluated = Val(v: Value, log: Log) | RaisedE | ApartE

  datatype ArgList = Vals(vs: seq<Value>, log: Log) | RaisedA | ApartA

  datatype Signal = Normal | Ret(v: Value)

  datatype Executed =
    | Done(frame: Frame, log: Log, signal: Signal)
    | Raised
    | Apart
    | OutOfFuel

  /** `tail` tells which plain calls a `return` hands to the trampoline. */
  datatype Context = Context(world: World, tail: Name -> bool)

  function ReadSlot(f: Frame, slot: int): Option<Value> {
    if 0 <= slot < f.size && slot < |f.slots| && !f.slots[slot].Nil? then Some(f.slots[slot]) else None
  }

  function WriteSlot(f: Frame, slot: int, v: Value): Frame
    requires 0 <= slot < |f.slots|
  {
    Frame(f.slots[slot := v], if slot >= f.size then slot + 1 else f.size)
  }

  predicate IsNumber(v: Value) {
    v.Int? || v.Float?
  }

  function Numeric(ops: FloatOps, v: Value): Bits
    requires IsNumber(v)
  {
    if v.Int? then ops.ofInt(v.i) else v.bits
  }

  /** The integers the operator touches leave the range where both tiers agree. */
  predicate LeavesExactRange(op: BinOp, l: Value, r: Value) {
    l.Int? && r.Int? &&
    match op
    case Add => !Exact(l.i) || !Exact(r.i) || !Exact(l.i + r.i)
    case Sub => !Exact(l.i) || !Exact(r.i) || !Exact(l.i - r.i)
    case Lt => !Exact(l.i) || !Exact(r.i)
    case Gt => !Exact(l.i) || !Exact(r.i)
    case Lte => !Exact(l.i) || !Exact(r.i)
    case Gte => !Exact(l.i) || !Exact(r.i)
    case _ => false
  }

  /** The value of an operator other than `!`, `&&` and `||`; `None` raises. */
  function EvalBinary(ops: FloatOps, op: BinOp, l: Value, r: Value): Option<Value> {
    if op == Eq || op == Neq then
      var same :=
        if l.Nil? || r.Nil? then l.Nil? && r.Nil?
        else if l.Int? && r.Int? then l.i == r.i
        else if l.Float? && r.Float? then ops.eq(l.bits, r.bits)
        else if l.Bool? && r.Bool? then l.b == r.b
        else if l.Str? && r.Str? then l.s == r.s
        else false;
      Some(OfBool(if op == Eq then same else !same))
    else if !IsNumber(l) || !IsNumber(r) then None
    else
      var bothInt := l.Int? && r.Int?;
      var a, b := Numeric(ops, l), Numeric(ops, r);
      match op
      case Add => Some(if bothInt then Int(ops.toInt(ops.add(a, b))) else Float(ops.add(a, b)))
      case Sub => Some(if bothInt then Int(ops.toInt(ops.sub(a, b))) else Float(ops.sub(a, b)))
      case Mul => Some(if bothInt then Int(ops.toInt(ops.mul(a, b))) else Float(ops.mul(a, b)))
      case Div =>
        if !ops.NonZero(b) then None
        else Some(if bothInt then Int(ops.toInt(ops.div(a, b))) else Float(ops.div(a, b)))
      case Mod =>
        if !bothInt || ops.toInt(b) == 0 then None
        else Some(Int(TruncRem(ops.toInt(a), ops.toInt(b))))
      case Lt => Some(OfBool(ops.lt(a, b)))
      case Gt => Some(OfBool(ops.lt(b, a)))
      case Lte => Some(OfBool(ops.le(a, b)))
      case Gte => Some(OfBool(ops.le(b, a)))
      case _ => None
  }

  /** Truth of an if or while condition, where non-empty strings count as true. */
  predicate CondTruth(ops: FloatOps, v: Value) {
    match v
    case Bool(b) => b != 0
    case Int(i) => i != 0
    case Float(f) => ops.NonZero(f)
    case Str(s) => s != []
    case _ => false
  }

  predicate NotTruth(ops: FloatOps, v: Value) {
    if v.Bool? then v.b != 0
    else if v.Int? then v.i != 0
    else if v.Float? then ops.NonZero(v.bits)
    else if v.Nil? then false
    else true
  }

  predicate LogicTruth(v: Value) {
    if v.Bool? then v.b != 0 else if v.Int? then v.i != 0 else !v.Nil?
  }

  function Eval(w: World, e: Expr, f: Frame, log: Log): Evaluated
    decreases e, 0
  {
    match e
    case IntLit(i) => Val(Int(i), log)
    case FloatLit(x) => Val(Float(x), log)
    case BoolLit(b) => Val(Bool(b), log)
    case StrLit(s) => Val(Str(s), log)
    case Ident(_, slot) =>
      (match ReadSlot(f, slot) case Some(v) => Val(v, log) case None => RaisedE)
    case Not(x) =>
      var r := Eval(w, x, f, log);
      if !r.Val? then r else Val(OfBool(!NotTruth(w.ops, r.v)), r.log)
    case Logic(isAnd, l, r) =>
      var lv := Eval(w, l, f, log);
      if !lv.Val? then lv
      else if LogicTruth(lv.v) != isAnd then Val(OfBool(!isAnd), lv.log)
      else
        var rv := Eval(w, r, f, lv.log);
        if !rv.Val? then rv else Val(OfBool(LogicTruth(rv.v)), rv.log)
    case Binary(op, l, r) =>
      var lv := Eval(w, l, f, log);
      if !lv.Val? then lv
      else
        var rv := Eval(w, r, f, lv.log);
        if !rv.Val? then rv
        else if LeavesExactRange(op, lv.v, rv.v) then ApartE
        else
          (match EvalBinary(w.ops, op, lv.v, rv.v)
           case Some(v) => Val(v, rv.log)
           case None => RaisedE)
    case Call(callee, args) => EvalCall(w, callee, args, f, log)
    case FieldGet(_, _) => ApartE
    case IndexGet(_, _, _) => ApartE
    case OtherExpr => ApartE
  }

  function EvalCall(w: World, callee: Callee, args: seq<Expr>, f: Frame, log: Log): Evaluated
    decreases args, |args| + 1
  {
    match EvalArgs(w, args, 0, f, log)
    case RaisedA => RaisedE
    case ApartA => ApartE
    case Vals(vs, log') =>
      var r := w.reply(log', Called(callee, vs));
      if r.raised then RaisedE else Val(r.value, r.log)
  }

  /** Arguments from `i` on, left to right. */
  function EvalArgs(w: World, args: seq<Expr>, i: nat, f: Frame, log: Log): ArgList
    requires i <= |args|
    decreases args, |args| - i
  {
    if i == |args| then Vals([], log)
    else
      match Eval(w, args[i], f, log)
      case RaisedE => RaisedA
      case ApartE => ApartA
      case Val(v, log1) =>
        match EvalArgs(w, args, i + 1, f, log1)
        case Vals(vs, log2) => Vals([v] + vs, log2)
        case other => other
  }

  function Store(f: Frame, slot: int, v: Value, log: Log): Executed {
    if 0 <= slot < |f.slots| then Done(WriteSlot(f, slot, v), log, Normal) else Apart
  }

  predicate IsTailCall(cx: Context, e: Expr) {
    e.Call? && e.callee.owner.None? && cx.tail(e.callee.name)
  }

  /** `fuel` bounds the number of loop iterations nested along one path. */
  function Exec(cx: Context, fuel: nat, s: Stmt, f: Frame, log: Log): Executed
    decreases fuel, s, 1
  {
    match s
    case Decl(_, slot, declType, value) =>
      (match Eval(cx.world, value, f, log)
       case RaisedE => Raised
       case ApartE => Apart
       case Val(v, log') =>
         if declType.Some? && declType.value != Tag(v) then Raised else Store(f, slot, v, log'))
    case Assign(_, slot, value) =>
      (match Eval(cx.world, value, f, log)
       case RaisedE => Raised
       case ApartE => Apart
       case Val(v, log') =>
         (match ReadSlot(f, slot)
          case None => Raised
          case Some(cur) => if Tag(cur) != Tag(v) then Raised else Store(f, slot, v, log')))
    case Block(body) => ExecBlock(cx, fuel, body, 0, f, log)
    case If(cond, thn, els) =>
      (match Eval(cx.world, cond, f, log)
       case RaisedE => Raised
       case ApartE => Apart
       case Val(v, log') =>
         if v.Str? && v.s != [] then Apart
         else if CondTruth(cx.world.ops, v) then Exec(cx, fuel, thn, f, log')
         else if els.Some? then Exec(cx, fuel, els.value, f, log')
         else Done(f, log', Normal))
    case While(_, _) => ExecWhile(cx, fuel, s, f, log)
    case CallStmt(callee, args) =>
      (match EvalCall(cx.world, callee, args, f, log)
       case RaisedE => Raised
       case ApartE => Apart
       case Val(_, log') => Done(f, log', Normal))
    case Return(result) =>
      (match result
       case None => Done(f, log, Ret(Nil))
       case Some(e) =>
         if IsTailCall(cx, e) then Apart
         else
           match Eval(cx.world, e, f, log)
           case RaisedE => Raised
           case ApartE => Apart
           case Val(v, log') => Done(f, log', Ret(v)))
    case FieldSet(_, _, _) => Apart
    case IndexSet(_, _, _, _) => Apart
    case OtherStmt => Apart
  }

  function ExecWhile(cx: Context, fuel: nat, s: Stmt, f: Frame, log: Log): Executed
    requires s.While?
    decreases fuel, s, 0
  {
    if fuel == 0 then OutOfFuel
    else
      match Eval(cx.world, s.cond, f, log)
      case RaisedE => Raised
      case ApartE => Apart
      case Val(v, log') =>
        if v.Str? && v.s != [] then Apart
        else if !CondTruth(cx.world.ops, v) then Done(f, log', Normal)
        else
          var r := Exec(cx, fuel - 1, s.loopBody, f, log');
          if !r.Done? || r.signal.Ret? then r else ExecWhile(cx, fuel - 1, s, r.frame, r.log)
  }

  function ExecBlock(cx: Context, fuel: nat, body: seq<Stmt>, i: nat, f: Frame, log: Log): Executed
    requires i <= |body|
    decreases fuel, body, |body| - i
  {
    if i == |body| then Done(f, log, Normal)
    else
      var r := Exec(cx, fuel, body[i], f, log);
      if !r.Done? || r.signal.Ret? then r else ExecBlock(cx, fuel, body, i + 1, r.frame, r.log)
  }
}
