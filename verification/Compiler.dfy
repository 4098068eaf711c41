/**
 What one pass of the compiler does to a chunk: register allocation, argument
 windows, constants, back-patched jumps and string drops.
 */
module Compiler {
  import opened Values
  import opened Ast
  import opened Bytecode

  /** Compile-time questions to the runtime; they are answered from declarations. */
  datatype Probe = Probe(
    bareField: Name -> Option<(Name, bool)>,
    fieldIsScalar: (Name, Name) -> bool,
    returnMayBeString: Callee -> bool,
    methodKeyFits: (Name, Name) -> bool,
    indexable: (Name, int) -> bool)

  /** Expressions whose value a move must treat as a possible string. */
  predicate MayString(e: Expr) {
    e.StrLit? || e.Ident? || e.FieldGet? || e.Call?
  }

  predicate IsLiteral(e: Expr) {
    e.IntLit? || e.FloatLit? || e.BoolLit? || e.StrLit?
  }

  function LiteralValue(e: Expr): Value
    requires IsLiteral(e)
  {
    match e
    case IntLit(i) => Int(i)
    case FloatLit(f) => Float(f)
    case BoolLit(b) => Bool(b)
    case StrLit(s) => Str(s)
  }

  function MoveOp(e: Expr): Opcode {
    if MayString(e) then MoveStr else Move
  }

  function BinOpcode(op: BinOp): Opcode {
    match op
    case Add => OpAdd case Sub => OpSub case Mul => OpMul case Div => OpDiv case Mod => OpMod
    case Eq => OpEq case Neq => OpNeq case Lt => OpLt case Gt => OpGt case Lte => OpLte case Gte => OpGte
  }

  /** Loads a literal straight into `dst`, without a temporary. */
  function LiteralInto(c: Chunk, e: Expr, dst: nat): Chunk
    requires IsLiteral(e)
  {
    var (c1, k) := AddConst(c, LiteralValue(e));
    if !c1.ok then c1
    else
      var c2 := MarkStringIf(c1, e.StrLit?, dst);
      Emit(c2, Instr(if e.StrLit? then LoadKStr else LoadK, dst, k, 0, 0))
  }

  function CalleeConsts(p: Probe, c: Chunk, callee: Callee): (Chunk, nat, nat) {
    match callee.owner
    case None =>
      var (c1, k) := AddConst(c, Str(callee.name));
      (c1, k, 0)
    case Some(owner) =>
      var (c1, k) := AddConst(c, Str(owner));
      if p.methodKeyFits(owner, callee.name) then
        var (c2, m) := AddConst(c1, Str(callee.name));
        (c2, k, m)
      else (Fail(c1), k, 0)
  }

  /** A method call packs its first register and its argument count in one word. */
  function CallInstr(callee: Callee, k: nat, m: nat, dst: nat, first: nat, argc: nat): Instr {
    if callee.owner.None? then Instr(CallFunc, dst, k, first, argc)
    else Instr(CallMethod, dst, k, m, first * 0x1_0000 + argc)
  }

  function CompileExpr(p: Probe, c: Chunk, e: Expr): (r: (Chunk, nat))
    ensures Extends(c, r.0) && (r.0.ok ==> c.next <= r.0.next)
    decreases e, 1
  {
    if !c.ok then (c, 0) else
    match e
    case IntLit(_) => CompileLiteral(c, e)
    case FloatLit(_) => CompileLiteral(c, e)
    case BoolLit(_) => CompileLiteral(c, e)
    case StrLit(_) => CompileLiteral(c, e)
    case Ident(name, slot) =>
      if slot >= 0 then (NoteSlot(c, slot), slot)
      else
        (match p.bareField(name)
         case None => (Fail(c), 0)
         case Some((owner, scalar)) => CompileFieldGet(c, owner, name, scalar))
    case IndexGet(_, _, _) => CompileIndexGet(p, c, e)
    case Not(_) => CompileNot(p, c, e)
    case Logic(_, _, _) => CompileLogic(p, c, e)
    case Binary(_, _, _) => CompileBinary(p, c, e)
    case FieldGet(owner, field) =>
      CompileFieldGet(c, owner, field, p.fieldIsScalar(owner, field))
    case Call(callee, args) => CompileCall(p, c, callee, args)
    case OtherExpr => (Fail(c), 0)
  }

  function CompileIndexGet(p: Probe, c: Chunk, e: Expr): (r: (Chunk, nat))
    requires e.IndexGet?
    ensures Extends(c, r.0) && (r.0.ok ==> c.next <= r.0.next)
    decreases e, 0
  {
    if !p.indexable(e.name, e.slot) then (Fail(c), 0)
    else
      var (c1, ir) := CompileExpr(p, NoteSlot(c, e.slot), e.index);
      if !c1.ok then (c1, 0)
      else
        var (c2, k) := AddConst(c1, Str(e.name));
        if !c2.ok then (c2, 0)
        else
          var (c3, dst) := AllocReg(c2);
          (Emit(c3, Instr(GetIndex, dst, k, ir, e.slot)), dst)
  }

  function CompileNot(p: Probe, c: Chunk, e: Expr): (r: (Chunk, nat))
    requires e.Not?
    ensures Extends(c, r.0) && (r.0.ok ==> c.next <= r.0.next)
    decreases e, 0
  {
    var (c1, src) := CompileExpr(p, c, e.operand);
    if !c1.ok then (c1, 0)
    else
      var (c2, dst) := AllocReg(c1);
      if !c2.ok then (c2, 0) else (Emit(c2, Instr(OpNot, dst, src, 0, 0)), dst)
  }

  function CompileLogic(p: Probe, c: Chunk, e: Expr): (r: (Chunk, nat))
    requires e.Logic?
    ensures Extends(c, r.0) && (r.0.ok ==> c.next <= r.0.next)
    decreases e, 0
  {
    var (c1, lr) := CompileExpr(p, c, e.left);
    if !c1.ok then (c1, 0)
    else
      var (c2, tl, dst) := LogicLeft(c1, lr);
      if !c2.ok then (c2, 0)
      else
        var c3 := LogicBranch(c2, e.isAnd, tl);
        var (c4, rr) := CompileExpr(p, c3, e.right);
        if !c4.ok then (c4, 0)
        else
          var c5 := Emit(c4, Instr(Truthy, dst, rr, 0, 0));
          (Patch(c5, |c2.code| + (if e.isAnd then 0 else 1), |c5.code|), dst)
  }

  function CompileBinary(p: Probe, c: Chunk, e: Expr): (r: (Chunk, nat))
    requires e.Binary?
    ensures Extends(c, r.0) && (r.0.ok ==> c.next <= r.0.next)
    decreases e, 0
  {
    var (c1, r1) := CompileExpr(p, c, e.left);
    var (c2, r2) := CompileExpr(p, c1, e.right);
    var (c3, dst) := AllocReg(c2);
    (Emit(c3, Instr(BinOpcode(e.op), dst, r1, r2, 0)), dst)
  }

  function CompileLiteral(c: Chunk, e: Expr): (r: (Chunk, nat))
    requires IsLiteral(e)
    ensures Extends(c, r.0) && (r.0.ok ==> c.next <= r.0.next)
  {
    var (c1, k) := AddConst(c, LiteralValue(e));
    var (c2, dst) := AllocReg(c1);
    var c3 := MarkStringIf(c2, e.StrLit?, dst);
    (Emit(c3, Instr(if e.StrLit? then LoadKStr else LoadK, dst, k, 0, 0)), dst)
  }

  function CompileFieldGet(c: Chunk, owner: Name, field: Name, scalar: bool): (r: (Chunk, nat))
    ensures Extends(c, r.0) && (r.0.ok ==> c.next <= r.0.next)
  {
    var (c1, ok) := AddConst(c, Str(owner));
    var (c2, fk) := AddConst(c1, Str(field));
    if !c2.ok then (c2, 0)
    else
      var (c3, dst) := AllocReg(c2);
      var c4 := MarkStringIf(c3, !scalar, dst);
      (Emit(c4, Instr(if scalar then GetFieldV else GetField, dst, ok, fk, 0)), dst)
  }

  /** Truth of the left operand, copied to the destination both paths write. */
  function LogicLeft(c: Chunk, lr: nat): (Chunk, nat, nat) {
    var (c1, tl) := AllocReg(c);
    if !c1.ok then (c1, 0, 0)
    else
      var c2 := Emit(c1, Instr(Truthy, tl, lr, 0, 0));
      var (c3, dst) := AllocReg(c2);
      if !c3.ok then (c3, 0, 0)
      else (Emit(c3, Instr(Move, dst, tl, 0, 0)), tl, dst)
  }

  /** `&&` skips the right operand when false; `||` runs it only when false. */
  function LogicBranch(c: Chunk, isAnd: bool, tl: nat): Chunk {
    var jf := |c.code|;
    var c1 := Emit(c, Instr(JumpIfFalse, tl, 0, 0, 0));
    if isAnd then c1
    else
      var c2 := Emit(c1, Instr(Jump, 0, 0, 0, 0));
      Patch(c2, jf, |c2.code|)
  }

  /** Shared by call expressions and call statements. */
  function CompileCall(p: Probe, c: Chunk, callee: Callee, args: seq<Expr>): (r: (Chunk, nat))
    ensures Extends(c, r.0) && (r.0.ok ==> c.next <= r.0.next)
    decreases args, |args| + 1
  {
    var (c1, k, m) := CalleeConsts(p, c, callee);
    if !c1.ok then (c1, 0)
    else
      var first := c1.next;
      var c2 := ReserveRegs(c1, |args|);
      if !c2.ok then (c2, 0)
      else
        var c3 := CompileArgs(p, c2, args, 0, first);
        if !c3.ok then (c3, 0)
        else
          var (c4, dst) := AllocReg(c3.(next := first + |args|));
          var c5 := MarkStringIf(c4, p.returnMayBeString(callee), dst);
          (Emit(c5, CallInstr(callee, k, m, dst, first, |args|)), dst)
  }

  /** Fills the window [first, first + |args|) from argument `i` on. */
  function CompileArgs(p: Probe, c: Chunk, args: seq<Expr>, i: nat, first: nat): (r: Chunk)
    requires i <= |args|
    ensures Extends(c, r)
    decreases args, |args| - i
  {
    if i == |args| then c
    else
      var c' := CompileArg(p, c.(next := first + |args|), args[i], first + i);
      if !c'.ok then c' else CompileArgs(p, c', args, i + 1, first)
  }

  function CompileArg(p: Probe, c: Chunk, e: Expr, dst: nat): (r: Chunk)
    ensures Extends(c, r) && (r.ok ==> c.next <= r.next)
    decreases e, 2
  {
    if IsLiteral(e) then LiteralInto(c, e, dst)
    else
      var (c1, r) := CompileExpr(p, c, e);
      if !c1.ok || r == dst then c1
      else MarkStringIf(Emit(c1, Instr(MoveOp(e), dst, r, 0, 0)), MayString(e), dst)
  }

  function CompileStmt(p: Probe, c: Chunk, s: Stmt): (r: Chunk)
    ensures Extends(c, r)
    decreases s, 1
  {
    if !c.ok then c else
    match s
    case Decl(name, slot, _, value) => CompileStore(p, c, name, slot, value)
    case Assign(name, slot, value) => CompileStore(p, c, name, slot, value)
    case Block(body) =>
      var c1 := CompileBlock(p, c, body, 0);
      if !c1.ok then c1 else EndStmt(c1, c.next)
    case If(_, _, _) => CompileIf(p, c, s)
    case While(_, _) => CompileWhile(p, c, s)
    case CallStmt(callee, args) =>
      var (c1, _) := CompileCall(p, c, callee, args);
      if !c1.ok then c1 else EndStmt(c1, c.next)
    case FieldSet(owner, field, value) => CompileFieldSet(p, c, owner, field, value)
    case IndexSet(name, slot, index, value) => CompileIndexSet(p, c, name, slot, index, value)
    case Return(result) =>
      (match result
       case None => EndStmt(Emit(c, Instr(ReturnNil, 0, 0, 0, 0)), c.next)
       case Some(e) =>
         var (c1, r) := CompileExpr(p, c, e);
         if !c1.ok then EndStmt(c1, c.next)
         else EndStmt(Emit(c1, Instr(ReturnVal, r, 0, 0, 0)), c.next))
    case OtherStmt => EndStmt(Fail(c), c.next)
  }

  function CompileIf(p: Probe, c: Chunk, s: Stmt): (r: Chunk)
    requires s.If?
    ensures Extends(c, r)
    decreases s, 0
  {
    var (c1, cr) := CompileExpr(p, c, s.cond);
    if !c1.ok then c1
    else
      var jf := |c1.code|;
      var c2 := CondBranch(c1, cr, c.next);
      var c3 := CompileStmt(p, c2, s.thn);
      if !c3.ok then c3
      else
        match s.els
        case None => EndStmt(Patch(c3, jf, |c3.code|), c.next)
        case Some(els) =>
          var jmp := |c3.code|;
          var c4 := Patch(Emit(c3, Instr(Jump, 0, 0, 0, 0)), jf, jmp + 1).(next := c.next);
          var c5 := CompileStmt(p, c4, els);
          if !c5.ok then c5 else EndStmt(Patch(c5, jmp, |c5.code|), c.next)
  }

  function CompileWhile(p: Probe, c: Chunk, s: Stmt): (r: Chunk)
    requires s.While?
    ensures Extends(c, r)
    decreases s, 0
  {
    var (c1, cr) := CompileExpr(p, c, s.cond);
    if !c1.ok then c1
    else
      var jf := |c1.code|;
      var c2 := CondBranch(c1, cr, c.next);
      var c3 := CompileStmt(p, c2, s.loopBody);
      if !c3.ok then c3
      else
        var c4 := Emit(c3, Instr(Jump, 0, 0, 0, |c.code|));
        EndStmt(Patch(c4, jf, |c4.code|), c.next)
  }

  /** Drops the strings the statement's temporaries may own, and frees the temporaries. */
  function EndStmt(c: Chunk, start: nat): Chunk {
    StringDrops(c, start, c.next).(next := start)
  }

  /** Conditional jump over a body; the other temporaries are dropped on the taken side. */
  function CondBranch(c: Chunk, cr: nat, start: nat): Chunk {
    var c1 := Emit(c, Instr(JumpIfFalse, cr, 0, 0, 0));
    (if cr in c1.strs then c1 else StringDrops(c1, start, c1.next)).(next := start)
  }

  function CompileStore(p: Probe, c: Chunk, name: Name, slot: int, value: Expr): (r: Chunk)
    ensures Extends(c, r)
  {
    var (c1, src) := CompileExpr(p, c, value);
    if !c1.ok then EndStmt(c1, c.next)
    else if slot >= 0 then
      EndStmt(Emit(NoteSlot(c1, slot), Instr(MoveOp(value), slot, src, 0, 0)), c.next)
    else
      match p.bareField(name)
      case None => EndStmt(Fail(c1), c.next)
      case Some((owner, _)) =>
        var (c2, ok) := AddConst(c1, Str(owner));
        var (c3, fk) := AddConst(c2, Str(name));
        if !c3.ok then EndStmt(c3, c.next)
        else EndStmt(Emit(c3, Instr(SetField, src, ok, fk, 0)), c.next)
  }

  function CompileFieldSet(p: Probe, c: Chunk, owner: Name, field: Name, value: Expr): (r: Chunk)
    ensures Extends(c, r)
  {
    var (c1, ok) := AddConst(c, Str(owner));
    var (c2, fk) := AddConst(c1, Str(field));
    if !c2.ok then EndStmt(c2, c.next)
    else
      var (c3, src) := CompileExpr(p, c2, value);
      if !c3.ok then EndStmt(c3, c.next)
      else EndStmt(Emit(c3, Instr(SetField, src, ok, fk, 0)), c.next)
  }

  function CompileIndexSet(p: Probe, c: Chunk, name: Name, slot: int, index: Expr, value: Expr): (r: Chunk)
    ensures Extends(c, r)
  {
    EndStmt(IndexSetBody(p, c, name, slot, index, value), c.next)
  }

  /** The index is checked before the value is computed; a failed check skips the store. */
  function IndexSetBody(p: Probe, c: Chunk, name: Name, slot: int, index: Expr, value: Expr): (r: Chunk)
    ensures Extends(c, r)
  {
    if !p.indexable(name, slot) then Fail(c)
    else
      var (c1, ir) := CompileExpr(p, NoteSlot(c, slot), index);
      if !c1.ok then c1
      else
        var (c2, k) := AddConst(c1, Str(name));
        if !c2.ok then c2 else StoreChecked(p, c2, slot, value, k, ir)
  }

  function StoreChecked(p: Probe, c: Chunk, slot: int, value: Expr, k: nat, ir: nat): (r: Chunk)
    ensures Extends(c, r)
  {
    var c1 := Emit(c, Instr(PrepIndex, if slot < 0 then NO_REG else slot, k, ir, 0));
    var (c2, vr) := CompileExpr(p, c1, value);
    if !c2.ok then c2
    else
      var c3 := Emit(c2, Instr(SetIndex, vr, k, ir, slot));
      Patch(c3, |c.code|, |c3.code|)
  }

  function CompileBlock(p: Probe, c: Chunk, body: seq<Stmt>, i: nat): (r: Chunk)
    requires i <= |body|
    ensures Extends(c, r)
    decreases body, |body| - i
  {
    if i == |body| then c
    else
      var c1 := CompileStmt(p, c, body[i]);
      if !c1.ok then c1 else CompileBlock(p, c1.(next := c.next), body, i + 1)
  }

  /** A loop statement as a chunk of its own, or `None` where it stays interpreted. */
  function CompileLoop(p: Probe, loop: Stmt): Option<Chunk> {
    var c := CompileStmt(p, InitChunk(), loop);
    if !c.ok then None
    else Some(Emit(c.(next := c.peak), Instr(Ret, 0, 0, 0, 0)))
  }

  /** A function body as a chunk; `p` must answer `bareField` with `None` here. */
  function CompileFn(p: Probe, body: seq<Stmt>): Option<Chunk> {
    var c := CompileBlock(p, InitChunk(), body, 0);
    if !c.ok then None
    else Some(Emit(c.(next := c.peak), Instr(ReturnNil, 0, 0, 0, 0)))
  }
}
