/**
 The highest local slot a chunk records is the highest one its source names, so
 the register file of a compiled function covers every local below the
 temporaries.
 */
module SlotBound {
  import opened Values
  import opened Ast
  import opened Bytecode
  import opened Compiler
  import opened ChunkSafety

  lemma {:induction false} ExprSlots(p: Probe, c: Chunk, e: Expr, lim: nat)
    requires ExprSlotsBelow(e, lim) && c.maxSlot <= lim
    ensures CompileExpr(p, c, e).0.maxSlot <= lim
    decreases e, 1
  {
    hide Extends;
    if c.ok {
      match e
      case Not(x) => ExprSlots(p, c, x, lim);
      case Logic(isAnd, l, r) =>
        ExprSlots(p, c, l, lim);
        var (c1, lr) := CompileExpr(p, c, l);
        var (c2, tl, _) := LogicLeft(c1, lr);
        ExprSlots(p, LogicBranch(c2, isAnd, tl), r, lim);
      case Binary(_, l, r) =>
        ExprSlots(p, c, l, lim);
        ExprSlots(p, CompileExpr(p, c, l).0, r, lim);
      case Call(callee, args) => CallSlots(p, c, callee, args, lim);
      case IndexGet(_, slot, x) => ExprSlots(p, NoteSlot(c, slot), x, lim);
      case _ =>
    }
  }

  lemma {:induction false} CallSlots(p: Probe, c: Chunk, callee: Callee, args: seq<Expr>, lim: nat)
    requires c.maxSlot <= lim && forall i | 0 <= i < |args| :: ExprSlotsBelow(args[i], lim)
    ensures CompileCall(p, c, callee, args).0.maxSlot <= lim
    decreases args, |args| + 1
  {
    hide Extends;
    var (c1, _, _) := CalleeConsts(p, c, callee);
    ArgsSlots(p, ReserveRegs(c1, |args|), args, 0, c1.next, lim);
  }

  lemma {:induction false} ArgsSlots(p: Probe, c: Chunk, args: seq<Expr>, i: nat, first: nat, lim: nat)
    requires i <= |args| && c.maxSlot <= lim && forall j | 0 <= j < |args| :: ExprSlotsBelow(args[j], lim)
    ensures CompileArgs(p, c, args, i, first).maxSlot <= lim
    decreases args, |args| - i
  {
    hide Extends;
    if i < |args| {
      var c0 := c.(next := first + |args|);
      ExprSlots(p, c0, args[i], lim);
      ArgsSlots(p, CompileArg(p, c0, args[i], first + i), args, i + 1, first, lim);
    }
  }

  lemma {:induction false} StmtSlots(p: Probe, c: Chunk, s: Stmt, lim: nat)
    requires SlotsBelow(s, lim) && c.maxSlot <= lim
    ensures CompileStmt(p, c, s).maxSlot <= lim
    decreases s, 1
  {
    hide Extends, StringDrops, CompileExpr, CompileCall;
    if c.ok {
      match s
      case Decl(_, _, _, v) => ExprSlots(p, c, v, lim);
      case Assign(_, _, v) => ExprSlots(p, c, v, lim);
      case Block(body) => BlockSlots(p, c, body, 0, lim);
      case If(cond, thn, els) => IfSlots(p, c, s, lim);
      case While(cond, body) =>
        ExprSlots(p, c, cond, lim);
        var (c1, cr) := CompileExpr(p, c, cond);
        StmtSlots(p, CondBranch(c1, cr, c.next), body, lim);
      case CallStmt(callee, args) => CallSlots(p, c, callee, args, lim);
      case FieldSet(owner, field, v) =>
        ExprSlots(p, AddConst(AddConst(c, Str(owner)).0, Str(field)).0, v, lim);
      case IndexSet(name, slot, index, v) => IndexSetSlots(p, c, s, lim);
      case Return(r) => if r.Some? { ExprSlots(p, c, r.value, lim); }
      case OtherStmt =>
    }
  }

  lemma {:induction false} IfSlots(p: Probe, c: Chunk, s: Stmt, lim: nat)
    requires s.If? && SlotsBelow(s, lim) && c.maxSlot <= lim
    ensures CompileIf(p, c, s).maxSlot <= lim
    decreases s, 0
  {
    hide StringDrops, CompileExpr, CompileCall;
    ExprSlots(p, c, s.cond, lim);
    var (c1, cr) := CompileExpr(p, c, s.cond);
    var c2 := CondBranch(c1, cr, c.next);
    StmtSlots(p, c2, s.thn, lim);
    var c3 := CompileStmt(p, c2, s.thn);
    if c1.ok && c3.ok && s.els.Some? {
      var jmp := |c3.code|;
      var c4 := Patch(Emit(c3, Instr(Jump, 0, 0, 0, 0)), |c1.code|, jmp + 1).(next := c.next);
      StmtSlots(p, c4, s.els.value, lim);
    }
  }

  lemma IndexSetSlots(p: Probe, c: Chunk, s: Stmt, lim: nat)
    requires s.IndexSet? && SlotsBelow(s, lim) && c.maxSlot <= lim
    ensures IndexSetBody(p, c, s.name, s.slot, s.index, s.value).maxSlot <= lim
  {
    hide Extends, CompileExpr;
    ExprSlots(p, NoteSlot(c, s.slot), s.index, lim);
    var (c1, ir) := CompileExpr(p, NoteSlot(c, s.slot), s.index);
    var (c2, k) := AddConst(c1, Str(s.name));
    ExprSlots(p, Emit(c2, Instr(PrepIndex, if s.slot < 0 then NO_REG else s.slot, k, ir, 0)), s.value, lim);
  }

  lemma {:induction false} BlockSlots(p: Probe, c: Chunk, body: seq<Stmt>, i: nat, lim: nat)
    requires i <= |body| && c.maxSlot <= lim && forall j | 0 <= j < |body| :: SlotsBelow(body[j], lim)
    ensures CompileBlock(p, c, body, i).maxSlot <= lim
    decreases body, |body| - i
  {
    hide Extends;
    if i < |body| {
      StmtSlots(p, c, body[i], lim);
      BlockSlots(p, CompileStmt(p, c, body[i]).(next := c.next), body, i + 1, lim);
    }
  }

  /** A function chunk whose locals sit below the temporaries touches no register beyond them. */
  lemma FnLimit(p: Probe, body: seq<Stmt>)
    requires CompileFn(p, body).Some? && forall i | 0 <= i < |body| :: SlotsBelow(body[i], TEMP_BASE)
    ensures var k := CompileFn(p, body).value;
            TEMP_BASE <= k.next <= MAX_REG && Limit(k) == k.next
  {
    BlockSlots(p, InitChunk(), body, 0, TEMP_BASE);
    FnChunkClosed(p, body);
  }
}
