/**
 What every successfully compiled chunk guarantees before it runs: operands in
 range, jumps inside the chunk, and no backward transfer other than `Jump`.
 */
module ChunkSafety {
  import opened Values
  import opened Ast
  import opened Bytecode
  import opened Compiler
  import opened ExprSimulation
  import opened StmtSimulation

  /** One past the highest register the chunk may name. */
  function Limit(c: Chunk): nat {
    Max(c.peak, c.maxSlot)
  }

  /** The instruction at index `at` of a chunk with `n` instructions and `nk` constants. */
  predicate InstrOk(i: Instr, at: nat, n: nat, nk: nat, lim: nat) {
    match i.op
    case LoadK => i.a < lim && i.b < nk
    case LoadKStr => i.a < lim && i.b < nk
    case Move => i.a < lim && i.b < lim
    case MoveStr => i.a < lim && i.b < lim
    case DropStr => i.a < lim
    case OpNot => i.a < lim && i.b < lim
    case Truthy => i.a < lim && i.b < lim
    case JumpIfFalse => i.a < lim && at < i.offset <= n
    case Jump => 0 <= i.offset <= n
    case Ret => true
    case ReturnNil => true
    case ReturnVal => i.a < lim
    case CallFunc => i.a < lim && i.b < nk && 0 <= i.offset && i.c + i.offset <= lim
    case CallMethod =>
      i.a < lim && i.b < nk && i.c < nk && 0 <= i.offset &&
      (i.offset / 0x1_0000) % 0x1_0000 + i.offset % 0x1_0000 <= lim
    case GetField => i.a < lim && i.b < nk && i.c < nk
    case GetFieldV => i.a < lim && i.b < nk && i.c < nk
    case SetField => i.a < lim && i.b < nk && i.c < nk
    case GetIndex => i.a < lim && i.b < nk && i.c < lim && i.offset < lim
    case SetIndex => i.a < lim && i.b < nk && i.c < lim && i.offset < lim
    case PrepIndex => (i.a < lim || i.a == NO_REG) && i.b < nk && i.c < lim && at < i.offset <= n
    case _ => i.a < lim && i.b < lim && i.c < lim
  }

  /** Instructions lo to hi of the chunk are in order. */
  predicate SegOk(c: Chunk, lo: nat, hi: nat) {
    hi <= |c.code| &&
    forall i | lo <= i < hi :: InstrOk(c.code[i], i, |c.code|, |c.consts|, Limit(c))
  }

  /** Temporaries are counted correctly and never leave the register file. */
  predicate RegsFit(c: Chunk) {
    TEMP_BASE <= c.next <= c.peak <= MAX_REG && |c.consts| <= MAX_CONST
  }

  lemma SegGrows(c: Chunk, c': Chunk, lo: nat, hi: nat)
    requires SegOk(c, lo, hi) && |c.code| <= |c'.code| && |c.consts| <= |c'.consts| && Limit(c) <= Limit(c')
    requires forall i | lo <= i < hi :: c'.code[i] == c.code[i]
    ensures SegOk(c', lo, hi)
  {
    forall i | lo <= i < hi
      ensures InstrOk(c'.code[i], i, |c'.code|, |c'.consts|, Limit(c'))
    {
      assert InstrOk(c.code[i], i, |c.code|, |c.consts|, Limit(c));
    }
  }

  lemma SegEmit(c: Chunk, c': Chunk, lo: nat, i: Instr)
    requires lo <= |c.code| && SegOk(c, lo, |c.code|) && c'.code == c.code + [i]
    requires |c.consts| <= |c'.consts| && Limit(c) <= Limit(c')
    requires InstrOk(i, |c.code|, |c.code| + 1, |c'.consts|, Limit(c'))
    ensures SegOk(c', lo, |c'.code|)
  {
    SegGrows(c, c', lo, |c.code|);
  }

  lemma SegJoin(c: Chunk, lo: nat, mid: nat, hi: nat)
    requires SegOk(c, lo, mid) && SegOk(c, mid, hi)
    ensures SegOk(c, lo, hi)
  {
    hide InstrOk;
  }

  lemma {:induction false} ExprOk(p: Probe, c: Chunk, e: Expr, c': Chunk, r: nat)
    requires CompileExpr(p, c, e) == (c', r) && c'.ok && RegsFit(c)
    ensures RegsFit(c') && r < Limit(c') && SegOk(c', |c.code|, |c'.code|)
    decreases e, 1
  {
    match e
    case IntLit(_) => LiteralOk(c, e, c', r);
    case FloatLit(_) => LiteralOk(c, e, c', r);
    case BoolLit(_) => LiteralOk(c, e, c', r);
    case StrLit(_) => LiteralOk(c, e, c', r);
    case Ident(name, slot) =>
      if slot < 0 {
        var f := p.bareField(name).value;
        FieldGetOk(c, f.0, name, f.1, c', r);
      }
    case FieldGet(owner, field) => FieldGetOk(c, owner, field, p.fieldIsScalar(owner, field), c', r);
    case IndexGet(_, _, _) => IndexGetOk(p, c, e, c', r);
    case Not(_) => NotOk(p, c, e, c', r);
    case Logic(_, _, _) => LogicOk(p, c, e, c', r);
    case Binary(_, _, _) => BinaryOk(p, c, e, c', r);
    case Call(callee, args) => CallOk(p, c, callee, args, c', r);
  }

  lemma LiteralOk(c: Chunk, e: Expr, c': Chunk, r: nat)
    requires IsLiteral(e) && CompileLiteral(c, e) == (c', r) && c'.ok && RegsFit(c)
    ensures RegsFit(c') && r < Limit(c') && SegOk(c', |c.code|, |c'.code|)
  {
  }

  lemma FieldGetOk(c: Chunk, owner: Name, field: Name, scalar: bool, c': Chunk, r: nat)
    requires CompileFieldGet(c, owner, field, scalar) == (c', r) && c'.ok && RegsFit(c)
    ensures RegsFit(c') && r < Limit(c') && SegOk(c', |c.code|, |c'.code|)
  {
  }

  lemma {:induction false} NotOk(p: Probe, c: Chunk, e: Expr, c': Chunk, r: nat)
    requires e.Not? && CompileNot(p, c, e) == (c', r) && c'.ok && RegsFit(c)
    ensures RegsFit(c') && r < Limit(c') && SegOk(c', |c.code|, |c'.code|)
    decreases e, 0
  {
    var (c1, src) := CompileExpr(p, c, e.operand);
    ExprOk(p, c, e.operand, c1, src);
    SegGrows(c1, c', |c.code|, |c1.code|);
  }

  lemma {:induction false} IndexGetOk(p: Probe, c: Chunk, e: Expr, c': Chunk, r: nat)
    requires e.IndexGet? && CompileIndexGet(p, c, e) == (c', r) && c'.ok && RegsFit(c)
    ensures RegsFit(c') && r < Limit(c') && SegOk(c', |c.code|, |c'.code|)
    decreases e, 0
  {
    var c0 := NoteSlot(c, e.slot);
    var (c1, ir) := CompileExpr(p, c0, e.index);
    ExprOk(p, c0, e.index, c1, ir);
    SegGrows(c1, c', |c.code|, |c1.code|);
  }

  lemma {:induction false} BinaryOk(p: Probe, c: Chunk, e: Expr, c': Chunk, r: nat)
    requires e.Binary? && CompileBinary(p, c, e) == (c', r) && c'.ok && RegsFit(c)
    ensures RegsFit(c') && r < Limit(c') && SegOk(c', |c.code|, |c'.code|)
    decreases e, 0
  {
    hide InstrOk;
    var (c1, r1) := CompileExpr(p, c, e.left);
    var (c2, r2) := CompileExpr(p, c1, e.right);
    ExprOk(p, c, e.left, c1, r1);
    ExprOk(p, c1, e.right, c2, r2);
    SegGrows(c1, c2, |c.code|, |c1.code|);
    SegJoin(c2, |c.code|, |c1.code|, |c2.code|);
    BinaryInstrOk(e.op, r, r1, r2, |c2.code|, |c'.code|, |c'.consts|, Limit(c'));
    SegEmit(c2, c', |c.code|, Instr(BinOpcode(e.op), r, r1, r2, 0));
  }

  lemma BinaryInstrOk(op: BinOp, r: nat, r1: nat, r2: nat, at: nat, n: nat, nk: nat, lim: nat)
    requires r < lim && r1 < lim && r2 < lim
    ensures InstrOk(Instr(BinOpcode(op), r, r1, r2, 0), at, n, nk, lim)
  {
  }

  lemma {:induction false} LogicOk(p: Probe, c: Chunk, e: Expr, c': Chunk, r: nat)
    requires e.Logic? && CompileLogic(p, c, e) == (c', r) && c'.ok && RegsFit(c)
    ensures RegsFit(c') && r < Limit(c') && SegOk(c', |c.code|, |c'.code|)
    decreases e, 0
  {
    hide InstrOk;
    var c1, lr, tl, c3, c4, rr := LogicShape(p, c, e, c', r);
    ExprOk(p, c, e.left, c1, lr);
    assert RegsFit(c3);
    ExprOk(p, c3, e.right, c4, rr);
    LogicSegs(c', |c.code|, c1, lr, tl, r, c3, c4, rr, e.isAnd);
  }

  lemma LogicShape(p: Probe, c: Chunk, e: Expr, c': Chunk, r: nat)
    returns (c1: Chunk, lr: nat, tl: nat, c3: Chunk, c4: Chunk, rr: nat)
    requires e.Logic? && CompileLogic(p, c, e) == (c', r) && c'.ok
    ensures CompileExpr(p, c, e.left) == (c1, lr) && CompileExpr(p, c3, e.right) == (c4, rr)
    ensures c1.ok && c3.ok && c4.ok && Extends(c, c1)
    ensures c3.peak == Max(c1.peak, r + 1) && c3.next == r + 1 <= MAX_REG && c3.consts == c1.consts
    ensures tl == c1.next && r == c1.next + 1 && c3.maxSlot == c1.maxSlot
    ensures c'.peak == c4.peak && c'.next == c4.next && c'.consts == c4.consts && c'.maxSlot == c4.maxSlot
    ensures LogicLayout(c', c1, lr, tl, r, c3, c4, rr, e.isAnd)
  {
    var left := CompileExpr(p, c, e.left);
    c1, lr := left.0, left.1;
    var (c2, t, dst) := LogicLeft(c1, lr);
    tl, c3 := t, LogicBranch(c2, e.isAnd, t);
    var right := CompileExpr(p, c3, e.right);
    c4, rr := right.0, right.1;
  }

  ghost predicate LogicLayout(
    c': Chunk, c1: Chunk, lr: nat, tl: nat, r: nat, c3: Chunk, c4: Chunk, rr: nat, isAnd: bool)
  {
    && |c3.code| == |c1.code| + (if isAnd then 3 else 4) && |c3.code| <= |c4.code| && |c'.code| == |c4.code| + 1
    && LogicPrefix(c', |c1.code|, isAnd, lr, tl, r, |c'.code|)
    && c'.code[|c4.code|] == Instr(Truthy, r, rr, 0, 0)
    && |c1.consts| <= |c'.consts| && Limit(c1) <= Limit(c') && c4.consts == c'.consts && Limit(c4) == Limit(c')
    && (forall i | 0 <= i < |c1.code| :: c'.code[i] == c1.code[i])
    && (forall i | |c3.code| <= i < |c4.code| :: c'.code[i] == c4.code[i])
  }

  lemma LogicSegs(
    c': Chunk, lo: nat, c1: Chunk, lr: nat, tl: nat, r: nat, c3: Chunk, c4: Chunk, rr: nat, isAnd: bool)
    requires LogicLayout(c', c1, lr, tl, r, c3, c4, rr, isAnd) && lo <= |c1.code|
    requires SegOk(c1, lo, |c1.code|) && SegOk(c4, |c3.code|, |c4.code|)
    requires lr < Limit(c1) && tl < r < Limit(c') && rr < Limit(c4)
    ensures SegOk(c', lo, |c'.code|)
  {
    SegGrows(c1, c', lo, |c1.code|);
    SegGrows(c4, c', |c3.code|, |c4.code|);
    PrefixOk(c', |c1.code|, isAnd, lr, tl, r);
    SegJoin(c', lo, |c1.code|, |c3.code|);
    SegJoin(c', lo, |c3.code|, |c4.code|);
    assert SegOk(c', |c4.code|, |c'.code|);
    SegJoin(c', lo, |c4.code|, |c'.code|);
  }

  lemma PrefixOk(c: Chunk, at: nat, isAnd: bool, lr: nat, tl: nat, dst: nat)
    requires LogicPrefix(c, at, isAnd, lr, tl, dst, |c.code|) && at + (if isAnd then 3 else 4) <= |c.code|
    requires lr < Limit(c) && tl < dst < Limit(c)
    ensures SegOk(c, at, at + if isAnd then 3 else 4)
  {
  }

  lemma {:induction false} CallOk(p: Probe, c: Chunk, callee: Callee, args: seq<Expr>, c': Chunk, r: nat)
    requires CompileCall(p, c, callee, args) == (c', r) && c'.ok && RegsFit(c)
    ensures RegsFit(c') && r < Limit(c') && SegOk(c', |c.code|, |c'.code|)
    decreases args, |args| + 1
  {
    var (c1, kc, m) := CalleeConsts(p, c, callee);
    var c2 := ReserveRegs(c1, |args|);
    var c3 := CompileArgs(p, c2, args, 0, c1.next);
    ArgsOk(p, c2, args, 0, c1.next, c3);
    SegGrows(c3, c', |c.code|, |c3.code|);
    CallInstrOk(callee, kc, m, r, c.next, |args|, |c3.code|, |c'.code|, |c'.consts|, Limit(c'));
  }

  lemma CallInstrOk(callee: Callee, kc: nat, m: nat, r: nat, first: nat, argc: nat, at: nat, n: nat, nk: nat, lim: nat)
    requires first + argc <= r < lim && argc <= MAX_ARGS && first < MAX_REG && kc < nk && m < nk
    ensures InstrOk(CallInstr(callee, kc, m, r, first, argc), at, n, nk, lim)
  {
    var word := first * 0x1_0000 + argc;
    assert word % 0x1_0000 == argc && (word / 0x1_0000) % 0x1_0000 == first;
  }

  lemma {:induction false} ArgsOk(p: Probe, c: Chunk, args: seq<Expr>, i: nat, first: nat, c': Chunk)
    requires i <= |args| && CompileArgs(p, c, args, i, first) == c' && c'.ok
    requires RegsFit(c) && TEMP_BASE <= first && first + |args| <= c.peak
    ensures RegsFit(c') && SegOk(c', |c.code|, |c'.code|)
    decreases args, |args| - i
  {
    hide InstrOk;
    if i < |args| {
      var cb := c.(next := first + |args|);
      var c1 := CompileArg(p, cb, args[i], first + i);
      ArgOk(p, cb, args[i], first + i, c1);
      ArgsOk(p, c1, args, i + 1, first, c');
      SegGrows(c1, c', |c.code|, |c1.code|);
    }
  }

  lemma {:induction false} ArgOk(p: Probe, c: Chunk, e: Expr, dst: nat, c': Chunk)
    requires CompileArg(p, c, e, dst) == c' && c'.ok && RegsFit(c) && dst < c.next
    ensures RegsFit(c') && SegOk(c', |c.code|, |c'.code|)
    decreases e, 2
  {
    if !IsLiteral(e) {
      var (c1, r) := CompileExpr(p, c, e);
      ExprOk(p, c, e, c1, r);
      if r != dst {
        SegEmit(c1, c', |c.code|, Instr(MoveOp(e), dst, r, 0, 0));
      }
    }
  }

  lemma {:induction false} DropsOk(c: Chunk, first: nat, end: nat)
    requires end <= c.peak
    ensures var c' := StringDrops(c, first, end); SegOk(c', |c.code|, |c'.code|)
    decreases end - first
  {
    if first < end && first < MAX_REG {
      var drop := Instr(DropStr, first, 0, 0, 0);
      var c1 := if first in c.strs then Emit(c, drop).(strs := c.strs - {first}) else c;
      DropsOk(c1, first + 1, end);
      var c' := StringDrops(c1, first + 1, end);
      assert SegOk(c', |c.code|, |c1.code|);
      SegJoin(c', |c.code|, |c1.code|, |c'.code|);
    }
  }

  /** The drops at the end of a statement, appended to what is in order already. */
  lemma EndOk(c1: Chunk, start: nat, c': Chunk, lo: nat)
    requires c' == EndStmt(c1, start) && RegsFit(c1) && TEMP_BASE <= start <= c1.peak
    requires lo <= |c1.code| && SegOk(c1, lo, |c1.code|)
    ensures RegsFit(c') && c'.next == start && SegOk(c', lo, |c'.code|)
  {
    hide InstrOk;
    DropsOk(c1, start, c1.next);
    var d := StringDrops(c1, start, c1.next);
    SegGrows(c1, d, lo, |c1.code|);
    SegJoin(d, lo, |c1.code|, |d.code|);
    SegGrows(d, c', lo, |d.code|);
  }

  lemma {:induction false} StmtOk(p: Probe, c: Chunk, s: Stmt, c': Chunk)
    requires CompileStmt(p, c, s) == c' && c'.ok && RegsFit(c)
    ensures RegsFit(c') && c'.next == c.next && SegOk(c', |c.code|, |c'.code|)
    decreases s, 1
  {
    match s
    case Decl(name, slot, _, value) => StoreOk(p, c, name, slot, value, c');
    case Assign(name, slot, value) => StoreOk(p, c, name, slot, value, c');
    case Block(body) =>
      var c1 := CompileBlock(p, c, body, 0);
      BlockOk(p, c, body, 0, c1);
      EndOk(c1, c.next, c', |c.code|);
    case If(_, _, els) => if els.None? { ThenOk(p, c, s, c'); } else { ElseOk(p, c, s, c'); }
    case While(_, _) => WhileOk(p, c, s, c');
    case CallStmt(callee, args) =>
      var (c1, r) := CompileCall(p, c, callee, args);
      CallOk(p, c, callee, args, c1, r);
      EndOk(c1, c.next, c', |c.code|);
    case FieldSet(owner, field, value) => FieldSetOk(p, c, owner, field, value, c');
    case IndexSet(name, slot, index, value) => IndexSetOk(p, c, name, slot, index, value, c');
    case Return(result) => ReturnOk(p, c, result, c');
  }

  lemma ReturnOk(p: Probe, c: Chunk, result: Option<Expr>, c': Chunk)
    requires c.ok && CompileStmt(p, c, Return(result)) == c' && c'.ok && RegsFit(c)
    ensures RegsFit(c') && c'.next == c.next && SegOk(c', |c.code|, |c'.code|)
  {
    match result
    case None => EndOk(Emit(c, Instr(ReturnNil, 0, 0, 0, 0)), c.next, c', |c.code|);
    case Some(e) =>
      var (c1, r) := CompileExpr(p, c, e);
      var c2 := Emit(c1, Instr(ReturnVal, r, 0, 0, 0));
      ExprOk(p, c, e, c1, r);
      SegEmit(c1, c2, |c.code|, Instr(ReturnVal, r, 0, 0, 0));
      EndOk(c2, c.next, c', |c.code|);
  }

  lemma StoreOk(p: Probe, c: Chunk, name: Name, slot: int, value: Expr, c': Chunk)
    requires CompileStore(p, c, name, slot, value) == c' && c'.ok && RegsFit(c)
    ensures RegsFit(c') && c'.next == c.next && SegOk(c', |c.code|, |c'.code|)
  {
    var (c1, src) := CompileExpr(p, c, value);
    ExprOk(p, c, value, c1, src);
    if slot >= 0 {
      var i := Instr(MoveOp(value), slot, src, 0, 0);
      var c2 := Emit(NoteSlot(c1, slot), i);
      SegEmit(c1, c2, |c.code|, i);
      EndOk(c2, c.next, c', |c.code|);
    } else {
      var (c2, ok) := AddConst(c1, Str(p.bareField(name).value.0));
      var (c3, fk) := AddConst(c2, Str(name));
      var i := Instr(SetField, src, ok, fk, 0);
      SegEmit(c1, Emit(c3, i), |c.code|, i);
      EndOk(Emit(c3, i), c.next, c', |c.code|);
    }
  }

  lemma FieldSetOk(p: Probe, c: Chunk, owner: Name, field: Name, value: Expr, c': Chunk)
    requires CompileFieldSet(p, c, owner, field, value) == c' && c'.ok && RegsFit(c)
    ensures RegsFit(c') && c'.next == c.next && SegOk(c', |c.code|, |c'.code|)
  {
    var (c1, ok) := AddConst(c, Str(owner));
    var (c2, fk) := AddConst(c1, Str(field));
    var (c3, src) := CompileExpr(p, c2, value);
    ExprOk(p, c2, value, c3, src);
    var i := Instr(SetField, src, ok, fk, 0);
    SegEmit(c3, Emit(c3, i), |c.code|, i);
    EndOk(Emit(c3, i), c.next, c', |c.code|);
  }

  lemma IndexSetOk(p: Probe, c: Chunk, name: Name, slot: int, index: Expr, value: Expr, c': Chunk)
    requires CompileIndexSet(p, c, name, slot, index, value) == c' && c'.ok && RegsFit(c)
    ensures RegsFit(c') && c'.next == c.next && SegOk(c', |c.code|, |c'.code|)
  {
    var c0 := NoteSlot(c, slot);
    var (c1, ir) := CompileExpr(p, c0, index);
    var (c2, k) := AddConst(c1, Str(name));
    var c6 := StoreChecked(p, c2, slot, value, k, ir);
    ExprOk(p, c0, index, c1, ir);
    StoreCheckedOk(p, c1, c2, slot, value, k, ir, c6, |c.code|);
    EndOk(c6, c.next, c', |c.code|);
  }

  lemma StoreCheckedOk(
    p: Probe, c1: Chunk, c2: Chunk, slot: int, value: Expr, k: nat, ir: nat, c6: Chunk, lo: nat)
    requires c6 == StoreChecked(p, c2, slot, value, k, ir) && c6.ok && RegsFit(c2) && slot < c2.maxSlot
    requires lo <= |c1.code| && c2 == c1.(consts := c2.consts) && |c1.consts| <= |c2.consts|
    requires SegOk(c1, lo, |c1.code|) && k < |c2.consts| && ir < Limit(c2)
    ensures RegsFit(c6) && SegOk(c6, lo, |c6.code|)
  {
    var prep := Instr(PrepIndex, if slot < 0 then NO_REG else slot, k, ir, 0);
    var c3 := Emit(c2, prep);
    var (c4, vr) := CompileExpr(p, c3, value);
    ExprOk(p, c3, value, c4, vr);
    IndexSetSegs(c1, c4, c6, lo, prep.(offset := |c6.code|), Instr(SetIndex, vr, k, ir, slot));
  }

  lemma IndexSetSegs(c1: Chunk, c4: Chunk, c6: Chunk, lo: nat, prep: Instr, set': Instr)
    requires lo <= |c1.code| < |c4.code| + 1 && SegOk(c1, lo, |c1.code|) && SegOk(c4, |c1.code| + 1, |c4.code|)
    requires |c6.code| == |c4.code| + 1 && |c1.consts| <= |c6.consts| && |c4.consts| <= |c6.consts|
    requires Limit(c1) <= Limit(c6) && Limit(c4) <= Limit(c6) && |c1.code| < |c4.code|
    requires forall i | lo <= i < |c1.code| :: c6.code[i] == c1.code[i]
    requires forall i | |c1.code| + 1 <= i < |c4.code| :: c6.code[i] == c4.code[i]
    requires c6.code[|c1.code|] == prep && InstrOk(prep, |c1.code|, |c6.code|, |c6.consts|, Limit(c6))
    requires c6.code[|c4.code|] == set' && InstrOk(set', |c4.code|, |c6.code|, |c6.consts|, Limit(c6))
    ensures SegOk(c6, lo, |c6.code|)
  {
    SegGrows(c1, c6, lo, |c1.code|);
    SegGrows(c4, c6, |c1.code| + 1, |c4.code|);
  }

  lemma {:induction false} BlockOk(p: Probe, c: Chunk, body: seq<Stmt>, i: nat, c': Chunk)
    requires i <= |body| && CompileBlock(p, c, body, i) == c' && c'.ok && RegsFit(c)
    ensures RegsFit(c') && c'.next == c.next && SegOk(c', |c.code|, |c'.code|)
    decreases body, |body| - i
  {
    hide InstrOk;
    if i < |body| {
      var c1 := CompileStmt(p, c, body[i]);
      StmtOk(p, c, body[i], c1);
      BlockOk(p, c1.(next := c.next), body, i + 1, c');
      SegGrows(c1, c', |c.code|, |c1.code|);
      SegJoin(c', |c.code|, |c1.code|, |c'.code|);
    }
  }

  /** A tested condition and the body behind it, inside the larger chunk `k`. */
  lemma BranchSegs(k: Chunk, lo: nat, c1: Chunk, cr: nat, start: nat, c3: Chunk, target: nat)
    requires lo <= |c1.code| && SegOk(c1, lo, |c1.code|) && RegsFit(c1) && cr < Limit(c1)
    requires var c2 := CondBranch(c1, cr, start); SegOk(c3, |c2.code|, |c3.code|) && |c2.code| <= |c3.code|
    requires Embeds(k, Emit(c1, Instr(JumpIfFalse, cr, 0, 0, 0)), CondBranch(c1, cr, start))
    requires Embeds(k, CondBranch(c1, cr, start), c3) && forall i | lo <= i < |c1.code| :: k.code[i] == c1.code[i]
    requires |c1.consts| <= |k.consts| && Limit(c1) <= Limit(k) && Limit(c3) <= Limit(k)
    requires |c1.code| < |k.code| && k.code[|c1.code|] == Instr(JumpIfFalse, cr, 0, 0, target)
    requires |c1.code| < target <= |k.code|
    ensures SegOk(k, lo, |c3.code|)
  {
    var j := Emit(c1, Instr(JumpIfFalse, cr, 0, 0, 0));
    var c2 := CondBranch(c1, cr, start);
    DropsOk(j, start, j.next);
    assert SegOk(c2, |j.code|, |c2.code|) by {
      if cr !in j.strs {
        SegGrows(StringDrops(j, start, j.next), c2, |j.code|, |c2.code|);
      }
    }
    SegGrows(c1, k, lo, |c1.code|);
    SegGrows(c2, k, |j.code|, |c2.code|);
    SegGrows(c3, k, |c2.code|, |c3.code|);
    assert SegOk(k, |c1.code|, |j.code|);
    SegJoin(k, lo, |c1.code|, |j.code|);
    SegJoin(k, lo, |j.code|, |c2.code|);
    SegJoin(k, lo, |c2.code|, |c3.code|);
  }

  lemma CondRegsFit(c1: Chunk, cr: nat, start: nat)
    requires RegsFit(c1) && TEMP_BASE <= start <= c1.peak
    ensures var c2 := CondBranch(c1, cr, start);
            RegsFit(c2) && c2.next == start && c2.consts == c1.consts && Limit(c2) == Limit(c1)
  {
  }

  lemma {:induction false} ThenOk(p: Probe, c: Chunk, s: Stmt, c': Chunk)
    requires s.If? && s.els.None? && CompileIf(p, c, s) == c' && c'.ok && RegsFit(c)
    ensures RegsFit(c') && c'.next == c.next && SegOk(c', |c.code|, |c'.code|)
    decreases s, 0
  {
    hide InstrOk;
    var c1, cr, c2, c3, ce := ThenCode(p, c, s, c', c');
    ExprOk(p, c, s.cond, c1, cr);
    CondRegsFit(c1, cr, c.next);
    StmtOk(p, c2, s.thn, c3);
    BranchSegs(ce, |c.code|, c1, cr, c.next, c3, |c3.code|);
    EndOk(ce, c.next, c', |c.code|);
  }

  lemma {:induction false} ElseOk(p: Probe, c: Chunk, s: Stmt, c': Chunk)
    requires s.If? && s.els.Some? && CompileIf(p, c, s) == c' && c'.ok && RegsFit(c)
    ensures RegsFit(c') && c'.next == c.next && SegOk(c', |c.code|, |c'.code|)
    decreases s, 0
  {
    hide InstrOk;
    var c1, cr, c2, c3, c4, c5, ce := ElseCode(p, c, s, c', c');
    ExprOk(p, c, s.cond, c1, cr);
    CondRegsFit(c1, cr, c.next);
    StmtOk(p, c2, s.thn, c3);
    StmtOk(p, c4, s.els.value, c5);
    BranchSegs(ce, |c.code|, c1, cr, c.next, c3, |c3.code| + 1);
    ElseSegs(ce, |c.code|, c3, c5);
    EndOk(ce, c.next, c', |c.code|);
  }

  lemma ElseSegs(ce: Chunk, lo: nat, c3: Chunk, c5: Chunk)
    requires lo <= |c3.code| < |c5.code| + 1 && |ce.code| == |c5.code| && |c3.code| < |c5.code|
    requires SegOk(ce, lo, |c3.code|) && SegOk(c5, |c3.code| + 1, |c5.code|)
    requires ce.code[|c3.code|] == Instr(Jump, 0, 0, 0, |ce.code|)
    requires SameExtent(ce, c5) && forall i | |c3.code| + 1 <= i < |c5.code| :: ce.code[i] == c5.code[i]
    ensures SegOk(ce, lo, |ce.code|)
  {
    SegGrows(c5, ce, |c3.code| + 1, |c5.code|);
    assert SegOk(ce, |c3.code|, |c3.code| + 1);
    SegJoin(ce, lo, |c3.code|, |c3.code| + 1);
    SegJoin(ce, lo, |c3.code| + 1, |c5.code|);
  }

  lemma {:induction false} WhileOk(p: Probe, c: Chunk, s: Stmt, c': Chunk)
    requires s.While? && CompileWhile(p, c, s) == c' && c'.ok && RegsFit(c)
    ensures RegsFit(c') && c'.next == c.next && SegOk(c', |c.code|, |c'.code|)
    decreases s, 0
  {
    var c1, cr, c2, c3, ce := WhileCode(p, c, s, c', c');
    ExprOk(p, c, s.cond, c1, cr);
    CondRegsFit(c1, cr, c.next);
    StmtOk(p, c2, s.loopBody, c3);
    BranchSegs(ce, |c.code|, c1, cr, c.next, c3, |ce.code|);
    assert SegOk(ce, |c3.code|, |ce.code|);
    SegJoin(ce, |c.code|, |c3.code|, |ce.code|);
    EndOk(ce, c.next, c', |c.code|);
  }

  /** A finished chunk: a final return, and everything before it stays before it. */
  predicate Closed(k: Chunk) {
    && |k.code| > 0 && k.code[|k.code| - 1].op in {Ret, ReturnNil}
    && k.next == k.peak && k.next <= MAX_REG && TEMP_BASE <= k.next
    && forall i | 0 <= i < |k.code| - 1 :: InstrOk(k.code[i], i, |k.code| - 1, |k.consts|, Limit(k))
  }

  lemma LoopChunkClosed(p: Probe, loop: Stmt)
    requires CompileLoop(p, loop).Some?
    ensures Closed(CompileLoop(p, loop).value)
  {
    var c := CompileStmt(p, InitChunk(), loop);
    StmtOk(p, InitChunk(), loop, c);
    CloseOk(c, CompileLoop(p, loop).value);
  }

  lemma FnChunkClosed(p: Probe, body: seq<Stmt>)
    requires CompileFn(p, body).Some?
    ensures Closed(CompileFn(p, body).value)
  {
    var c := CompileBlock(p, InitChunk(), body, 0);
    BlockOk(p, InitChunk(), body, 0, c);
    CloseOk(c, CompileFn(p, body).value);
  }

  lemma CloseOk(c: Chunk, k: Chunk)
    requires RegsFit(c) && SegOk(c, 0, |c.code|) && |k.code| == |c.code| + 1 && k.code[..|c.code|] == c.code
    requires k.code[|c.code|].op in {Ret, ReturnNil}
    requires k.consts == c.consts && k.peak == c.peak && k.maxSlot == c.maxSlot && k.next == c.peak
    ensures Closed(k)
  {
    assert forall i | 0 <= i < |c.code| :: k.code[i] == c.code[i];
    forall i | 0 <= i < |c.code|
      ensures InstrOk(k.code[i], i, |c.code|, |k.consts|, Limit(k))
    {
      assert InstrOk(c.code[i], i, |c.code|, |c.consts|, Limit(c));
    }
  }
}
