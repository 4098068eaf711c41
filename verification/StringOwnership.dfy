/**
 Which temporaries may own a string.  The compiler marks them and drops what is
 marked; no instruction leaves a string in a temporary that is neither dropped
 later in the code nor still marked.
 */
module StringOwnership {
  import opened Values
  import opened Ast
  import opened Bytecode
  import opened Compiler

  // ----- drops -----

  /** Registers of the range that are marked, in order. */
  function MarkedIn(strs: set<nat>, first: nat, end: nat): seq<nat>
    decreases end - first
  {
    if first >= end || first >= MAX_REG then []
    else (if first in strs then [first] else []) + MarkedIn(strs, first + 1, end)
  }

  function DropOf(r: nat): Instr {
    Instr(DropStr, r, 0, 0, 0)
  }

  /** One drop for each marked register of the range, in order; those marks are gone and no others. */
  lemma {:induction false} DropsExact(c: Chunk, first: nat, end: nat)
    ensures var c', rs := StringDrops(c, first, end), MarkedIn(c.strs, first, end);
            && c'.code == c.code + seq(|rs|, i requires 0 <= i < |rs| => DropOf(rs[i]))
            && c'.strs == (set r | r in c.strs && !(first <= r < end && r < MAX_REG))
    decreases end - first
  {
    var rs := MarkedIn(c.strs, first, end);
    if first < end && first < MAX_REG {
      var c1 := if first in c.strs then Emit(c, DropOf(first)).(strs := c.strs - {first}) else c;
      var rs1 := MarkedIn(c1.strs, first + 1, end);
      DropsExact(c1, first + 1, end);
      SameMarks(c.strs, c1.strs, first + 1, end, first);
      if first in c.strs {
        assert rs == [first] + rs1;
        var tail := seq(|rs1|, i requires 0 <= i < |rs1| => DropOf(rs1[i]));
        assert seq(|rs|, i requires 0 <= i < |rs| => DropOf(rs[i])) == [DropOf(first)] + tail;
        assert c.code + ([DropOf(first)] + tail) == (c.code + [DropOf(first)]) + tail;
      }
    } else {
      assert c.code + [] == c.code;
    }
  }

  lemma {:induction false} SameMarks(s: set<nat>, t: set<nat>, first: nat, end: nat, gone: nat)
    requires gone < first && (t == s || t == s - {gone})
    ensures MarkedIn(s, first, end) == MarkedIn(t, first, end)
    decreases end - first
  {
    if first < end && first < MAX_REG {
      SameMarks(s, t, first + 1, end, gone);
    }
  }

  // ----- ownership -----

  /** Every call may return a string. */
  ghost predicate CallsMayYield(p: Probe) {
    forall callee :: p.returnMayBeString(callee)
  }

  /** The instruction may leave a string in a temporary. */
  ghost predicate Yields(p: Probe, i: Instr) {
    || i.op == LoadKStr || i.op == GetField
    || (i.op == MoveStr && i.a >= TEMP_BASE)
    || ((i.op == CallFunc || i.op == CallMethod) && CallsMayYield(p))
  }

  ghost predicate DroppedAfter(code: seq<Instr>, i: nat, r: nat) {
    exists j: nat | i < j < |code| :: code[j] == DropOf(r)
  }

  /** Strings in temporaries are dropped later on, or the mark says that they still have to be. */
  ghost predicate Owned(p: Probe, c: Chunk) {
    forall i: nat | i < |c.code| && Yields(p, c.code[i]) ::
      c.code[i].a in c.strs || DroppedAfter(c.code, i, c.code[i].a)
  }

  lemma OwnedKept(p: Probe, c: Chunk, c': Chunk)
    requires Owned(p, c) && c'.code == c.code && c.strs <= c'.strs
    ensures Owned(p, c')
  {
    hide Yields;
  }

  lemma OwnedEmit(p: Probe, c: Chunk, c': Chunk, i: Instr)
    requires Owned(p, c) && c'.code == c.code + [i] && c.strs <= c'.strs
    requires Yields(p, i) ==> i.a in c'.strs
    ensures Owned(p, c')
  {
    hide Yields;
    forall n: nat | n < |c'.code| && Yields(p, c'.code[n])
      ensures c'.code[n].a in c'.strs || DroppedAfter(c'.code, n, c'.code[n].a)
    {
      if n < |c.code| && c.code[n].a !in c.strs {
        var j: nat :| n < j < |c.code| && c.code[j] == DropOf(c.code[n].a);
        assert c'.code[j] == DropOf(c'.code[n].a);
      }
    }
  }

  lemma OwnedDrop(p: Probe, c: Chunk, r: nat)
    requires Owned(p, c)
    ensures Owned(p, Emit(c, DropOf(r)).(strs := c.strs - {r}))
  {
    var c' := Emit(c, DropOf(r)).(strs := c.strs - {r});
    forall n: nat | n < |c'.code| && Yields(p, c'.code[n])
      ensures c'.code[n].a in c'.strs || DroppedAfter(c'.code, n, c'.code[n].a)
    {
      assert c.code[n] == c'.code[n];
      if c.code[n].a !in c.strs {
        var j: nat :| n < j < |c.code| && c.code[j] == DropOf(c.code[n].a);
        assert c'.code[j] == DropOf(c'.code[n].a);
      } else if c.code[n].a == r {
        assert c'.code[|c.code|] == DropOf(c'.code[n].a);
      }
    }
  }

  lemma OwnedPatch(p: Probe, c: Chunk, at: nat, target: int)
    requires at < |c.code| && c.code[at].op in {JumpIfFalse, Jump, PrepIndex} && Owned(p, c)
    ensures Owned(p, Patch(c, at, target))
  {
    var c' := Patch(c, at, target);
    forall n: nat | n < |c'.code| && Yields(p, c'.code[n])
      ensures c'.code[n].a in c'.strs || DroppedAfter(c'.code, n, c'.code[n].a)
    {
      assert c.code[n] == c'.code[n];
      if c.code[n].a !in c.strs {
        var j: nat :| n < j < |c.code| && c.code[j] == DropOf(c.code[n].a);
        assert c'.code[j] == DropOf(c'.code[n].a);
      }
    }
  }

  lemma {:induction false} OwnedDrops(p: Probe, c: Chunk, first: nat, end: nat)
    requires Owned(p, c)
    ensures Owned(p, StringDrops(c, first, end))
    decreases end - first
  {
    hide Owned;
    if first < end && first < MAX_REG {
      if first in c.strs {
        OwnedDrop(p, c, first);
        OwnedDrops(p, Emit(c, DropOf(first)).(strs := c.strs - {first}), first + 1, end);
      } else {
        OwnedDrops(p, c, first + 1, end);
      }
    }
  }

  lemma OwnedEnd(p: Probe, c: Chunk, start: nat)
    requires Owned(p, c)
    ensures Owned(p, EndStmt(c, start))
  {
    hide Owned;
    OwnedDrops(p, c, start, c.next);
    var d := StringDrops(c, start, c.next);
    OwnedKept(p, d, d.(next := start));
  }

  lemma OwnedCond(p: Probe, c: Chunk, cr: nat, start: nat)
    requires Owned(p, c)
    ensures Owned(p, CondBranch(c, cr, start))
    ensures Extends(Emit(c, Instr(JumpIfFalse, cr, 0, 0, 0)), CondBranch(c, cr, start))
  {
    hide Owned;
    var c1 := Emit(c, Instr(JumpIfFalse, cr, 0, 0, 0));
    OwnedEmit(p, c, c1, Instr(JumpIfFalse, cr, 0, 0, 0));
    OwnedDrops(p, c1, start, c1.next);
    var d := if cr in c1.strs then c1 else StringDrops(c1, start, c1.next);
    OwnedKept(p, d, d.(next := start));
  }

  // ----- expressions -----

  lemma {:induction false} ExprOwned(p: Probe, c: Chunk, e: Expr, c': Chunk, r: nat)
    requires CompileExpr(p, c, e) == (c', r) && c'.ok && Owned(p, c)
    ensures Owned(p, c')
    decreases e, 1
  {
    hide Owned, Yields;
    match e
    case IntLit(_) => LiteralOwned(p, c, e, c', r);
    case FloatLit(_) => LiteralOwned(p, c, e, c', r);
    case BoolLit(_) => LiteralOwned(p, c, e, c', r);
    case StrLit(_) => LiteralOwned(p, c, e, c', r);
    case Ident(name, slot) =>
      if slot >= 0 {
        OwnedKept(p, c, c');
      } else {
        FieldGetOwned(p, c, p.bareField(name).value.0, name, p.bareField(name).value.1, c', r);
      }
    case FieldGet(owner, field) => FieldGetOwned(p, c, owner, field, p.fieldIsScalar(owner, field), c', r);
    case IndexGet(_, slot, x) =>
      var c0 := NoteSlot(c, slot);
      var (c1, ir) := CompileExpr(p, c0, x);
      OwnedKept(p, c, c0);
      ExprOwned(p, c0, x, c1, ir);
      OwnedPlain(p, c1, c', c'.code[|c1.code|]);
    case Not(x) =>
      var (c1, src) := CompileExpr(p, c, x);
      ExprOwned(p, c, x, c1, src);
      OwnedPlain(p, c1, c', Instr(OpNot, r, src, 0, 0));
    case Logic(_, _, _) => LogicOwned(p, c, e, c', r);
    case Binary(op, x, y) =>
      var (c1, r1) := CompileExpr(p, c, x);
      var (c2, r2) := CompileExpr(p, c1, y);
      ExprOwned(p, c, x, c1, r1);
      ExprOwned(p, c1, y, c2, r2);
      OperatorPlain(op);
      OwnedPlain(p, c2, c', Instr(BinOpcode(op), r, r1, r2, 0));
    case Call(callee, args) => CallOwned(p, c, callee, args, c', r);
  }

  predicate Plain(op: Opcode) {
    op !in {LoadKStr, GetField, MoveStr, CallFunc, CallMethod}
  }

  lemma OperatorPlain(op: BinOp)
    ensures Plain(BinOpcode(op))
  {
  }

  lemma OwnedPlain(p: Probe, c: Chunk, c': Chunk, i: Instr)
    requires Owned(p, c) && c'.code == c.code + [i] && c.strs <= c'.strs && Plain(i.op)
    ensures Owned(p, c')
  {
    hide Owned;
    OwnedEmit(p, c, c', i);
  }

  lemma LiteralOwned(p: Probe, c: Chunk, e: Expr, c': Chunk, r: nat)
    requires IsLiteral(e) && CompileLiteral(c, e) == (c', r) && c'.ok && Owned(p, c)
    ensures Owned(p, c')
  {
    hide Owned;
    OwnedEmit(p, c, c', c'.code[|c.code|]);
  }

  lemma FieldGetOwned(p: Probe, c: Chunk, owner: Name, field: Name, scalar: bool, c': Chunk, r: nat)
    requires CompileFieldGet(c, owner, field, scalar) == (c', r) && c'.ok && Owned(p, c)
    ensures Owned(p, c')
  {
    hide Owned;
    OwnedEmit(p, c, c', c'.code[|c.code|]);
  }

  lemma {:induction false} LogicOwned(p: Probe, c: Chunk, e: Expr, c': Chunk, r: nat)
    requires e.Logic? && CompileLogic(p, c, e) == (c', r) && c'.ok && Owned(p, c)
    ensures Owned(p, c')
    decreases e, 0
  {
    hide Owned, LogicLeft, LogicBranch;
    var (c1, lr) := CompileExpr(p, c, e.left);
    var (c2, tl, dst) := LogicLeft(c1, lr);
    var c3 := LogicBranch(c2, e.isAnd, tl);
    var (c4, rr) := CompileExpr(p, c3, e.right);
    var at := |c2.code| + (if e.isAnd then 0 else 1);
    ExprOwned(p, c, e.left, c1, lr);
    BranchOwned(p, c1, lr, e.isAnd);
    ExprOwned(p, c3, e.right, c4, rr);
    var c5 := Emit(c4, Instr(Truthy, dst, rr, 0, 0));
    OwnedPlain(p, c4, c5, Instr(Truthy, dst, rr, 0, 0));
    OwnedPatch(p, c5, at, |c5.code|);
  }

  lemma BranchOwned(p: Probe, c1: Chunk, lr: nat, isAnd: bool)
    requires Owned(p, c1) && LogicLeft(c1, lr).0.ok && c1.ok
    ensures var (c2, tl, dst) := LogicLeft(c1, lr);
            var c3 := LogicBranch(c2, isAnd, tl);
            var at := |c2.code| + (if isAnd then 0 else 1);
            Owned(p, c3) && at < |c3.code| && c3.code[at].op in {JumpIfFalse, Jump}
  {
    hide Owned;
    var tl := c1.next;
    var a1 := Emit(AllocReg(c1).0, Instr(Truthy, tl, lr, 0, 0));
    OwnedPlain(p, c1, a1, Instr(Truthy, tl, lr, 0, 0));
    var (c2, _, dst) := LogicLeft(c1, lr);
    OwnedPlain(p, a1, c2, Instr(Move, dst, tl, 0, 0));
    var j1 := Emit(c2, Instr(JumpIfFalse, tl, 0, 0, 0));
    OwnedPlain(p, c2, j1, Instr(JumpIfFalse, tl, 0, 0, 0));
    var j2 := Emit(j1, Instr(Jump, 0, 0, 0, 0));
    OwnedPlain(p, j1, j2, Instr(Jump, 0, 0, 0, 0));
    OwnedPatch(p, j2, |c2.code|, |j2.code|);
  }

  lemma {:induction false} CallOwned(p: Probe, c: Chunk, callee: Callee, args: seq<Expr>, c': Chunk, r: nat)
    requires CompileCall(p, c, callee, args) == (c', r) && c'.ok && Owned(p, c)
    ensures Owned(p, c')
    decreases args, |args| + 1
  {
    hide Owned, CompileArgs;
    var (c1, k, m) := CalleeConsts(p, c, callee);
    var c2 := ReserveRegs(c1, |args|);
    var c3 := CompileArgs(p, c2, args, 0, c1.next);
    OwnedKept(p, c, c2);
    ArgsOwned(p, c2, args, 0, c1.next, c3);
    OwnedEmit(p, c3, c', CallInstr(callee, k, m, r, c1.next, |args|));
  }

  lemma {:induction false} ArgsOwned(p: Probe, c: Chunk, args: seq<Expr>, i: nat, first: nat, c': Chunk)
    requires i <= |args| && CompileArgs(p, c, args, i, first) == c' && c'.ok && Owned(p, c)
    ensures Owned(p, c')
    decreases args, |args| - i
  {
    hide Owned;
    if i < |args| {
      var c0 := c.(next := first + |args|);
      var c1 := CompileArg(p, c0, args[i], first + i);
      OwnedKept(p, c, c0);
      ArgOwned(p, c0, args[i], first + i, c1);
      ArgsOwned(p, c1, args, i + 1, first, c');
    }
  }

  lemma {:induction false} ArgOwned(p: Probe, c: Chunk, e: Expr, dst: nat, c': Chunk)
    requires CompileArg(p, c, e, dst) == c' && c'.ok && Owned(p, c)
    ensures Owned(p, c')
    decreases e, 2
  {
    hide Owned, CompileExpr;
    if IsLiteral(e) {
      OwnedEmit(p, c, c', c'.code[|c.code|]);
    } else {
      var (c1, r) := CompileExpr(p, c, e);
      ExprOwned(p, c, e, c1, r);
      if r != dst {
        OwnedEmit(p, c1, c', Instr(MoveOp(e), dst, r, 0, 0));
      }
    }
  }

  // ----- statements -----

  lemma {:induction false} StmtOwned(p: Probe, c: Chunk, s: Stmt, c': Chunk)
    requires CompileStmt(p, c, s) == c' && c'.ok && Owned(p, c) && SlotsBelow(s, TEMP_BASE)
    ensures Owned(p, c')
    decreases s, 1
  {
    hide Owned, EndStmt, Yields;
    match s
    case Decl(name, slot, _, value) => StoreOwned(p, c, name, slot, value, c');
    case Assign(name, slot, value) => StoreOwned(p, c, name, slot, value, c');
    case Block(body) =>
      var c1 := CompileBlock(p, c, body, 0);
      EndKeepsOk(c1, c.next);
      BlockOwned(p, c, body, 0, c1);
      OwnedEnd(p, c1, c.next);
    case If(_, _, _) => IfOwned(p, c, s, c');
    case While(_, _) => WhileOwned(p, c, s, c');
    case CallStmt(callee, args) =>
      var (c1, r) := CompileCall(p, c, callee, args);
      EndKeepsOk(c1, c.next);
      CallOwned(p, c, callee, args, c1, r);
      OwnedEnd(p, c1, c.next);
    case FieldSet(owner, field, value) => FieldSetOwned(p, c, owner, field, value, c');
    case IndexSet(name, slot, index, value) => IndexSetOwned(p, c, name, slot, index, value, c');
    case Return(result) => ReturnOwned(p, c, result, c');
    case OtherStmt => EndKeepsOk(Fail(c), c.next);
  }

  lemma EndKeepsOk(c: Chunk, start: nat)
    ensures EndStmt(c, start).ok == c.ok
  {
  }

  lemma StoreOwned(p: Probe, c: Chunk, name: Name, slot: int, value: Expr, c': Chunk)
    requires CompileStore(p, c, name, slot, value) == c' && c'.ok && Owned(p, c) && slot < TEMP_BASE
    ensures Owned(p, c')
  {
    hide Owned;
    var (c1, src) := CompileExpr(p, c, value);
    ExprOwned(p, c, value, c1, src);
    if slot >= 0 {
      var i := Instr(MoveOp(value), slot, src, 0, 0);
      var c2 := Emit(NoteSlot(c1, slot), i);
      OwnedEmit(p, c1, c2, i);
      OwnedEnd(p, c2, c.next);
    } else {
      var (c2, ok) := AddConst(c1, Str(p.bareField(name).value.0));
      var (c3, fk) := AddConst(c2, Str(name));
      var i := Instr(SetField, src, ok, fk, 0);
      OwnedPlain(p, c1, Emit(c3, i), i);
      OwnedEnd(p, Emit(c3, i), c.next);
    }
  }

  lemma FieldSetOwned(p: Probe, c: Chunk, owner: Name, field: Name, value: Expr, c': Chunk)
    requires CompileFieldSet(p, c, owner, field, value) == c' && c'.ok && Owned(p, c)
    ensures Owned(p, c')
  {
    hide Owned;
    var (c1, ok) := AddConst(c, Str(owner));
    var (c2, fk) := AddConst(c1, Str(field));
    var (c3, src) := CompileExpr(p, c2, value);
    var i := Instr(SetField, src, ok, fk, 0);
    OwnedKept(p, c, c2);
    ExprOwned(p, c2, value, c3, src);
    OwnedPlain(p, c3, Emit(c3, i), i);
    OwnedEnd(p, Emit(c3, i), c.next);
  }

  lemma ReturnOwned(p: Probe, c: Chunk, result: Option<Expr>, c': Chunk)
    requires c.ok && CompileStmt(p, c, Return(result)) == c' && c'.ok && Owned(p, c)
    ensures Owned(p, c')
  {
    hide Owned;
    match result
    case None =>
      OwnedPlain(p, c, Emit(c, Instr(ReturnNil, 0, 0, 0, 0)), Instr(ReturnNil, 0, 0, 0, 0));
      OwnedEnd(p, Emit(c, Instr(ReturnNil, 0, 0, 0, 0)), c.next);
    case Some(e) =>
      var (c1, r) := CompileExpr(p, c, e);
      var i := Instr(ReturnVal, r, 0, 0, 0);
      ExprOwned(p, c, e, c1, r);
      OwnedPlain(p, c1, Emit(c1, i), i);
      OwnedEnd(p, Emit(c1, i), c.next);
  }

  lemma IndexSetOwned(p: Probe, c: Chunk, name: Name, slot: int, index: Expr, value: Expr, c': Chunk)
    requires CompileIndexSet(p, c, name, slot, index, value) == c' && c'.ok && Owned(p, c)
    ensures Owned(p, c')
  {
    hide Owned, EndStmt, StoreChecked;
    EndKeepsOk(IndexSetBody(p, c, name, slot, index, value), c.next);
    var c0 := NoteSlot(c, slot);
    var (c1, ir) := CompileExpr(p, c0, index);
    var (c2, k) := AddConst(c1, Str(name));
    OwnedKept(p, c, c0);
    ExprOwned(p, c0, index, c1, ir);
    OwnedKept(p, c1, c2);
    StoreCheckedOwned(p, c2, slot, value, k, ir);
    OwnedEnd(p, StoreChecked(p, c2, slot, value, k, ir), c.next);
  }

  lemma StoreCheckedOwned(p: Probe, c: Chunk, slot: int, value: Expr, k: nat, ir: nat)
    requires StoreChecked(p, c, slot, value, k, ir).ok && Owned(p, c)
    ensures Owned(p, StoreChecked(p, c, slot, value, k, ir))
  {
    hide Owned;
    var prep := Instr(PrepIndex, if slot < 0 then NO_REG else slot, k, ir, 0);
    var c1 := Emit(c, prep);
    var (c2, vr) := CompileExpr(p, c1, value);
    var store := Instr(SetIndex, vr, k, ir, slot);
    OwnedPlain(p, c, c1, prep);
    ExprOwned(p, c1, value, c2, vr);
    OwnedPlain(p, c2, Emit(c2, store), store);
    OwnedPatch(p, Emit(c2, store), |c.code|, |c2.code| + 1);
  }

  lemma {:induction false} BlockOwned(p: Probe, c: Chunk, body: seq<Stmt>, i: nat, c': Chunk)
    requires i <= |body| && CompileBlock(p, c, body, i) == c' && c'.ok && Owned(p, c)
    requires forall j | 0 <= j < |body| :: SlotsBelow(body[j], TEMP_BASE)
    ensures Owned(p, c')
    decreases body, |body| - i
  {
    hide Owned;
    if i < |body| {
      var c1 := CompileStmt(p, c, body[i]);
      StmtOwned(p, c, body[i], c1);
      OwnedKept(p, c1, c1.(next := c.next));
      BlockOwned(p, c1.(next := c.next), body, i + 1, c');
    }
  }

  lemma {:induction false} IfOwned(p: Probe, c: Chunk, s: Stmt, c': Chunk)
    requires s.If? && CompileIf(p, c, s) == c' && c'.ok && Owned(p, c) && SlotsBelow(s, TEMP_BASE)
    ensures Owned(p, c')
    decreases s, 0
  {
    hide Owned, EndStmt, CondBranch;
    var (c1, cr) := CompileExpr(p, c, s.cond);
    var jf := |c1.code|;
    var c2 := CondBranch(c1, cr, c.next);
    var c3 := CompileStmt(p, c2, s.thn);
    CondKeepsOk(c1, cr, c.next);
    ExprOwned(p, c, s.cond, c1, cr);
    OwnedCond(p, c1, cr, c.next);
    StmtOwned(p, c2, s.thn, c3);
    assert c3.code[jf] == Instr(JumpIfFalse, cr, 0, 0, 0);
    match s.els
    case None =>
      OwnedPatch(p, c3, jf, |c3.code|);
      OwnedEnd(p, Patch(c3, jf, |c3.code|), c.next);
    case Some(els) =>
      var jmp := |c3.code|;
      var cj := Emit(c3, Instr(Jump, 0, 0, 0, 0));
      var c4 := Patch(cj, jf, jmp + 1).(next := c.next);
      var c5 := CompileStmt(p, c4, els);
      OwnedPlain(p, c3, cj, Instr(Jump, 0, 0, 0, 0));
      OwnedPatch(p, cj, jf, jmp + 1);
      OwnedKept(p, Patch(cj, jf, jmp + 1), c4);
      EndKeepsOk(Patch(c5, jmp, |c5.code|), c.next);
      StmtOwned(p, c4, els, c5);
      OwnedPatch(p, c5, jmp, |c5.code|);
      OwnedEnd(p, Patch(c5, jmp, |c5.code|), c.next);
  }

  lemma CondKeepsOk(c: Chunk, cr: nat, start: nat)
    ensures CondBranch(c, cr, start).ok == c.ok
  {
  }

  lemma {:induction false} WhileOwned(p: Probe, c: Chunk, s: Stmt, c': Chunk)
    requires s.While? && CompileWhile(p, c, s) == c' && c'.ok && Owned(p, c) && SlotsBelow(s, TEMP_BASE)
    ensures Owned(p, c')
    decreases s, 0
  {
    hide Owned, EndStmt, CondBranch;
    var (c1, cr) := CompileExpr(p, c, s.cond);
    var jf := |c1.code|;
    var c2 := CondBranch(c1, cr, c.next);
    var c3 := CompileStmt(p, c2, s.loopBody);
    CondKeepsOk(c1, cr, c.next);
    ExprOwned(p, c, s.cond, c1, cr);
    OwnedCond(p, c1, cr, c.next);
    StmtOwned(p, c2, s.loopBody, c3);
    assert c3.code[jf] == Instr(JumpIfFalse, cr, 0, 0, 0);
    var c4 := Emit(c3, Instr(Jump, 0, 0, 0, |c.code|));
    OwnedPlain(p, c3, c4, Instr(Jump, 0, 0, 0, |c.code|));
    OwnedPatch(p, c4, jf, |c4.code|);
    OwnedEnd(p, Patch(c4, jf, |c4.code|), c.next);
  }

  // ----- chunks -----

  lemma NothingOwed(p: Probe)
    ensures Owned(p, InitChunk())
  {
  }

  /** In every compiled loop each string in a temporary is dropped later in the code, or is marked at its end. */
  lemma LoopOwnsStrings(p: Probe, loop: Stmt)
    requires CompileLoop(p, loop).Some? && SlotsBelow(loop, TEMP_BASE)
    ensures Owned(p, CompileLoop(p, loop).value)
  {
    hide Owned, CompileStmt;
    var c := CompileStmt(p, InitChunk(), loop);
    NothingOwed(p);
    StmtOwned(p, InitChunk(), loop, c);
    OwnedPlain(p, c, CompileLoop(p, loop).value, Instr(Ret, 0, 0, 0, 0));
  }

  /** So it is in every compiled function. */
  lemma FnOwnsStrings(p: Probe, body: seq<Stmt>)
    requires CompileFn(p, body).Some? && forall i | 0 <= i < |body| :: SlotsBelow(body[i], TEMP_BASE)
    ensures Owned(p, CompileFn(p, body).value)
  {
    hide Owned, CompileBlock;
    var c := CompileBlock(p, InitChunk(), body, 0);
    NothingOwed(p);
    BlockOwned(p, InitChunk(), body, 0, c);
    OwnedPlain(p, c, CompileFn(p, body).value, Instr(ReturnNil, 0, 0, 0, 0));
  }
}
