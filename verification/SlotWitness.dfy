/**
 The highest local slot a chunk records is not only a bound: some instruction of
 the chunk names it.
 */
module SlotWitness {
  import opened Values
  import opened Ast
  import opened Bytecode
  import opened Compiler
  import opened ChunkSafety
  import opened RegisterFile

  ghost predicate Named(c: Chunk, r: nat) {
    exists i: nat | i < |c.code| :: Names(c.code[i], r)
  }

  /** The highest local is named already, or it is one of the registers about to be named. */
  ghost predicate TopNamed(c: Chunk, soon: set<nat>) {
    c.maxSlot > 0 ==> c.maxSlot - 1 in soon || Named(c, c.maxSlot - 1)
  }

  /** Code that is only appended to, with no new local. */
  lemma TopKept(c: Chunk, c': Chunk, soon: set<nat>, soon': set<nat>)
    requires Extends(c, c') && c'.maxSlot == c.maxSlot && TopNamed(c, soon) && soon <= soon'
    ensures TopNamed(c', soon')
  {
    hide Names;
    if c.maxSlot > 0 && Named(c, c.maxSlot - 1) {
      var i: nat :| i < |c.code| && Names(c.code[i], c.maxSlot - 1);
      assert Names(c'.code[i], c'.maxSlot - 1);
    }
  }

  lemma TopNoted(c: Chunk, slot: int, soon: set<nat>)
    requires TopNamed(c, soon)
    ensures TopNamed(NoteSlot(c, slot), if slot >= 0 then soon + {slot} else soon)
  {
    hide Names;
    if !(slot >= 0 && slot + 1 > c.maxSlot) {
      assert NoteSlot(c, slot) == c;
    }
  }

  /** An instruction names what was about to be named. */
  lemma TopEmit(c: Chunk, i: Instr, soon: set<nat>, rest: set<nat>)
    requires TopNamed(c, soon) && forall r | r in soon :: r in rest || Names(i, r)
    ensures TopNamed(Emit(c, i), rest)
  {
    hide Names;
    var c' := Emit(c, i);
    if c.maxSlot > 0 && c.maxSlot - 1 !in rest {
      if c.maxSlot - 1 in soon {
        assert Names(c'.code[|c.code|], c.maxSlot - 1);
      } else {
        var j: nat :| j < |c.code| && Names(c.code[j], c.maxSlot - 1);
        assert Names(c'.code[j], c.maxSlot - 1);
      }
    }
  }

  /** Patching a jump target names the same registers. */
  lemma TopPatch(c: Chunk, at: nat, target: int, soon: set<nat>)
    requires at < |c.code| && c.code[at].op in {JumpIfFalse, Jump, PrepIndex} && TopNamed(c, soon)
    ensures TopNamed(Patch(c, at, target), soon)
  {
    var c' := Patch(c, at, target);
    PatchNames(c.code[at], target);
    hide Names;
    if c.maxSlot > 0 && Named(c, c.maxSlot - 1) {
      var j: nat :| j < |c.code| && Names(c.code[j], c.maxSlot - 1);
      assert Names(c'.code[j], c.maxSlot - 1);
    }
  }

  lemma PatchNames(i: Instr, target: int)
    requires i.op in {JumpIfFalse, Jump, PrepIndex}
    ensures forall r: nat :: Names(i.(offset := target), r) <==> Names(i, r)
  {
  }

  /** Bookkeeping, and then an instruction that names what was about to be named. */
  lemma TopStep(c: Chunk, c1: Chunk, i: Instr, soon: set<nat>, rest: set<nat>)
    requires TopNamed(c, soon) && Extends(c, c1) && c1.maxSlot == c.maxSlot
    requires forall r | r in soon :: r in rest || Names(i, r)
    ensures TopNamed(Emit(c1, i), rest)
  {
    hide Names, TopNamed, Extends;
    TopKept(c, c1, soon, soon);
    TopEmit(c1, i, soon, rest);
  }

  // ----- expressions -----

  lemma {:induction false} ExprTop(p: Probe, c: Chunk, e: Expr, c': Chunk, r: nat, soon: set<nat>)
    requires CompileExpr(p, c, e) == (c', r) && c'.ok && TopNamed(c, soon)
    ensures TopNamed(c', soon + {r})
    decreases e, 1
  {
    hide Names, TopNamed;
    match e
    case IntLit(_) => TopKept(c, c', soon, soon + {r});
    case FloatLit(_) => TopKept(c, c', soon, soon + {r});
    case BoolLit(_) => TopKept(c, c', soon, soon + {r});
    case StrLit(_) => TopKept(c, c', soon, soon + {r});
    case Ident(name, slot) =>
      if slot >= 0 {
        TopNoted(c, slot, soon);
      } else {
        TopKept(c, c', soon, soon + {r});
      }
    case FieldGet(_, _) => TopKept(c, c', soon, soon + {r});
    case IndexGet(_, _, _) => IndexGetTop(p, c, e, c', r, soon);
    case Not(x) =>
      var (c1, src) := CompileExpr(p, c, x);
      ExprTop(p, c, x, c1, src, soon);
      OperandsNamed(Instr(OpNot, r, src, 0, 0));
      TopStep(c1, AllocReg(c1).0, Instr(OpNot, r, src, 0, 0), soon + {src}, soon + {r});
    case Logic(_, _, _) => LogicTop(p, c, e, c', r, soon);
    case Binary(op, x, y) =>
      var (c1, r1) := CompileExpr(p, c, x);
      var (c2, r2) := CompileExpr(p, c1, y);
      ExprTop(p, c, x, c1, r1, soon);
      ExprTop(p, c1, y, c2, r2, soon + {r1});
      OperandsNamed(Instr(BinOpcode(op), r, r1, r2, 0));
      TopStep(c2, AllocReg(c2).0, Instr(BinOpcode(op), r, r1, r2, 0), soon + {r1} + {r2}, soon + {r});
    case Call(callee, args) => CallTop(p, c, callee, args, c', r, soon);
  }

  /** Source operands are named. */
  lemma OperandsNamed(i: Instr)
    ensures i.op in {Move, MoveStr, OpNot, Truthy} ==> Names(i, i.a) && Names(i, i.b)
    ensures IsOperator(i.op) ==> Names(i, i.b) && Names(i, i.c)
    ensures i.op in {JumpIfFalse, ReturnVal, SetField} ==> Names(i, i.a)
    ensures i.op in {GetIndex, SetIndex} ==> Names(i, i.a) && Names(i, i.c) && (i.offset >= 0 ==> Names(i, i.offset))
    ensures i.op == PrepIndex ==> Names(i, i.c)
  {
  }

  predicate IsOperator(op: Opcode) {
    op in {OpAdd, OpSub, OpMul, OpDiv, OpMod, OpEq, OpNeq, OpLt, OpGt, OpLte, OpGte}
  }

  lemma {:induction false} IndexGetTop(p: Probe, c: Chunk, e: Expr, c': Chunk, r: nat, soon: set<nat>)
    requires e.IndexGet? && CompileIndexGet(p, c, e) == (c', r) && c'.ok && TopNamed(c, soon)
    ensures TopNamed(c', soon + {r})
    decreases e, 0
  {
    hide Names, TopNamed;
    var c0 := NoteSlot(c, e.slot);
    var (c1, ir) := CompileExpr(p, c0, e.index);
    var (c2, k) := AddConst(c1, Str(e.name));
    var soon0 := if e.slot >= 0 then soon + {e.slot} else soon;
    TopNoted(c, e.slot, soon);
    ExprTop(p, c0, e.index, c1, ir, soon0);
    OperandsNamed(Instr(GetIndex, r, k, ir, e.slot));
    TopStep(c1, AllocReg(c2).0, Instr(GetIndex, r, k, ir, e.slot), soon0 + {ir}, soon + {r});
  }

  lemma {:induction false} LogicTop(p: Probe, c: Chunk, e: Expr, c': Chunk, r: nat, soon: set<nat>)
    requires e.Logic? && CompileLogic(p, c, e) == (c', r) && c'.ok && TopNamed(c, soon)
    ensures TopNamed(c', soon + {r})
    decreases e, 0
  {
    hide Names, TopNamed, LogicLeft, LogicBranch;
    var (c1, lr) := CompileExpr(p, c, e.left);
    var (c2, tl, dst) := LogicLeft(c1, lr);
    var c3 := LogicBranch(c2, e.isAnd, tl);
    var (c4, rr) := CompileExpr(p, c3, e.right);
    var at := |c2.code| + (if e.isAnd then 0 else 1);
    BranchShape(c1, lr, e.isAnd);
    ExprTop(p, c, e.left, c1, lr, soon);
    OperandsNamed(Instr(Truthy, tl, lr, 0, 0));
    TopStep(c1, AllocReg(c1).0, Instr(Truthy, tl, lr, 0, 0), soon + {lr}, soon);
    TopKept(Emit(AllocReg(c1).0, Instr(Truthy, tl, lr, 0, 0)), c3, soon, soon);
    ExprTop(p, c3, e.right, c4, rr, soon);
    OperandsNamed(Instr(Truthy, dst, rr, 0, 0));
    TopEmit(c4, Instr(Truthy, dst, rr, 0, 0), soon + {rr}, soon + {r});
    TopPatch(Emit(c4, Instr(Truthy, dst, rr, 0, 0)), at, |c4.code| + 1, soon + {r});
  }

  /** The code between the operands of `&&` or `||`. */
  lemma BranchShape(c1: Chunk, lr: nat, isAnd: bool)
    requires LogicLeft(c1, lr).0.ok && c1.ok
    ensures var (c2, tl, dst) := LogicLeft(c1, lr);
            var c3 := LogicBranch(c2, isAnd, tl);
            var at := |c2.code| + (if isAnd then 0 else 1);
            && Extends(Emit(AllocReg(c1).0, Instr(Truthy, tl, lr, 0, 0)), c3) && c3.maxSlot == c1.maxSlot
            && at < |c3.code| && c3.code[at].op in {JumpIfFalse, Jump}
  {
  }

  /** The registers of a call's arguments. */
  function ArgWindow(first: nat, argc: nat): (w: set<nat>)
    ensures forall r: nat :: r in w <==> first <= r < first + argc
  {
    if argc == 0 then {} else ArgWindow(first, argc - 1) + {first + argc - 1}
  }

  lemma {:induction false} CallTop(
    p: Probe, c: Chunk, callee: Callee, args: seq<Expr>, c': Chunk, r: nat, soon: set<nat>)
    requires CompileCall(p, c, callee, args) == (c', r) && c'.ok && TopNamed(c, soon)
    ensures TopNamed(c', soon + {r})
    decreases args, |args| + 1
  {
    hide Names, TopNamed, ArgWindow, CallInstr;
    var (c1, k, m) := CalleeConsts(p, c, callee);
    var c2 := ReserveRegs(c1, |args|);
    var c3 := CompileArgs(p, c2, args, 0, c1.next);
    var w := ArgWindow(c1.next, |args|);
    TopKept(c, c2, soon, soon);
    ArgsTop(p, c2, args, 0, c1.next, c3, soon);
    var (c4, dst) := AllocReg(c3.(next := c1.next + |args|));
    var c5 := MarkStringIf(c4, p.returnMayBeString(callee), dst);
    CallNames(callee, k, m, dst, c1.next, |args|);
    TopStep(c3, c5, CallInstr(callee, k, m, dst, c1.next, |args|), soon + w, soon + {r});
  }

  lemma CallNames(callee: Callee, k: nat, m: nat, dst: nat, first: nat, argc: nat)
    requires argc <= MAX_ARGS && first <= MAX_REG
    ensures forall r | r in ArgWindow(first, argc) :: Names(CallInstr(callee, k, m, dst, first, argc), r)
  {
    var i := CallInstr(callee, k, m, dst, first, argc);
    if callee.owner.Some? {
      PackedWord(first, argc);
    }
    forall r: nat | r in ArgWindow(first, argc) ensures Names(i, r) {
      assert first <= r < first + argc;
    }
  }

  lemma PackedWord(first: nat, argc: nat)
    requires argc <= MAX_ARGS && first <= MAX_REG
    ensures var word := first * 0x1_0000 + argc;
            word % 0x1_0000 == argc && (word / 0x1_0000) % 0x1_0000 == first
  {
  }

  lemma {:induction false} ArgsTop(
    p: Probe, c: Chunk, args: seq<Expr>, i: nat, first: nat, c': Chunk, soon: set<nat>)
    requires i <= |args| && CompileArgs(p, c, args, i, first) == c' && c'.ok
    requires TopNamed(c, if i == 0 then soon else soon + ArgWindow(first, |args|))
    ensures TopNamed(c', soon + ArgWindow(first, |args|))
    decreases args, |args| - i
  {
    hide Names, TopNamed;
    var w := ArgWindow(first, |args|);
    var cb := c.(next := first + |args|);
    TopKept(c, cb, if i == 0 then soon else soon + w, soon + w);
    if i == |args| {
      TopKept(c, c', if i == 0 then soon else soon + w, soon + w);
    } else {
      var c1 := CompileArg(p, cb, args[i], first + i);
      ArgTop(p, cb, args[i], first + i, c1, soon + w);
      ArgsTop(p, c1, args, i + 1, first, c', soon);
    }
  }

  lemma {:induction false} ArgTop(p: Probe, c: Chunk, e: Expr, dst: nat, c': Chunk, soon: set<nat>)
    requires CompileArg(p, c, e, dst) == c' && c'.ok && TopNamed(c, soon) && dst in soon
    ensures TopNamed(c', soon)
    decreases e, 2
  {
    hide Names, TopNamed;
    if IsLiteral(e) {
      TopKept(c, c', soon, soon);
    } else {
      var (c1, r) := CompileExpr(p, c, e);
      ExprTop(p, c, e, c1, r, soon);
      if r == dst {
        assert soon + {r} == soon;
      } else {
        var i := Instr(MoveOp(e), dst, r, 0, 0);
        OperandsNamed(i);
        TopEmit(c1, i, soon + {r}, soon);
        TopKept(Emit(c1, i), c', soon, soon);
      }
    }
  }

  // ----- statements -----

  /** What ends a statement adds drops and no local. */
  lemma EndTop(c: Chunk, start: nat)
    requires TopNamed(c, {})
    ensures TopNamed(EndStmt(c, start), {})
  {
    hide Names, TopNamed;
    TopKept(c, EndStmt(c, start), {}, {});
  }

  lemma CondTop(c: Chunk, cr: nat, start: nat)
    requires TopNamed(c, {cr})
    ensures TopNamed(CondBranch(c, cr, start), {})
    ensures Extends(Emit(c, Instr(JumpIfFalse, cr, 0, 0, 0)), CondBranch(c, cr, start))
  {
    hide Names, TopNamed;
    OperandsNamed(Instr(JumpIfFalse, cr, 0, 0, 0));
    TopEmit(c, Instr(JumpIfFalse, cr, 0, 0, 0), {cr}, {});
    TopKept(Emit(c, Instr(JumpIfFalse, cr, 0, 0, 0)), CondBranch(c, cr, start), {}, {});
  }

  lemma {:induction false} StmtTop(p: Probe, c: Chunk, s: Stmt, c': Chunk)
    requires CompileStmt(p, c, s) == c' && c'.ok && TopNamed(c, {})
    ensures TopNamed(c', {})
    decreases s, 1
  {
    hide Names, TopNamed, EndStmt;
    match s
    case Decl(name, slot, _, value) => StoreTop(p, c, name, slot, value, c');
    case Assign(name, slot, value) => StoreTop(p, c, name, slot, value, c');
    case Block(body) =>
      var c1 := CompileBlock(p, c, body, 0);
      EndKeepsOk(c1, c.next);
      BlockTop(p, c, body, 0, c1);
      EndTop(c1, c.next);
    case If(_, _, _) => IfTop(p, c, s, c');
    case While(_, _) => WhileTop(p, c, s, c');
    case CallStmt(callee, args) =>
      var (c1, r) := CompileCall(p, c, callee, args);
      EndKeepsOk(c1, c.next);
      CallStmtTop(p, c, callee, args, c1, r);
      EndTop(c1, c.next);
    case FieldSet(owner, field, value) => FieldSetTop(p, c, owner, field, value, c');
    case IndexSet(name, slot, index, value) => IndexSetTop(p, c, name, slot, index, value, c');
    case Return(result) => ReturnTop(p, c, result, c');
    case OtherStmt => EndKeepsOk(Fail(c), c.next);
  }

  lemma EndKeepsOk(c: Chunk, start: nat)
    ensures EndStmt(c, start).ok == c.ok
  {
  }

  lemma UseTop(c: Chunk, c1: Chunk, i: Instr, r: nat, start: nat)
    requires TopNamed(c, {r}) && Extends(c, c1) && c1.maxSlot == c.maxSlot && Names(i, r)
    ensures TopNamed(EndStmt(Emit(c1, i), start), {})
  {
    hide Names, TopNamed, Extends, EndStmt;
    TopStep(c, c1, i, {r}, {});
    EndTop(Emit(c1, i), start);
  }

  lemma StoreTop(p: Probe, c: Chunk, name: Name, slot: int, value: Expr, c': Chunk)
    requires CompileStore(p, c, name, slot, value) == c' && c'.ok && TopNamed(c, {})
    ensures TopNamed(c', {})
  {
    hide Names, TopNamed;
    var (c1, src) := CompileExpr(p, c, value);
    ExprTop(p, c, value, c1, src, {});
    assert {} + {src} == {src};
    if slot >= 0 {
      var i := Instr(MoveOp(value), slot, src, 0, 0);
      var c2 := NoteSlot(c1, slot);
      TopNoted(c1, slot, {src});
      OperandsNamed(i);
      TopEmit(c2, i, {src} + {slot}, {});
      EndTop(Emit(c2, i), c.next);
    } else {
      var (c2, ok) := AddConst(c1, Str(p.bareField(name).value.0));
      var (c3, fk) := AddConst(c2, Str(name));
      OperandsNamed(Instr(SetField, src, ok, fk, 0));
      UseTop(c1, c3, Instr(SetField, src, ok, fk, 0), src, c.next);
    }
  }

  lemma FieldSetTop(p: Probe, c: Chunk, owner: Name, field: Name, value: Expr, c': Chunk)
    requires CompileFieldSet(p, c, owner, field, value) == c' && c'.ok && TopNamed(c, {})
    ensures TopNamed(c', {})
  {
    hide Names, TopNamed;
    var (c1, ok) := AddConst(c, Str(owner));
    var (c2, fk) := AddConst(c1, Str(field));
    var (c3, src) := CompileExpr(p, c2, value);
    TopKept(c, c2, {}, {});
    ExprTop(p, c2, value, c3, src, {});
    assert {} + {src} == {src};
    OperandsNamed(Instr(SetField, src, ok, fk, 0));
    UseTop(c3, c3, Instr(SetField, src, ok, fk, 0), src, c.next);
  }

  lemma ReturnTop(p: Probe, c: Chunk, result: Option<Expr>, c': Chunk)
    requires c.ok && CompileStmt(p, c, Return(result)) == c' && c'.ok && TopNamed(c, {})
    ensures TopNamed(c', {})
  {
    hide Names, TopNamed;
    match result
    case None =>
      TopEmit(c, Instr(ReturnNil, 0, 0, 0, 0), {}, {});
      EndTop(Emit(c, Instr(ReturnNil, 0, 0, 0, 0)), c.next);
    case Some(e) =>
      var (c1, r) := CompileExpr(p, c, e);
      ExprTop(p, c, e, c1, r, {});
      assert {} + {r} == {r};
      OperandsNamed(Instr(ReturnVal, r, 0, 0, 0));
      UseTop(c1, c1, Instr(ReturnVal, r, 0, 0, 0), r, c.next);
  }

  /** A call statement names its destination as well. */
  lemma CallStmtTop(p: Probe, c: Chunk, callee: Callee, args: seq<Expr>, c': Chunk, r: nat)
    requires CompileCall(p, c, callee, args) == (c', r) && c'.ok && TopNamed(c, {})
    ensures TopNamed(c', {})
  {
    hide Names, TopNamed;
    CallTop(p, c, callee, args, c', r, {});
    LastNames(p, c, callee, args, c', r);
    TopAlready(c', r);
  }

  lemma LastNames(p: Probe, c: Chunk, callee: Callee, args: seq<Expr>, c': Chunk, r: nat)
    requires CompileCall(p, c, callee, args) == (c', r) && c'.ok
    ensures Named(c', r)
  {
    assert Names(c'.code[|c'.code| - 1], r);
  }

  lemma TopAlready(c: Chunk, r: nat)
    requires TopNamed(c, {} + {r}) && Named(c, r)
    ensures TopNamed(c, {})
  {
  }

  lemma IndexSetTop(p: Probe, c: Chunk, name: Name, slot: int, index: Expr, value: Expr, c': Chunk)
    requires CompileIndexSet(p, c, name, slot, index, value) == c' && c'.ok && TopNamed(c, {})
    ensures TopNamed(c', {})
  {
    hide Names, TopNamed, EndStmt, StoreChecked;
    EndKeepsOk(IndexSetBody(p, c, name, slot, index, value), c.next);
    var c0 := NoteSlot(c, slot);
    var (c1, ir) := CompileExpr(p, c0, index);
    var (c2, k) := AddConst(c1, Str(name));
    var own: set<nat> := if slot >= 0 then {slot} else {};
    TopNoted(c, slot, {});
    assert own == if slot >= 0 then {} + {slot} else {};
    ExprTop(p, c0, index, c1, ir, own);
    TopKept(c1, c2, own + {ir}, own + {ir});
    StoreCheckedTop(p, c2, slot, value, k, ir, own);
    EndTop(StoreChecked(p, c2, slot, value, k, ir), c.next);
  }

  lemma StoreCheckedTop(p: Probe, c: Chunk, slot: int, value: Expr, k: nat, ir: nat, own: set<nat>)
    requires StoreChecked(p, c, slot, value, k, ir).ok && TopNamed(c, own + {ir})
    requires own == if slot >= 0 then {slot} else {}
    ensures TopNamed(StoreChecked(p, c, slot, value, k, ir), {})
  {
    hide Names, TopNamed;
    var prep := Instr(PrepIndex, if slot < 0 then NO_REG else slot, k, ir, 0);
    var c1 := Emit(c, prep);
    var (c2, vr) := CompileExpr(p, c1, value);
    var store := Instr(SetIndex, vr, k, ir, slot);
    TopEmit(c, prep, own + {ir}, own + {ir});
    ExprTop(p, c1, value, c2, vr, own + {ir});
    OperandsNamed(store);
    TopEmit(c2, store, own + {ir} + {vr}, {});
    TopPatch(Emit(c2, store), |c.code|, |c2.code| + 1, {});
  }

  lemma {:induction false} BlockTop(p: Probe, c: Chunk, body: seq<Stmt>, i: nat, c': Chunk)
    requires i <= |body| && CompileBlock(p, c, body, i) == c' && c'.ok && TopNamed(c, {})
    ensures TopNamed(c', {})
    decreases body, |body| - i
  {
    hide Names, TopNamed;
    if i < |body| {
      var c1 := CompileStmt(p, c, body[i]);
      StmtTop(p, c, body[i], c1);
      TopKept(c1, c1.(next := c.next), {}, {});
      BlockTop(p, c1.(next := c.next), body, i + 1, c');
    }
  }

  lemma {:induction false} IfTop(p: Probe, c: Chunk, s: Stmt, c': Chunk)
    requires s.If? && CompileIf(p, c, s) == c' && c'.ok && TopNamed(c, {})
    ensures TopNamed(c', {})
    decreases s, 0
  {
    hide Names, TopNamed, EndStmt, CondBranch;
    var (c1, cr) := CompileExpr(p, c, s.cond);
    var jf := |c1.code|;
    var c2 := CondBranch(c1, cr, c.next);
    var c3 := CompileStmt(p, c2, s.thn);
    CondKeepsOk(c1, cr, c.next);
    ExprTop(p, c, s.cond, c1, cr, {});
    assert {} + {cr} == {cr};
    CondTop(c1, cr, c.next);
    StmtTop(p, c2, s.thn, c3);
    assert c3.code[jf] == Instr(JumpIfFalse, cr, 0, 0, 0);
    match s.els
    case None =>
      TopPatch(c3, jf, |c3.code|, {});
      EndTop(Patch(c3, jf, |c3.code|), c.next);
    case Some(els) =>
      var jmp := |c3.code|;
      var cj := Emit(c3, Instr(Jump, 0, 0, 0, 0));
      var c4 := Patch(cj, jf, jmp + 1).(next := c.next);
      var c5 := CompileStmt(p, c4, els);
      TopEmit(c3, Instr(Jump, 0, 0, 0, 0), {}, {});
      TopPatch(cj, jf, jmp + 1, {});
      TopKept(Patch(cj, jf, jmp + 1), c4, {}, {});
      EndKeepsOk(Patch(c5, jmp, |c5.code|), c.next);
      StmtTop(p, c4, els, c5);
      TopPatch(c5, jmp, |c5.code|, {});
      EndTop(Patch(c5, jmp, |c5.code|), c.next);
  }

  lemma CondKeepsOk(c: Chunk, cr: nat, start: nat)
    ensures CondBranch(c, cr, start).ok == c.ok
  {
  }

  lemma {:induction false} WhileTop(p: Probe, c: Chunk, s: Stmt, c': Chunk)
    requires s.While? && CompileWhile(p, c, s) == c' && c'.ok && TopNamed(c, {})
    ensures TopNamed(c', {})
    decreases s, 0
  {
    hide Names, TopNamed, EndStmt, CondBranch;
    var (c1, cr) := CompileExpr(p, c, s.cond);
    var jf := |c1.code|;
    var c2 := CondBranch(c1, cr, c.next);
    var c3 := CompileStmt(p, c2, s.loopBody);
    CondKeepsOk(c1, cr, c.next);
    ExprTop(p, c, s.cond, c1, cr, {});
    assert {} + {cr} == {cr};
    CondTop(c1, cr, c.next);
    StmtTop(p, c2, s.loopBody, c3);
    assert c3.code[jf] == Instr(JumpIfFalse, cr, 0, 0, 0);
    var c4 := Emit(c3, Instr(Jump, 0, 0, 0, |c.code|));
    TopEmit(c3, Instr(Jump, 0, 0, 0, |c.code|), {}, {});
    TopPatch(c4, jf, |c4.code|, {});
    EndTop(Patch(c4, jf, |c4.code|), c.next);
  }

  /** Every compiled function has an instruction that names its highest local. */
  lemma HighestLocalNamed(p: Probe, body: seq<Stmt>)
    requires CompileFn(p, body).Some? && CompileFn(p, body).value.maxSlot > 0
    ensures var k := CompileFn(p, body).value;
            exists at: nat | at < |k.code| :: Names(k.code[at], k.maxSlot - 1)
  {
    hide Names;
    var c := CompileBlock(p, InitChunk(), body, 0);
    BlockTop(p, InitChunk(), body, 0, c);
    TopKept(c, CompileFn(p, body).value, {}, {});
  }
}
