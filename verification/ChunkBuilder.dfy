/**
 The one-pass compiler as it runs: a chunk object whose fields every step updates.
 Each method is proved to change the chunk exactly as `Compiler` says.
 */
module ChunkBuilder {
  import opened Values
  import opened Ast
  import opened Bytecode
  import C = Compiler

  class Builder {
    var code: seq<Instr>
    var consts: seq<Value>
    var ok: bool
    var next: nat
    var peak: nat
    var maxSlot: nat
    var strs: set<nat>

    ghost function View(): Chunk
      reads this
    {
      Chunk(code, consts, ok, next, peak, maxSlot, strs)
    }

    constructor ()
      ensures View() == InitChunk()
    {
      code, consts, ok := [], [], true;
      next, peak, maxSlot, strs := TEMP_BASE, TEMP_BASE, 0, {};
    }

    method EmitInstr(i: Instr) returns (at: nat)
      modifies this
      ensures View() == Emit(old(View()), i) && at == |old(code)|
    {
      code := code + [i];
      at := |code| - 1;
    }

    method PatchTarget(at: nat, target: int)
      requires at < |code|
      modifies this
      ensures View() == Patch(old(View()), at, target)
    {
      code := code[at := code[at].(offset := target)];
    }

    method AddConstant(v: Value) returns (k: nat)
      modifies this
      ensures (View(), k) == AddConst(old(View()), v)
    {
      if |consts| >= MAX_CONST {
        ok, k := false, 0;
      } else {
        k := |consts|;
        consts := consts + [v];
      }
    }

    method Alloc() returns (reg: nat)
      modifies this
      ensures (View(), reg) == AllocReg(old(View()))
    {
      if next >= MAX_REG {
        ok, reg := false, 0;
      } else {
        reg := next;
        next := next + 1;
        if next > peak {
          peak := next;
        }
      }
    }

    method Reserve(count: nat)
      modifies this
      ensures View() == ReserveRegs(old(View()), count)
    {
      if count > MAX_ARGS || next + count > MAX_REG {
        ok := false;
      } else {
        next := next + count;
        if next > peak {
          peak := next;
        }
      }
    }

    method Note(slot: int)
      modifies this
      ensures View() == NoteSlot(old(View()), slot)
    {
      if slot >= 0 && slot + 1 > maxSlot {
        maxSlot := slot + 1;
      }
    }

    method MarkIf(cond: bool, reg: nat)
      modifies this
      ensures View() == MarkStringIf(old(View()), cond, reg)
    {
      if cond {
        if reg >= MAX_REG {
          ok := false;
        } else {
          strs := strs + {reg};
        }
      }
    }

    method Drops(first: nat, end: nat)
      modifies this
      ensures View() == StringDrops(old(View()), first, end)
    {
      var reg := first;
      while reg < end && reg < MAX_REG
        invariant StringDrops(View(), reg, end) == StringDrops(old(View()), first, end)
        decreases end - reg
      {
        if reg in strs {
          var _ := EmitInstr(Instr(DropStr, reg, 0, 0, 0));
          strs := strs - {reg};
        }
        reg := reg + 1;
      }
    }

    method EndStatement(start: nat)
      modifies this
      ensures View() == C.EndStmt(old(View()), start)
    {
      Drops(start, next);
      next := start;
    }

    method Literal(e: Expr) returns (r: nat)
      requires C.IsLiteral(e)
      modifies this
      ensures (View(), r) == C.CompileLiteral(old(View()), e)
    {
      var k := AddConstant(C.LiteralValue(e));
      r := Alloc();
      MarkIf(e.StrLit?, r);
      var _ := EmitInstr(Instr(if e.StrLit? then LoadKStr else LoadK, r, k, 0, 0));
    }

    method LiteralTo(e: Expr, dst: nat)
      requires C.IsLiteral(e)
      modifies this
      ensures View() == C.LiteralInto(old(View()), e, dst)
    {
      var k := AddConstant(C.LiteralValue(e));
      if ok {
        MarkIf(e.StrLit?, dst);
        var _ := EmitInstr(Instr(if e.StrLit? then LoadKStr else LoadK, dst, k, 0, 0));
      }
    }

    method FieldRead(owner: Name, field: Name, scalar: bool) returns (r: nat)
      modifies this
      ensures (View(), r) == C.CompileFieldGet(old(View()), owner, field, scalar)
    {
      var k := AddConstant(Str(owner));
      var fk := AddConstant(Str(field));
      if !ok {
        return 0;
      }
      r := Alloc();
      MarkIf(!scalar, r);
      var _ := EmitInstr(Instr(if scalar then GetFieldV else GetField, r, k, fk, 0));
    }

    method CompileExpr(p: C.Probe, e: Expr) returns (r: nat)
      modifies this
      ensures (View(), r) == C.CompileExpr(p, old(View()), e)
      decreases e, 1
    {
      if !ok {
        return 0;
      }
      match e
      case IntLit(_) => r := Literal(e);
      case FloatLit(_) => r := Literal(e);
      case BoolLit(_) => r := Literal(e);
      case StrLit(_) => r := Literal(e);
      case Ident(name, slot) =>
        if slot >= 0 {
          Note(slot);
          r := slot;
        } else {
          match p.bareField(name) {
            case None => ok, r := false, 0;
            case Some((owner, scalar)) => r := FieldRead(owner, name, scalar);
          }
        }
      case IndexGet(_, _, _) => r := CompileIndexGet(p, e);
      case Not(_) => r := CompileNot(p, e);
      case Logic(_, _, _) => r := CompileLogic(p, e);
      case Binary(_, _, _) => r := CompileBinary(p, e);
      case FieldGet(owner, field) => r := FieldRead(owner, field, p.fieldIsScalar(owner, field));
      case Call(callee, args) => r := CompileCall(p, callee, args);
      case OtherExpr => ok, r := false, 0;
    }

    method CompileIndexGet(p: C.Probe, e: Expr) returns (r: nat)
      requires e.IndexGet?
      modifies this
      ensures (View(), r) == C.CompileIndexGet(p, old(View()), e)
      decreases e, 0
    {
      if !p.indexable(e.name, e.slot) {
        ok := false;
        return 0;
      }
      Note(e.slot);
      var ir := CompileExpr(p, e.index);
      if !ok {
        return 0;
      }
      var k := AddConstant(Str(e.name));
      if !ok {
        return 0;
      }
      r := Alloc();
      var _ := EmitInstr(Instr(GetIndex, r, k, ir, e.slot));
    }

    method CompileNot(p: C.Probe, e: Expr) returns (r: nat)
      requires e.Not?
      modifies this
      ensures (View(), r) == C.CompileNot(p, old(View()), e)
      decreases e, 0
    {
      var src := CompileExpr(p, e.operand);
      if !ok {
        return 0;
      }
      r := Alloc();
      if !ok {
        return 0;
      }
      var _ := EmitInstr(Instr(OpNot, r, src, 0, 0));
    }

    method CompileLogic(p: C.Probe, e: Expr) returns (r: nat)
      requires e.Logic?
      modifies this
      ensures (View(), r) == C.CompileLogic(p, old(View()), e)
      decreases e, 0
    {
      var lr := CompileExpr(p, e.left);
      if !ok {
        return 0;
      }
      var tl := Alloc();
      if !ok {
        return 0;
      }
      var _ := EmitInstr(Instr(Truthy, tl, lr, 0, 0));
      r := Alloc();
      if !ok {
        return 0;
      }
      var _ := EmitInstr(Instr(Move, r, tl, 0, 0));
      var jf := EmitInstr(Instr(JumpIfFalse, tl, 0, 0, 0));
      var jmp := jf;
      if !e.isAnd {
        jmp := EmitInstr(Instr(Jump, 0, 0, 0, 0));
        PatchTarget(jf, |code|);
      }
      var rr := CompileExpr(p, e.right);
      if !ok {
        return 0;
      }
      var _ := EmitInstr(Instr(Truthy, r, rr, 0, 0));
      PatchTarget(if e.isAnd then jf else jmp, |code|);
    }

    method CompileBinary(p: C.Probe, e: Expr) returns (r: nat)
      requires e.Binary?
      modifies this
      ensures (View(), r) == C.CompileBinary(p, old(View()), e)
      decreases e, 0
    {
      var r1 := CompileExpr(p, e.left);
      var r2 := CompileExpr(p, e.right);
      r := Alloc();
      var _ := EmitInstr(Instr(C.BinOpcode(e.op), r, r1, r2, 0));
    }

    method CalleeNames(p: C.Probe, callee: Callee) returns (k: nat, m: nat)
      modifies this
      ensures (View(), k, m) == C.CalleeConsts(p, old(View()), callee)
    {
      m := 0;
      match callee.owner
      case None => k := AddConstant(Str(callee.name));
      case Some(owner) =>
        k := AddConstant(Str(owner));
        if p.methodKeyFits(owner, callee.name) {
          m := AddConstant(Str(callee.name));
        } else {
          ok := false;
        }
    }

    method CompileCall(p: C.Probe, callee: Callee, args: seq<Expr>) returns (r: nat)
      modifies this
      ensures (View(), r) == C.CompileCall(p, old(View()), callee, args)
      decreases args, |args| + 1
    {
      hide C.CompileExpr, C.CompileArgs;
      var k, m := CalleeNames(p, callee);
      if !ok {
        return 0;
      }
      var first := next;
      Reserve(|args|);
      if !ok {
        return 0;
      }
      CompileArgs(p, args, first);
      if !ok {
        return 0;
      }
      next := first + |args|;
      r := Alloc();
      MarkIf(p.returnMayBeString(callee), r);
      var _ := EmitInstr(C.CallInstr(callee, k, m, r, first, |args|));
    }

    method CompileArgs(p: C.Probe, args: seq<Expr>, first: nat)
      modifies this
      ensures View() == C.CompileArgs(p, old(View()), args, 0, first)
      decreases args, |args|
    {
      var i := 0;
      while i < |args|
        invariant i <= |args|
        invariant C.CompileArgs(p, View(), args, i, first) == C.CompileArgs(p, old(View()), args, 0, first)
      {
        next := first + |args|;
        CompileArg(p, args[i], first + i);
        if !ok {
          return;
        }
        i := i + 1;
      }
    }

    method CompileArg(p: C.Probe, e: Expr, dst: nat)
      modifies this
      ensures View() == C.CompileArg(p, old(View()), e, dst)
      decreases e, 2
    {
      if C.IsLiteral(e) {
        LiteralTo(e, dst);
        return;
      }
      var r := CompileExpr(p, e);
      if ok && r != dst {
        var _ := EmitInstr(Instr(C.MoveOp(e), dst, r, 0, 0));
        MarkIf(C.MayString(e), dst);
      }
    }

    method CompileStmt(p: C.Probe, s: Stmt)
      modifies this
      ensures View() == C.CompileStmt(p, old(View()), s)
      decreases s, 1
    {
      if !ok {
        return;
      }
      var start := next;
      match s
      case Decl(name, slot, _, value) => CompileStore(p, name, slot, value);
      case Assign(name, slot, value) => CompileStore(p, name, slot, value);
      case Block(body) =>
        CompileBlock(p, body);
        if ok {
          EndStatement(start);
        }
      case If(_, _, _) => CompileIf(p, s);
      case While(_, _) => CompileWhile(p, s);
      case CallStmt(callee, args) =>
        var _ := CompileCall(p, callee, args);
        if ok {
          EndStatement(start);
        }
      case FieldSet(owner, field, value) => CompileFieldSet(p, owner, field, value);
      case IndexSet(name, slot, index, value) => CompileIndexSet(p, name, slot, index, value);
      case Return(result) => CompileReturn(p, result);
      case OtherStmt =>
        ok := false;
        EndStatement(start);
    }

    method CompileReturn(p: C.Probe, result: Option<Expr>)
      requires ok
      modifies this
      ensures View() == C.CompileStmt(p, old(View()), Return(result))
    {
      var start := next;
      match result
      case None =>
        var _ := EmitInstr(Instr(ReturnNil, 0, 0, 0, 0));
        EndStatement(start);
      case Some(e) =>
        var r := CompileExpr(p, e);
        if ok {
          var _ := EmitInstr(Instr(ReturnVal, r, 0, 0, 0));
        }
        EndStatement(start);
    }

    method CompileStore(p: C.Probe, name: Name, slot: int, value: Expr)
      modifies this
      ensures View() == C.CompileStore(p, old(View()), name, slot, value)
    {
      var start := next;
      var src := CompileExpr(p, value);
      if ok {
        if slot >= 0 {
          Note(slot);
          var _ := EmitInstr(Instr(C.MoveOp(value), slot, src, 0, 0));
        } else {
          match p.bareField(name) {
            case None => ok := false;
            case Some((owner, _)) =>
              var k := AddConstant(Str(owner));
              var fk := AddConstant(Str(name));
              if ok {
                var _ := EmitInstr(Instr(SetField, src, k, fk, 0));
              }
          }
        }
      }
      EndStatement(start);
    }

    method CompileFieldSet(p: C.Probe, owner: Name, field: Name, value: Expr)
      modifies this
      ensures View() == C.CompileFieldSet(p, old(View()), owner, field, value)
    {
      var start := next;
      var k := AddConstant(Str(owner));
      var fk := AddConstant(Str(field));
      if ok {
        var src := CompileExpr(p, value);
        if ok {
          var _ := EmitInstr(Instr(SetField, src, k, fk, 0));
        }
      }
      EndStatement(start);
    }

    method CompileIndexSet(p: C.Probe, name: Name, slot: int, index: Expr, value: Expr)
      modifies this
      ensures View() == C.CompileIndexSet(p, old(View()), name, slot, index, value)
    {
      var start := next;
      IndexSetBody(p, name, slot, index, value);
      EndStatement(start);
    }

    method IndexSetBody(p: C.Probe, name: Name, slot: int, index: Expr, value: Expr)
      modifies this
      ensures View() == C.IndexSetBody(p, old(View()), name, slot, index, value)
    {
      hide C.CompileExpr;
      if !p.indexable(name, slot) {
        ok := false;
        return;
      }
      Note(slot);
      var ir := CompileExpr(p, index);
      if !ok {
        return;
      }
      var k := AddConstant(Str(name));
      if !ok {
        return;
      }
      StoreChecked(p, slot, value, k, ir);
    }

    /** Check of the index, value, store, and the target of the failed check. */
    method StoreChecked(p: C.Probe, slot: int, value: Expr, k: nat, ir: nat)
      modifies this
      ensures View() == C.StoreChecked(p, old(View()), slot, value, k, ir)
    {
      var prep := EmitInstr(Instr(PrepIndex, if slot < 0 then NO_REG else slot, k, ir, 0));
      var vr := CompileExpr(p, value);
      if !ok {
        return;
      }
      var _ := EmitInstr(Instr(SetIndex, vr, k, ir, slot));
      PatchTarget(prep, |code|);
    }

    method CompileBlock(p: C.Probe, body: seq<Stmt>)
      modifies this
      ensures View() == C.CompileBlock(p, old(View()), body, 0)
      decreases body, |body|
    {
      var start := next;
      var i := 0;
      while i < |body|
        invariant i <= |body| && next == start
        invariant C.CompileBlock(p, View(), body, i) == C.CompileBlock(p, old(View()), body, 0)
      {
        CompileStmt(p, body[i]);
        if !ok {
          return;
        }
        next := start;
        i := i + 1;
      }
    }

    /** The conditional jump in front of a body. */
    method BranchOn(cr: nat, start: nat) returns (jf: nat)
      modifies this
      ensures View() == C.CondBranch(old(View()), cr, start) && jf == |old(code)|
    {
      jf := EmitInstr(Instr(JumpIfFalse, cr, 0, 0, 0));
      if cr !in strs {
        Drops(start, next);
      }
      next := start;
    }

    method CompileIf(p: C.Probe, s: Stmt)
      requires s.If?
      modifies this
      ensures View() == C.CompileIf(p, old(View()), s)
      decreases s, 0
    {
      hide C.CompileExpr, C.CompileStmt;
      var start := next;
      var cr := CompileExpr(p, s.cond);
      if !ok {
        return;
      }
      var jf := BranchOn(cr, start);
      CompileStmt(p, s.thn);
      if !ok {
        return;
      }
      match s.els
      case None =>
        PatchTarget(jf, |code|);
        EndStatement(start);
      case Some(els) =>
        var jmp := EmitInstr(Instr(Jump, 0, 0, 0, 0));
        PatchTarget(jf, |code|);
        next := start;
        CompileStmt(p, els);
        if !ok {
          return;
        }
        PatchTarget(jmp, |code|);
        EndStatement(start);
    }

    method CompileWhile(p: C.Probe, s: Stmt)
      requires s.While?
      modifies this
      ensures View() == C.CompileWhile(p, old(View()), s)
      decreases s, 0
    {
      hide C.CompileExpr, C.CompileStmt;
      var start, startIp := next, |code|;
      var cr := CompileExpr(p, s.cond);
      if !ok {
        return;
      }
      var jf := BranchOn(cr, start);
      CompileStmt(p, s.loopBody);
      if !ok {
        return;
      }
      var _ := EmitInstr(Instr(Jump, 0, 0, 0, startIp));
      PatchTarget(jf, |code|);
      EndStatement(start);
    }
  }

  method CompileLoop(p: C.Probe, loop: Stmt) returns (k: Option<Chunk>)
    ensures k == C.CompileLoop(p, loop)
  {
    var b := new Builder();
    b.CompileStmt(p, loop);
    if !b.ok {
      return None;
    }
    b.next := b.peak;
    var _ := b.EmitInstr(Instr(Ret, 0, 0, 0, 0));
    k := Some(Chunk(b.code, b.consts, b.ok, b.next, b.peak, b.maxSlot, b.strs));
  }

  method CompileFn(p: C.Probe, body: seq<Stmt>) returns (k: Option<Chunk>)
    ensures k == C.CompileFn(p, body)
  {
    var b := new Builder();
    b.CompileBlock(p, body);
    if !b.ok {
      return None;
    }
    b.next := b.peak;
    var _ := b.EmitInstr(Instr(ReturnNil, 0, 0, 0, 0));
    k := Some(Chunk(b.code, b.consts, b.ok, b.next, b.peak, b.maxSlot, b.strs));
  }
}
