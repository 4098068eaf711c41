/**
 Which loops and functions compile.  What a program needs is counted over its
 syntax: constants, registers above the first temporary, and language that the
 compiler knows.  It compiles exactly when those needs are met.
 */
module Completeness {
  import opened Values
  import opened Ast
  import opened Bytecode
  import opened Compiler

  // ----- what an expression needs -----

  /** The compiler knows every construct in the expression. */
  ghost predicate Known(p: Probe, e: Expr) {
    match e
    case Ident(name, slot) => slot >= 0 || p.bareField(name).Some?
    case Not(x) => Known(p, x)
    case Logic(_, l, r) => Known(p, l) && Known(p, r)
    case Binary(_, l, r) => Known(p, l) && Known(p, r)
    case Call(callee, args) => KnownCallee(p, callee, |args|) && forall i | 0 <= i < |args| :: Known(p, args[i])
    case IndexGet(name, slot, x) => p.indexable(name, slot) && Known(p, x)
    case OtherExpr => false
    case _ => true
  }

  predicate KnownCallee(p: Probe, callee: Callee, argc: nat) {
    argc <= MAX_ARGS && (callee.owner.Some? ==> p.methodKeyFits(callee.owner.value, callee.name))
  }

  /** Entries in the constant table. */
  function Consts(e: Expr): nat
    decreases e, 1
  {
    match e
    case Ident(_, slot) => if slot >= 0 then 0 else 2
    case Not(x) => Consts(x)
    case Logic(_, l, r) => Consts(l) + Consts(r)
    case Binary(_, l, r) => Consts(l) + Consts(r)
    case Call(callee, args) => CalleeSize(callee) + ArgConsts(args, 0)
    case FieldGet(_, _) => 2
    case IndexGet(_, _, x) => Consts(x) + 1
    case OtherExpr => 0
    case _ => 1
  }

  function CalleeSize(callee: Callee): nat {
    if callee.owner.Some? then 2 else 1
  }

  function ArgConsts(args: seq<Expr>, i: nat): nat
    requires i <= |args|
    decreases args, |args| - i
  {
    if i == |args| then 0 else Consts(args[i]) + ArgConsts(args, i + 1)
  }

  /** Temporaries in use when the expression is done. */
  function Grown(e: Expr): nat {
    match e
    case Ident(_, slot) => if slot >= 0 then 0 else 1
    case Not(x) => Grown(x) + 1
    case Logic(_, l, r) => Grown(l) + 2 + Grown(r)
    case Binary(_, l, r) => Grown(l) + Grown(r) + 1
    case Call(_, args) => |args| + 1
    case IndexGet(_, _, x) => Grown(x) + 1
    case OtherExpr => 0
    case _ => 1
  }

  /** The most temporaries in use on the way. */
  function Room(e: Expr): (n: nat)
    ensures Grown(e) <= n
    decreases e, 1
  {
    match e
    case Ident(_, slot) => if slot >= 0 then 0 else 1
    case Not(x) => Max(Room(x), Grown(x) + 1)
    case Logic(_, l, r) => Max(Room(l), Grown(l) + 2 + Room(r))
    case Binary(_, l, r) => Max(Max(Room(l), Grown(l) + Room(r)), Grown(l) + Grown(r) + 1)
    case Call(_, args) => Max(|args| + 1, |args| + ArgRoom(args, 0))
    case IndexGet(_, _, x) => Max(Room(x), Grown(x) + 1)
    case OtherExpr => 0
    case _ => 1
  }

  /** Arguments are computed one after the other above their window; literals go straight into it. */
  function ArgRoom(args: seq<Expr>, i: nat): nat
    requires i <= |args|
    decreases args, |args| - i
  {
    if i == |args| then 0 else Max(if IsLiteral(args[i]) then 0 else Room(args[i]), ArgRoom(args, i + 1))
  }

  /** The chunk is good so far and nothing has overflowed. */
  predicate Fits(c: Chunk) {
    c.ok && c.next <= MAX_REG && |c.consts| <= MAX_CONST
  }

  /** There is room for `consts` more constants and for `room` more registers. */
  predicate HasRoom(c: Chunk, consts: nat, room: nat) {
    |c.consts| + consts <= MAX_CONST && c.next + room <= MAX_REG
  }

  /** Compiling from `c` has added exactly so much. */
  predicate Used(c: Chunk, c': Chunk, consts: nat, regs: nat) {
    |c'.consts| == |c.consts| + consts && c'.next == c.next + regs
  }

  // ----- expressions -----

  lemma {:induction false} ExprCompilesIff(p: Probe, c: Chunk, e: Expr)
    requires Fits(c)
    ensures var c' := CompileExpr(p, c, e).0;
            && (c'.ok <==> Known(p, e) && HasRoom(c, Consts(e), Room(e)))
            && (c'.ok ==> Used(c, c', Consts(e), Grown(e)))
    decreases e, 1
  {
    hide Extends, CompileLiteral, CompileFieldGet, CompileNot, CompileLogic, CompileBinary;
    hide CompileIndexGet, CompileCall;
    match e
    case IntLit(_) => LiteralCompilesIff(c, e);
    case FloatLit(_) => LiteralCompilesIff(c, e);
    case BoolLit(_) => LiteralCompilesIff(c, e);
    case StrLit(_) => LiteralCompilesIff(c, e);
    case Ident(name, slot) =>
      if slot < 0 && p.bareField(name).Some? {
        FieldGetCompilesIff(c, p.bareField(name).value.0, name, p.bareField(name).value.1);
      }
    case FieldGet(owner, field) => FieldGetCompilesIff(c, owner, field, p.fieldIsScalar(owner, field));
    case Not(_) => NotCompilesIff(p, c, e);
    case Logic(_, _, _) => LogicCompilesIff(p, c, e);
    case Binary(_, _, _) => BinaryCompilesIff(p, c, e);
    case Call(callee, args) => CallCompilesIff(p, c, callee, args);
    case IndexGet(_, _, _) => IndexGetCompilesIff(p, c, e);
    case _ =>
  }

  lemma LiteralCompilesIff(c: Chunk, e: Expr)
    requires Fits(c) && IsLiteral(e)
    ensures var c' := CompileLiteral(c, e).0; (c'.ok <==> HasRoom(c, 1, 1)) && (c'.ok ==> Used(c, c', 1, 1))
  {
  }

  lemma FieldGetCompilesIff(c: Chunk, owner: Name, field: Name, scalar: bool)
    requires Fits(c)
    ensures var c' := CompileFieldGet(c, owner, field, scalar).0;
            (c'.ok <==> HasRoom(c, 2, 1)) && (c'.ok ==> Used(c, c', 2, 1))
  {
  }

  lemma {:induction false} NotCompilesIff(p: Probe, c: Chunk, e: Expr)
    requires Fits(c) && e.Not?
    ensures var c' := CompileNot(p, c, e).0;
            && (c'.ok <==> Known(p, e) && HasRoom(c, Consts(e), Room(e)))
            && (c'.ok ==> Used(c, c', Consts(e), Grown(e)))
    decreases e, 0
  {
    hide Extends, CompileExpr;
    ExprCompilesIff(p, c, e.operand);
  }

  lemma {:induction false} BinaryCompilesIff(p: Probe, c: Chunk, e: Expr)
    requires Fits(c) && e.Binary?
    ensures var c' := CompileBinary(p, c, e).0;
            && (c'.ok <==> Known(p, e) && HasRoom(c, Consts(e), Room(e)))
            && (c'.ok ==> Used(c, c', Consts(e), Grown(e)))
    decreases e, 0
  {
    hide Extends, CompileExpr, Known;
    KnownBinary(p, e);
    ExprCompilesIff(p, c, e.left);
    var c1 := CompileExpr(p, c, e.left).0;
    if c1.ok {
      ExprCompilesIff(p, c1, e.right);
    } else {
      FailedStays(p, c1, e.right);
    }
  }

  lemma KnownBinary(p: Probe, e: Expr)
    requires e.Binary?
    ensures Known(p, e) <==> Known(p, e.left) && Known(p, e.right)
  {
  }

  lemma FailedStays(p: Probe, c: Chunk, e: Expr)
    requires !c.ok
    ensures CompileExpr(p, c, e) == (c, 0)
  {
  }

  lemma {:induction false} IndexGetCompilesIff(p: Probe, c: Chunk, e: Expr)
    requires Fits(c) && e.IndexGet?
    ensures var c' := CompileIndexGet(p, c, e).0;
            && (c'.ok <==> Known(p, e) && HasRoom(c, Consts(e), Room(e)))
            && (c'.ok ==> Used(c, c', Consts(e), Grown(e)))
    decreases e, 0
  {
    hide Extends, CompileExpr, Known;
    KnownIndexGet(p, e);
    ExprCompilesIff(p, NoteSlot(c, e.slot), e.index);
  }

  lemma KnownIndexGet(p: Probe, e: Expr)
    requires e.IndexGet?
    ensures Known(p, e) <==> p.indexable(e.name, e.slot) && Known(p, e.index)
  {
  }

  lemma {:induction false} LogicCompilesIff(p: Probe, c: Chunk, e: Expr)
    requires Fits(c) && e.Logic?
    ensures var c' := CompileLogic(p, c, e).0;
            && (c'.ok <==> Known(p, e) && HasRoom(c, Consts(e), Room(e)))
            && (c'.ok ==> Used(c, c', Consts(e), Grown(e)))
    decreases e, 0
  {
    hide Extends, CompileExpr, Known;
    KnownLogic(p, e);
    ExprCompilesIff(p, c, e.left);
    var (c1, lr) := CompileExpr(p, c, e.left);
    if c1.ok {
      var (c2, tl, _) := LogicLeft(c1, lr);
      if c2.ok {
        ExprCompilesIff(p, LogicBranch(c2, e.isAnd, tl), e.right);
      }
    }
  }

  lemma KnownLogic(p: Probe, e: Expr)
    requires e.Logic?
    ensures Known(p, e) <==> Known(p, e.left) && Known(p, e.right)
  {
  }

  lemma {:induction false} CallCompilesIff(p: Probe, c: Chunk, callee: Callee, args: seq<Expr>)
    requires Fits(c)
    ensures var c' := CompileCall(p, c, callee, args).0;
            && (c'.ok <==>
                  && KnownCallee(p, callee, |args|) && (forall i | 0 <= i < |args| :: Known(p, args[i]))
                  && HasRoom(c, CalleeSize(callee) + ArgConsts(args, 0), Max(|args| + 1, |args| + ArgRoom(args, 0))))
            && (c'.ok ==> Used(c, c', CalleeSize(callee) + ArgConsts(args, 0), |args| + 1))
    decreases args, |args| + 1
  {
    hide Extends, CompileArgs, Known, ArgConsts, ArgRoom;
    var (c1, _, _) := CalleeConsts(p, c, callee);
    if c1.ok {
      var c2 := ReserveRegs(c1, |args|);
      if c2.ok {
        ArgsCompileIff(p, c2, args, 0, c1.next);
      }
    }
  }

  lemma {:induction false} ArgsCompileIff(p: Probe, c: Chunk, args: seq<Expr>, i: nat, first: nat)
    requires Fits(c) && i <= |args| && first + |args| <= MAX_REG
    ensures var c' := CompileArgs(p, c, args, i, first);
            && (c'.ok <==>
                  && (forall j | i <= j < |args| :: Known(p, args[j]))
                  && |c.consts| + ArgConsts(args, i) <= MAX_CONST && first + |args| + ArgRoom(args, i) <= MAX_REG)
            && (c'.ok ==> |c'.consts| == |c.consts| + ArgConsts(args, i))
    decreases args, |args| - i
  {
    hide Extends, CompileArg, Known, Consts, Room;
    if i < |args| {
      var c0 := c.(next := first + |args|);
      ArgCompilesIff(p, c0, args[i], first + i);
      var c1 := CompileArg(p, c0, args[i], first + i);
      if c1.ok {
        ArgsCompileIff(p, c1, args, i + 1, first);
      }
    }
  }

  lemma {:induction false} ArgCompilesIff(p: Probe, c: Chunk, e: Expr, dst: nat)
    requires Fits(c) && dst < MAX_REG
    ensures var c' := CompileArg(p, c, e, dst);
            && (c'.ok <==> Known(p, e) && HasRoom(c, Consts(e), if IsLiteral(e) then 0 else Room(e)))
            && (c'.ok ==> |c'.consts| == |c.consts| + Consts(e) && c'.next <= MAX_REG)
    decreases e, 2
  {
    hide Extends, CompileExpr;
    if !IsLiteral(e) {
      ExprCompilesIff(p, c, e);
    }
  }

  // ----- statements -----

  ghost predicate KnownStmt(p: Probe, s: Stmt) {
    match s
    case Decl(name, slot, _, v) => Known(p, v) && (slot >= 0 || p.bareField(name).Some?)
    case Assign(name, slot, v) => Known(p, v) && (slot >= 0 || p.bareField(name).Some?)
    case Block(body) => forall i | 0 <= i < |body| :: KnownStmt(p, body[i])
    case If(cond, thn, els) => Known(p, cond) && KnownStmt(p, thn) && (els.Some? ==> KnownStmt(p, els.value))
    case While(cond, loopBody) => Known(p, cond) && KnownStmt(p, loopBody)
    case CallStmt(callee, args) => KnownCallee(p, callee, |args|) && forall i | 0 <= i < |args| :: Known(p, args[i])
    case FieldSet(_, _, v) => Known(p, v)
    case IndexSet(name, slot, x, v) => p.indexable(name, slot) && Known(p, x) && Known(p, v)
    case Return(r) => r.Some? ==> Known(p, r.value)
    case OtherStmt => false
  }

  function StmtConsts(s: Stmt): nat
    decreases s, 1
  {
    match s
    case Decl(_, slot, _, v) => Consts(v) + if slot >= 0 then 0 else 2
    case Assign(_, slot, v) => Consts(v) + if slot >= 0 then 0 else 2
    case Block(body) => BodyConsts(body, 0)
    case If(cond, thn, els) => Consts(cond) + StmtConsts(thn) + if els.Some? then StmtConsts(els.value) else 0
    case While(cond, loopBody) => Consts(cond) + StmtConsts(loopBody)
    case CallStmt(callee, args) => CalleeSize(callee) + ArgConsts(args, 0)
    case FieldSet(_, _, v) => 2 + Consts(v)
    case IndexSet(_, _, x, v) => Consts(x) + 1 + Consts(v)
    case Return(r) => if r.Some? then Consts(r.value) else 0
    case OtherStmt => 0
  }

  function BodyConsts(body: seq<Stmt>, i: nat): nat
    requires i <= |body|
    decreases body, |body| - i
  {
    if i == |body| then 0 else StmtConsts(body[i]) + BodyConsts(body, i + 1)
  }

  function StmtRoom(s: Stmt): nat
    decreases s, 1
  {
    match s
    case Decl(_, _, _, v) => Room(v)
    case Assign(_, _, v) => Room(v)
    case Block(body) => BodyRoom(body, 0)
    case If(cond, thn, els) => Max(Room(cond), Max(StmtRoom(thn), if els.Some? then StmtRoom(els.value) else 0))
    case While(cond, loopBody) => Max(Room(cond), StmtRoom(loopBody))
    case CallStmt(_, args) => Max(|args| + 1, |args| + ArgRoom(args, 0))
    case FieldSet(_, _, v) => Room(v)
    case IndexSet(_, _, x, v) => Max(Room(x), Grown(x) + Room(v))
    case Return(r) => if r.Some? then Room(r.value) else 0
    case OtherStmt => 0
  }

  function BodyRoom(body: seq<Stmt>, i: nat): nat
    requires i <= |body|
    decreases body, |body| - i
  {
    if i == |body| then 0 else Max(StmtRoom(body[i]), BodyRoom(body, i + 1))
  }

  lemma EndKeeps(c: Chunk, start: nat)
    ensures var c' := EndStmt(c, start); c'.ok == c.ok && c'.next == start && c'.consts == c.consts
  {
  }

  lemma CondKeeps(c: Chunk, cr: nat, start: nat)
    ensures var c' := CondBranch(c, cr, start); c'.ok == c.ok && c'.next == start && c'.consts == c.consts
  {
  }

  /** A statement gives all its temporaries back. */
  lemma {:induction false} StmtCompilesIff(p: Probe, c: Chunk, s: Stmt)
    requires Fits(c)
    ensures var c' := CompileStmt(p, c, s);
            && (c'.ok <==> KnownStmt(p, s) && HasRoom(c, StmtConsts(s), StmtRoom(s)))
            && (c'.ok ==> Used(c, c', StmtConsts(s), 0))
    decreases s, 1
  {
    hide Extends, EndStmt, CompileExpr, CompileCall, Known, CompileStore, CompileFieldSet, CompileIndexSet;
    hide CompileIf, CompileWhile;
    match s
    case Decl(name, slot, _, v) => StoreCompilesIff(p, c, name, slot, v);
    case Assign(name, slot, v) => StoreCompilesIff(p, c, name, slot, v);
    case Block(body) =>
      BodyCompilesIff(p, c, body, 0);
      EndKeeps(CompileBlock(p, c, body, 0), c.next);
      assert KnownStmt(p, s) <==> forall j | 0 <= j < |body| :: KnownStmt(p, body[j]);
    case If(_, _, _) => IfCompilesIff(p, c, s);
    case While(_, _) => WhileCompilesIff(p, c, s);
    case CallStmt(callee, args) =>
      CallCompilesIff(p, c, callee, args);
      EndKeeps(CompileCall(p, c, callee, args).0, c.next);
    case FieldSet(owner, field, v) => FieldSetCompilesIff(p, c, owner, field, v);
    case IndexSet(name, slot, x, v) => IndexSetCompilesIff(p, c, name, slot, x, v);
    case Return(r) => ReturnCompilesIff(p, c, r);
    case OtherStmt => EndKeeps(Fail(c), c.next);
  }

  lemma ReturnCompilesIff(p: Probe, c: Chunk, result: Option<Expr>)
    requires Fits(c)
    ensures var c', s := CompileStmt(p, c, Return(result)), Return(result);
            && (c'.ok <==> KnownStmt(p, s) && HasRoom(c, StmtConsts(s), StmtRoom(s)))
            && (c'.ok ==> Used(c, c', StmtConsts(s), 0))
  {
    hide Extends, EndStmt, CompileExpr, Known;
    match result
    case None => EndKeeps(Emit(c, Instr(ReturnNil, 0, 0, 0, 0)), c.next);
    case Some(e) =>
      ExprCompilesIff(p, c, e);
      var (c1, r) := CompileExpr(p, c, e);
      EndKeeps(c1, c.next);
      EndKeeps(Emit(c1, Instr(ReturnVal, r, 0, 0, 0)), c.next);
  }

  lemma StoreCompilesIff(p: Probe, c: Chunk, name: Name, slot: int, v: Expr)
    requires Fits(c)
    ensures var c' := CompileStore(p, c, name, slot, v);
            var consts := Consts(v) + if slot >= 0 then 0 else 2;
            && (c'.ok <==> Known(p, v) && (slot >= 0 || p.bareField(name).Some?) && HasRoom(c, consts, Room(v)))
            && (c'.ok ==> Used(c, c', consts, 0))
  {
    hide Extends, EndStmt, CompileExpr, Known;
    ExprCompilesIff(p, c, v);
    var (c1, src) := CompileExpr(p, c, v);
    EndKeeps(c1, c.next);
    EndKeeps(Fail(c1), c.next);
    EndKeeps(Emit(NoteSlot(c1, slot), Instr(MoveOp(v), if slot >= 0 then slot else 0, src, 0, 0)), c.next);
    if slot < 0 && p.bareField(name).Some? {
      var (c2, ok) := AddConst(c1, Str(p.bareField(name).value.0));
      var (c3, fk) := AddConst(c2, Str(name));
      EndKeeps(c3, c.next);
      EndKeeps(Emit(c3, Instr(SetField, src, ok, fk, 0)), c.next);
    }
  }

  lemma FieldSetCompilesIff(p: Probe, c: Chunk, owner: Name, field: Name, v: Expr)
    requires Fits(c)
    ensures var c' := CompileFieldSet(p, c, owner, field, v);
            && (c'.ok <==> Known(p, v) && HasRoom(c, 2 + Consts(v), Room(v)))
            && (c'.ok ==> Used(c, c', 2 + Consts(v), 0))
  {
    hide Extends, EndStmt, CompileExpr, Known;
    var c2 := AddConst(AddConst(c, Str(owner)).0, Str(field)).0;
    EndKeeps(c2, c.next);
    if c2.ok {
      ExprCompilesIff(p, c2, v);
      var (c3, src) := CompileExpr(p, c2, v);
      EndKeeps(c3, c.next);
      EndKeeps(Emit(c3, Instr(SetField, src, |c.consts|, |c.consts| + 1, 0)), c.next);
    }
  }

  lemma IndexSetCompilesIff(p: Probe, c: Chunk, name: Name, slot: int, x: Expr, v: Expr)
    requires Fits(c)
    ensures var c' := CompileIndexSet(p, c, name, slot, x, v);
            && (c'.ok <==> p.indexable(name, slot) && Known(p, x) && Known(p, v) &&
                           HasRoom(c, Consts(x) + 1 + Consts(v), Max(Room(x), Grown(x) + Room(v))))
            && (c'.ok ==> Used(c, c', Consts(x) + 1 + Consts(v), 0))
  {
    hide Extends, EndStmt, IndexSetBody, Known, Consts, Room, Grown;
    EndKeeps(IndexSetBody(p, c, name, slot, x, v), c.next);
    IndexSetBodyIff(p, c, name, slot, x, v);
  }

  lemma IndexSetBodyIff(p: Probe, c: Chunk, name: Name, slot: int, x: Expr, v: Expr)
    requires Fits(c)
    ensures var c' := IndexSetBody(p, c, name, slot, x, v);
            && (c'.ok <==> p.indexable(name, slot) && Known(p, x) && Known(p, v) &&
                           HasRoom(c, Consts(x) + 1 + Consts(v), Max(Room(x), Grown(x) + Room(v))))
            && (c'.ok ==> |c'.consts| == |c.consts| + Consts(x) + 1 + Consts(v))
  {
    hide Extends, CompileExpr, Known, StoreChecked, Consts, Room, Grown, NoteSlot;
    if p.indexable(name, slot) {
      var c0 := NoteSlot(c, slot);
      Noted(c, slot);
      ExprCompilesIff(p, c0, x);
      var (c1, ir) := CompileExpr(p, c0, x);
      var (c2, k) := AddConst(c1, Str(name));
      if c1.ok && c2.ok {
        StoreCheckedIff(p, c2, slot, v, k, ir);
        assert IndexSetBody(p, c, name, slot, x, v) == StoreChecked(p, c2, slot, v, k, ir);
      } else {
        assert !IndexSetBody(p, c, name, slot, x, v).ok;
      }
    }
  }

  lemma Noted(c: Chunk, slot: int)
    ensures var c' := NoteSlot(c, slot); c'.ok == c.ok && c'.next == c.next && c'.consts == c.consts
  {
  }

  lemma StoreCheckedIff(p: Probe, c: Chunk, slot: int, v: Expr, k: nat, ir: nat)
    requires Fits(c)
    ensures var c' := StoreChecked(p, c, slot, v, k, ir);
            && (c'.ok <==> Known(p, v) && HasRoom(c, Consts(v), Room(v)))
            && (c'.ok ==> |c'.consts| == |c.consts| + Consts(v))
  {
    hide Extends, CompileExpr, Known, Consts, Room, Grown;
    ExprCompilesIff(p, Emit(c, Instr(PrepIndex, if slot < 0 then NO_REG else slot, k, ir, 0)), v);
  }

  lemma {:induction false} BodyCompilesIff(p: Probe, c: Chunk, body: seq<Stmt>, i: nat)
    requires Fits(c) && i <= |body|
    ensures var c' := CompileBlock(p, c, body, i);
            && (c'.ok <==> (forall j | i <= j < |body| :: KnownStmt(p, body[j]))
                           && HasRoom(c, BodyConsts(body, i), BodyRoom(body, i)))
            && (c'.ok ==> Used(c, c', BodyConsts(body, i), 0))
    decreases body, |body| - i
  {
    hide Extends, CompileStmt, KnownStmt, StmtConsts, StmtRoom;
    if i < |body| {
      StmtCompilesIff(p, c, body[i]);
      var c1 := CompileStmt(p, c, body[i]);
      if c1.ok {
        BodyCompilesIff(p, c1.(next := c.next), body, i + 1);
      }
    }
  }

  lemma {:induction false} IfCompilesIff(p: Probe, c: Chunk, s: Stmt)
    requires Fits(c) && s.If?
    ensures var c' := CompileIf(p, c, s);
            && (c'.ok <==> KnownStmt(p, s) && HasRoom(c, StmtConsts(s), StmtRoom(s)))
            && (c'.ok ==> Used(c, c', StmtConsts(s), 0))
    decreases s, 0
  {
    hide Extends, EndStmt, CompileExpr, CompileStmt, CondBranch, Known;
    ExprCompilesIff(p, c, s.cond);
    var (c1, cr) := CompileExpr(p, c, s.cond);
    if c1.ok {
      CondKeeps(c1, cr, c.next);
      var c2 := CondBranch(c1, cr, c.next);
      StmtCompilesIff(p, c2, s.thn);
      var c3 := CompileStmt(p, c2, s.thn);
      if c3.ok {
        CodeKept(p, c1, cr, c.next, s.thn);
        EndKeeps(Patch(c3, |c1.code|, |c3.code|), c.next);
        if s.els.Some? {
          var jmp := |c3.code|;
          var c4 := Patch(Emit(c3, Instr(Jump, 0, 0, 0, 0)), |c1.code|, jmp + 1).(next := c.next);
          StmtCompilesIff(p, c4, s.els.value);
          var c5 := CompileStmt(p, c4, s.els.value);
          if c5.ok {
            ElseKept(p, c4, s.els.value);
            EndKeeps(Patch(c5, jmp, |c5.code|), c.next);
          }
        }
      }
    }
  }

  lemma CodeKept(p: Probe, c1: Chunk, cr: nat, start: nat, s: Stmt)
    ensures |c1.code| < |CondBranch(c1, cr, start).code| <= |CompileStmt(p, CondBranch(c1, cr, start), s).code|
  {
    hide CompileStmt;
  }

  lemma ElseKept(p: Probe, c: Chunk, s: Stmt)
    ensures |c.code| <= |CompileStmt(p, c, s).code|
  {
    hide CompileStmt;
  }

  lemma {:induction false} WhileCompilesIff(p: Probe, c: Chunk, s: Stmt)
    requires Fits(c) && s.While?
    ensures var c' := CompileWhile(p, c, s);
            && (c'.ok <==> KnownStmt(p, s) && HasRoom(c, StmtConsts(s), StmtRoom(s)))
            && (c'.ok ==> Used(c, c', StmtConsts(s), 0))
    decreases s, 0
  {
    hide Extends, EndStmt, CompileExpr, CompileStmt, CondBranch, Known;
    ExprCompilesIff(p, c, s.cond);
    var (c1, cr) := CompileExpr(p, c, s.cond);
    if c1.ok {
      CondKeeps(c1, cr, c.next);
      var c2 := CondBranch(c1, cr, c.next);
      StmtCompilesIff(p, c2, s.loopBody);
      var c3 := CompileStmt(p, c2, s.loopBody);
      if c3.ok {
        CodeKept(p, c1, cr, c.next, s.loopBody);
        var c4 := Emit(c3, Instr(Jump, 0, 0, 0, |c.code|));
        EndKeeps(Patch(c4, |c1.code|, |c4.code|), c.next);
      }
    }
  }

  // ----- chunks -----

  /** A loop is compiled if and only if it is known, with at most 128 constants and 384 temporaries. */
  lemma LoopCompilesIff(p: Probe, loop: Stmt)
    ensures CompileLoop(p, loop).Some? <==> KnownStmt(p, loop) && StmtConsts(loop) <= 128 && StmtRoom(loop) <= 384
  {
    hide CompileStmt, KnownStmt, StmtConsts, StmtRoom;
    StmtCompilesIff(p, InitChunk(), loop);
  }

  /** So is a function body. */
  lemma FnCompilesIff(p: Probe, body: seq<Stmt>)
    ensures CompileFn(p, body).Some? <==>
              && (forall i | 0 <= i < |body| :: KnownStmt(p, body[i]))
              && BodyConsts(body, 0) <= 128 && BodyRoom(body, 0) <= 384
  {
    hide CompileBlock, KnownStmt, BodyConsts, BodyRoom;
    BodyCompilesIff(p, InitChunk(), body, 0);
  }
}
