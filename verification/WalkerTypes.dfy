/**
 What the walker promises by itself: variables keep their types, a variable that
 was not written cannot be read, and which operations end in an error.
 */
module WalkerTypes {
  import opened Values
  import opened Ast
  import opened Bytecode
  import opened Callbacks
  import opened TreeWalker
  import opened Vm

  // ----- types -----

  /** Every declaration of the slot demands type `t`. */
  ghost predicate DeclaredAs(s: Stmt, slot: int, t: int) {
    match s
    case Decl(_, i, declType, _) => i == slot ==> declType == Some(t)
    case Block(body) => forall i | 0 <= i < |body| :: DeclaredAs(body[i], slot, t)
    case If(_, thn, els) => DeclaredAs(thn, slot, t) && (els.Some? ==> DeclaredAs(els.value, slot, t))
    case While(_, loopBody) => DeclaredAs(loopBody, slot, t)
    case _ => true
  }

  predicate SlotIs(f: Frame, slot: int, t: int) {
    0 <= slot < |f.slots| ==> f.slots[slot].Nil? || Tag(f.slots[slot]) == t
  }

  /** A variable declared with one type holds values of that type, whatever is assigned and however often. */
  lemma {:induction false} TypesKept(cx: Context, fuel: nat, s: Stmt, f: Frame, log: Log, slot: int, t: int)
    requires DeclaredAs(s, slot, t) && SlotIs(f, slot, t) && Exec(cx, fuel, s, f, log).Done?
    ensures SlotIs(Exec(cx, fuel, s, f, log).frame, slot, t)
    decreases fuel, s, 1
  {
    hide Eval, EvalCall;
    match s
    case Block(body) => BlockTypes(cx, fuel, body, 0, f, log, slot, t);
    case If(cond, thn, els) =>
      var v := Eval(cx.world, cond, f, log);
      if CondTruth(cx.world.ops, v.v) {
        TypesKept(cx, fuel, thn, f, v.log, slot, t);
      } else if els.Some? {
        TypesKept(cx, fuel, els.value, f, v.log, slot, t);
      }
    case While(_, _) => WhileTypes(cx, fuel, s, f, log, slot, t);
    case _ =>
  }

  lemma {:induction false} BlockTypes(
    cx: Context, fuel: nat, body: seq<Stmt>, i: nat, f: Frame, log: Log, slot: int, t: int)
    requires i <= |body| && (forall j | 0 <= j < |body| :: DeclaredAs(body[j], slot, t)) && SlotIs(f, slot, t)
    requires ExecBlock(cx, fuel, body, i, f, log).Done?
    ensures SlotIs(ExecBlock(cx, fuel, body, i, f, log).frame, slot, t)
    decreases fuel, body, |body| - i
  {
    hide Exec, SlotIs;
    if i < |body| {
      TypesKept(cx, fuel, body[i], f, log, slot, t);
      var r := Exec(cx, fuel, body[i], f, log);
      if r.signal.Normal? {
        BlockTypes(cx, fuel, body, i + 1, r.frame, r.log, slot, t);
      }
    }
  }

  lemma {:induction false} WhileTypes(cx: Context, fuel: nat, s: Stmt, f: Frame, log: Log, slot: int, t: int)
    requires s.While? && DeclaredAs(s, slot, t) && SlotIs(f, slot, t) && ExecWhile(cx, fuel, s, f, log).Done?
    ensures SlotIs(ExecWhile(cx, fuel, s, f, log).frame, slot, t)
    decreases fuel, s, 0
  {
    hide Exec, Eval, SlotIs;
    var v := Eval(cx.world, s.cond, f, log);
    if CondTruth(cx.world.ops, v.v) {
      TypesKept(cx, fuel - 1, s.loopBody, f, v.log, slot, t);
      var r := Exec(cx, fuel - 1, s.loopBody, f, v.log);
      if r.signal.Normal? {
        WhileTypes(cx, fuel - 1, s, r.frame, r.log, slot, t);
      }
    }
  }

  // ----- written and unwritten slots -----

  /** No statement writes the slot or one beyond it. */
  ghost predicate WritesBelow(s: Stmt, slot: int) {
    match s
    case Decl(_, i, _, _) => i < slot
    case Assign(_, i, _) => i < slot
    case Block(body) => forall i | 0 <= i < |body| :: WritesBelow(body[i], slot)
    case If(_, thn, els) => WritesBelow(thn, slot) && (els.Some? ==> WritesBelow(els.value, slot))
    case While(_, loopBody) => WritesBelow(loopBody, slot)
    case _ => true
  }

  lemma {:induction false} StaysUnwritten(cx: Context, fuel: nat, s: Stmt, f: Frame, log: Log, slot: nat)
    requires WritesBelow(s, slot) && f.size <= slot && Exec(cx, fuel, s, f, log).Done?
    ensures Exec(cx, fuel, s, f, log).frame.size <= slot
    decreases fuel, s, 1
  {
    hide Eval, EvalCall;
    match s
    case Block(body) => BlockUnwritten(cx, fuel, body, 0, f, log, slot);
    case If(cond, thn, els) =>
      var v := Eval(cx.world, cond, f, log);
      if CondTruth(cx.world.ops, v.v) {
        StaysUnwritten(cx, fuel, thn, f, v.log, slot);
      } else if els.Some? {
        StaysUnwritten(cx, fuel, els.value, f, v.log, slot);
      }
    case While(_, _) => WhileUnwritten(cx, fuel, s, f, log, slot);
    case _ =>
  }

  lemma {:induction false} BlockUnwritten(
    cx: Context, fuel: nat, body: seq<Stmt>, i: nat, f: Frame, log: Log, slot: nat)
    requires i <= |body| && (forall j | 0 <= j < |body| :: WritesBelow(body[j], slot)) && f.size <= slot
    requires ExecBlock(cx, fuel, body, i, f, log).Done?
    ensures ExecBlock(cx, fuel, body, i, f, log).frame.size <= slot
    decreases fuel, body, |body| - i
  {
    hide Exec;
    if i < |body| {
      StaysUnwritten(cx, fuel, body[i], f, log, slot);
      var r := Exec(cx, fuel, body[i], f, log);
      if r.signal.Normal? {
        BlockUnwritten(cx, fuel, body, i + 1, r.frame, r.log, slot);
      }
    }
  }

  lemma {:induction false} WhileUnwritten(cx: Context, fuel: nat, s: Stmt, f: Frame, log: Log, slot: nat)
    requires s.While? && WritesBelow(s, slot) && f.size <= slot && ExecWhile(cx, fuel, s, f, log).Done?
    ensures ExecWhile(cx, fuel, s, f, log).frame.size <= slot
    decreases fuel, s, 0
  {
    hide Exec, Eval;
    var v := Eval(cx.world, s.cond, f, log);
    if CondTruth(cx.world.ops, v.v) {
      StaysUnwritten(cx, fuel - 1, s.loopBody, f, v.log, slot);
      var r := Exec(cx, fuel - 1, s.loopBody, f, v.log);
      if r.signal.Normal? {
        WhileUnwritten(cx, fuel - 1, s, r.frame, r.log, slot);
      }
    }
  }

  /**
   Reading or assigning a variable beyond everything written so far is an error,
   after any code and whatever the stack holds there.
   */
  lemma UnwrittenRaises(
    cx: Context, fuel: nat, body: seq<Stmt>, f: Frame, log: Log, name: Name, slot: nat, value: Expr, more: nat)
    requires (forall j | 0 <= j < |body| :: WritesBelow(body[j], slot)) && f.size <= slot
    requires ExecBlock(cx, fuel, body, 0, f, log).Done?
    ensures var r := ExecBlock(cx, fuel, body, 0, f, log);
            && Eval(cx.world, Ident(name, slot), r.frame, r.log) == RaisedE
            && !Exec(cx, more, Assign(name, slot, value), r.frame, r.log).Done?
  {
    BlockUnwritten(cx, fuel, body, 0, f, log, slot);
  }

  /** So is reading a slot that holds nothing. */
  lemma NothingRaises(w: World, f: Frame, log: Log, name: Name, slot: nat)
    requires slot < |f.slots| && f.slots[slot].Nil?
    ensures Eval(w, Ident(name, slot), f, log) == RaisedE
  {
  }

  /** What a declaration or an assignment stores is what is read next; other variables read as before. */
  lemma StoredIsRead(cx: Context, fuel: nat, s: Stmt, f: Frame, log: Log, name: Name, other: Name, i: int)
    requires (s.Decl? || s.Assign?) && Exec(cx, fuel, s, f, log).Done? && i != s.slot
    requires Eval(cx.world, s.value, f, log).Val?
    ensures var r, x := Exec(cx, fuel, s, f, log), Eval(cx.world, s.value, f, log);
            && r.log == x.log && r.signal == Normal
            && (!x.v.Nil? ==> Eval(cx.world, Ident(name, s.slot), r.frame, r.log) == Val(x.v, r.log))
            && (Eval(cx.world, Ident(other, i), f, r.log).Val? ==>
                  Eval(cx.world, Ident(other, i), r.frame, r.log) == Eval(cx.world, Ident(other, i), f, r.log))
  {
    hide EvalCall;
  }

  /** Values of the wrong type are refused, by declarations and by assignments. */
  lemma WrongTypeRaises(cx: Context, fuel: nat, s: Stmt, f: Frame, log: Log)
    requires (s.Decl? || s.Assign?) && Eval(cx.world, s.value, f, log).Val? && 0 <= s.slot < |f.slots|
    ensures var x := Eval(cx.world, s.value, f, log);
            Exec(cx, fuel, s, f, log) == Raised <==>
              if s.Decl? then s.declType.Some? && s.declType.value != Tag(x.v)
              else s.slot >= f.size || f.slots[s.slot].Nil? || Tag(f.slots[s.slot]) != Tag(x.v)
  {
    hide Eval;
  }

  // ----- operators -----

  /**
   When an operator ends in an error, and what the machine, which reports none,
   puts in its place: zero for a division, and false for an ordering of anything
   but numbers.
   */
  lemma OperatorRaisesIff(ops: FloatOps, op: BinOp, l: Value, r: Value)
    ensures EvalBinary(ops, op, l, r).None? <==>
              && op != Eq && op != Neq
              && (|| !(l.Int? || l.Float?) || !(r.Int? || r.Float?)
                  || (op == Div && ops.eq(if r.Int? then ops.ofInt(r.i) else r.bits, ops.ofInt(0)))
                  || (op == Mod && !(l.Int? && r.Int? && ops.toInt(ops.ofInt(r.i)) != 0)))
    ensures op == Mod && EvalBinary(ops, op, l, r).None? && l.Int? && r.Int? ==>
              BinaryResult(ops, OpMod, l, r) == Int(0)
    ensures op == Lt && EvalBinary(ops, op, l, r).None? ==> BinaryResult(ops, OpLt, l, r) == Bool(0)
  {
  }
}
