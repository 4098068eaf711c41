/**
 Where the agreement of the two tiers ends.  Each limit of the equivalence
 results is the real one: beyond it a concrete program tells the tiers apart.
 */
module Boundaries {
  import opened Values
  import opened Ast
  import opened Bytecode
  import opened Callbacks
  import opened Compiler
  import opened Vm
  import opened TreeWalker
  import opened ExprSimulation
  import opened StmtSimulation
  import opened ChunkSafety
  import opened TierEquivalence
  import opened RegisterFile
  import opened SlotBound
  import opened SlotWitness
  import opened WholeProgram

  // ----- local slots reach the temporaries -----

  /**
   Comparisons of the first local with itself, `n` of them in a balanced tree, so
   that no expression nests deeper than the parser allows; each takes a temporary.
   */
  function Compared(n: nat): Expr {
    if n == 0 then Ident([], 0) else Binary(Eq, Compared((n - 1) / 2), Compared(n - 1 - (n - 1) / 2))
  }

  function Height(e: Expr): nat {
    if e.Binary? then 1 + Max(Height(e.left), Height(e.right)) else 0
  }

  function Pow2(h: nat): nat {
    if h == 0 then 1 else 2 * Pow2(h - 1)
  }

  lemma {:induction false} ComparedIsFlat(n: nat, h: nat)
    requires n < Pow2(h)
    ensures Height(Compared(n)) <= h
    decreases n
  {
    hide Height;
    if n == 0 {
      HeightOfLeaf();
    } else {
      var l, r := (n - 1) / 2, n - 1 - (n - 1) / 2;
      assert h > 0 && n < 2 * Pow2(h - 1) && l < Pow2(h - 1) && r < Pow2(h - 1);
      ComparedIsFlat(l, h - 1);
      ComparedIsFlat(r, h - 1);
      HeightOfNode(Compared(l), Compared(r), h - 1);
    }
  }

  lemma HeightOfLeaf()
    ensures Height(Compared(0)) == 0
  {
  }

  lemma HeightOfNode(l: Expr, r: Expr, h: nat)
    requires Height(l) <= h && Height(r) <= h
    ensures Height(Binary(Eq, l, r)) <= h + 1
  {
  }

  /** A temporary is computed into the first local, then the local `slot` is returned. */
  function Clobber(slot: nat): seq<Stmt>
    requires TEMP_BASE <= slot
  {
    [Decl([], 0, None, Compared(slot - TEMP_BASE + 1)), Return(Some(Ident([], slot)))]
  }

  lemma {:induction false} ComparedCompiled(p: Probe, c: Chunk, n: nat)
    requires c.ok && c.next + n <= MAX_REG
    ensures var (c', r) := CompileExpr(p, c, Compared(n));
            c'.ok && r == (if n == 0 then 0 else c.next + n - 1) && c'.next == c.next + n && c'.strs == c.strs
    decreases n
  {
    hide Extends;
    if n > 0 {
      var l, r := (n - 1) / 2, n - 1 - (n - 1) / 2;
      ComparedCompiled(p, c, l);
      ComparedCompiled(p, CompileExpr(p, c, Compared(l)).0, r);
      BinaryCompiled(p, c, Compared(l), Compared(r));
    }
  }

  lemma BinaryCompiled(p: Probe, c: Chunk, l: Expr, r: Expr)
    requires c.ok
    ensures var (c1, r1) := CompileExpr(p, c, l);
            var (c2, r2) := CompileExpr(p, c1, r);
            var (c3, dst) := AllocReg(c2);
            CompileExpr(p, c, Binary(Eq, l, r)) == (Emit(c3, Instr(OpEq, dst, r1, r2, 0)), dst)
  {
  }

  lemma {:induction false} ComparedSlots(n: nat)
    ensures ExprSlotsBelow(Compared(n), 1) && (n > 0 ==> !MayString(Compared(n)))
  {
    if n > 0 {
      ComparedSlots((n - 1) / 2);
      ComparedSlots(n - 1 - (n - 1) / 2);
    }
  }

  lemma ClobberSlots(slot: nat)
    requires TEMP_BASE <= slot
    ensures forall i | 0 <= i < |Clobber(slot)| :: SlotsBelow(Clobber(slot)[i], slot + 1)
  {
    ComparedSlots(slot - TEMP_BASE + 1);
    WiderExprSlots(Compared(slot - TEMP_BASE + 1), 1, slot + 1);
  }

  lemma {:induction false} ComparedValue(w: World, n: nat, f: Frame, log: Log)
    requires f.size > 0 && |f.slots| > 0 && !f.slots[0].Nil?
    ensures var v := Eval(w, Compared(n), f, log); v.Val? && v.log == log && (n > 0 ==> v.v.Bool?)
  {
    hide EvalBinary;
    if n > 0 {
      ComparedValue(w, (n - 1) / 2, f, log);
      ComparedValue(w, n - 1 - (n - 1) / 2, f, log);
      EqualityIsBool(w.ops, Eval(w, Compared((n - 1) / 2), f, log).v,
                     Eval(w, Compared(n - 1 - (n - 1) / 2), f, log).v);
    }
  }

  lemma EqualityIsBool(ops: FloatOps, l: Value, r: Value)
    ensures EvalBinary(ops, Eq, l, r).Some? && EvalBinary(ops, Eq, l, r).value.Bool?
  {
  }

  lemma {:induction false} NoDrops(c: Chunk, first: nat, end: nat)
    requires c.strs == {}
    ensures StringDrops(c, first, end) == c
    decreases end - first
  {
    if first < end && first < MAX_REG {
      NoDrops(c, first + 1, end);
    }
  }

  /** The two statements as compiled: the chain, a move into slot 0, and the return of `slot`. */
  lemma ClobberCompiled(p: Probe, slot: nat) returns (k: Chunk, c1: Chunk)
    requires TEMP_BASE <= slot < MAX_REG
    ensures CompileFn(p, Clobber(slot)) == Some(k)
    ensures CompileExpr(p, InitChunk(), Compared(slot - TEMP_BASE + 1)) == (c1, slot) && c1.ok
    ensures Embeds(k, InitChunk(), c1) && |k.code| == |c1.code| + 3
    ensures k.code[|c1.code|] == Instr(Move, 0, slot, 0, 0)
    ensures k.code[|c1.code| + 1] == Instr(ReturnVal, slot, 0, 0, 0)
  {
    hide CompileExpr;
    var c, body := InitChunk(), Clobber(slot);
    ComparedCompiled(p, c, slot - TEMP_BASE + 1);
    ComparedSlots(slot - TEMP_BASE + 1);
    c1 := CompileExpr(p, c, Compared(slot - TEMP_BASE + 1)).0;
    var c2 := Emit(NoteSlot(c1, 0), Instr(Move, 0, slot, 0, 0));
    NoDrops(c2, c.next, c2.next);
    var c3 := c2.(next := c.next);
    assert CompileStmt(p, c, body[0]) == c3;
    IdentReturned(p, c3, slot);
    var c4 := Emit(NoteSlot(c3, slot), Instr(ReturnVal, slot, 0, 0, 0));
    assert CompileBlock(p, c, body, 0) == CompileBlock(p, c3, body, 1) == CompileBlock(p, c4, body, 2) == c4;
    k := CompileFn(p, body).value;
  }

  lemma IdentReturned(p: Probe, c: Chunk, slot: nat)
    requires c.ok && c.strs == {}
    ensures CompileStmt(p, c, Return(Some(Ident([], slot))))
         == Emit(NoteSlot(c, slot), Instr(ReturnVal, slot, 0, 0, 0))
  {
    NoDrops(Emit(NoteSlot(c, slot), Instr(ReturnVal, slot, 0, 0, 0)), c.next, c.next);
  }

  /** All locals up to `slot` hold 7. */
  function Sevens(slot: nat): seq<Value> {
    seq(slot + 1, _ => Int(7))
  }

  /** The machine returns the temporary it computed in the place of the local. */
  lemma MachineClobbers(p: Probe, w: World, slot: nat, log: Log) returns (k: Chunk, n: nat)
    requires TEMP_BASE <= slot < MAX_REG && ExactInts(w.ops)
    ensures CompileFn(p, Clobber(slot)) == Some(k)
    ensures var m := Run(k, w, State(0, Registers(Sevens(slot), MAX_REG), log, Running), n);
            m.status.Returned? && m.status.result.Bool?
  {
    hide Run, Step, CompileFn;
    var c1: Chunk;
    k, c1 := ClobberCompiled(p, slot);
    var f := FnFrame(Sevens(slot));
    var m := State(0, f.slots, log, Running);
    var e := Compared(slot - TEMP_BASE + 1);
    ComparedValue(w, slot - TEMP_BASE + 1, f, log);
    ComparedSlots(slot - TEMP_BASE + 1);
    WiderExprSlots(e, 1, TEMP_BASE);
    var v := Eval(w, e, f, log);
    var m1 := ExprCorrect(p, InitChunk(), e, c1, slot, k, w, w, f, log, v.v, v.log, m);
    StepMove(k, w, m1, Instr(Move, 0, slot, 0, 0));
    var m2 := Stored(m1, 0, v.v);
    ReachesTrans(k, w, m, m1, m2);
    StepReturn(k, w, m2, Instr(ReturnVal, slot, 0, 0, 0));
    ReachesTrans(k, w, m, m2, m2.(status := Returned(v.v)));
    n :| Run(k, w, m, n) == m2.(status := Returned(v.v));
  }

  lemma WalkerKeeps(w: World, slot: nat, fuel: nat, log: Log)
    requires TEMP_BASE <= slot < MAX_REG
    ensures var r := ExecBlock(Context(w, _ => false), fuel, Clobber(slot), 0, FnFrame(Sevens(slot)), log);
            r.Done? && r.signal == Signal.Ret(Int(7))
  {
    var cx := Context(w, _ => false);
    var f := FnFrame(Sevens(slot));
    var body := Clobber(slot);
    ComparedValue(w, slot - TEMP_BASE + 1, f, log);
    var v := Eval(w, Compared(slot - TEMP_BASE + 1), f, log);
    var f1 := WriteSlot(f, 0, v.v);
    assert Exec(cx, fuel, body[0], f, log) == Done(f1, log, Normal);
    assert f1.slots[slot] == Int(7);
    assert Exec(cx, fuel, body[1], f1, log) == Done(f1, log, Signal.Ret(Int(7)));
    assert ExecBlock(cx, fuel, body, 1, f1, log) == Done(f1, log, Signal.Ret(Int(7)));
  }

  /** One run of a compiled function gives the value the walker gives. */
  ghost predicate FaithfulOn(p: Probe, body: seq<Stmt>, w: World, fuel: nat, args: seq<Value>, log: Log)
    requires |args| <= MAX_REG
  {
    var r := ExecBlock(Context(w, _ => false), fuel, body, 0, FnFrame(args), log);
    match CompileFn(p, body)
    case None => true
    case Some(k) =>
      r.Done? ==>
        exists n: nat ::
          Run(k, w, State(0, Registers(args, MAX_REG), log, Running), n).status == Returned(FnResult(r).value)
  }

  /** Every function whose locals sit below `lim` compiles faithfully. */
  ghost predicate Faithful(lim: nat) {
    forall p, body: seq<Stmt>, w: World, fuel: nat, args: seq<Value>, log |
      |args| <= MAX_REG && ExactInts(w.ops) && (forall i | 0 <= i < |body| :: SlotsBelow(body[i], lim)) ::
      FaithfulOn(p, body, w, fuel, args, log)
  }

  lemma FaithfulBelow(lim: nat, p: Probe, body: seq<Stmt>, w: World, fuel: nat, args: seq<Value>, log: Log)
    requires lim <= TEMP_BASE && |args| <= MAX_REG && ExactInts(w.ops)
    requires forall i | 0 <= i < |body| :: SlotsBelow(body[i], lim)
    ensures FaithfulOn(p, body, w, fuel, args, log)
  {
    hide CompileFn, ExecBlock, Run;
    var cx := Context(w, _ => false);
    forall i | 0 <= i < |body| ensures SlotsBelow(body[i], TEMP_BASE) { WiderSlots(body[i], lim, TEMP_BASE); }
    if CompileFn(p, body).Some? && ExecBlock(cx, fuel, body, 0, FnFrame(args), log).Done? {
      var n := FnRefines(p, body, CompileFn(p, body).value, cx, w, fuel, args, log);
    }
  }

  lemma {:induction false} WiderExprSlots(e: Expr, lim: int, lim': int)
    requires ExprSlotsBelow(e, lim) && lim <= lim'
    ensures ExprSlotsBelow(e, lim')
  {
    match e
    case Not(x) => WiderExprSlots(x, lim, lim');
    case Logic(_, l, r) => WiderExprSlots(l, lim, lim'); WiderExprSlots(r, lim, lim');
    case Binary(_, l, r) => WiderExprSlots(l, lim, lim'); WiderExprSlots(r, lim, lim');
    case Call(_, args) =>
      forall i | 0 <= i < |args| ensures ExprSlotsBelow(args[i], lim') { WiderExprSlots(args[i], lim, lim'); }
    case IndexGet(_, _, x) => WiderExprSlots(x, lim, lim');
    case _ =>
  }

  lemma {:induction false} WiderSlots(s: Stmt, lim: int, lim': int)
    requires SlotsBelow(s, lim) && lim <= lim'
    ensures SlotsBelow(s, lim')
  {
    match s
    case Decl(_, _, _, v) => WiderExprSlots(v, lim, lim');
    case Assign(_, _, v) => WiderExprSlots(v, lim, lim');
    case Block(body) =>
      forall i | 0 <= i < |body| ensures SlotsBelow(body[i], lim') { WiderSlots(body[i], lim, lim'); }
    case If(cond, t, e) =>
      WiderExprSlots(cond, lim, lim');
      WiderSlots(t, lim, lim');
      if e.Some? { WiderSlots(e.value, lim, lim'); }
    case While(cond, b) => WiderExprSlots(cond, lim, lim'); WiderSlots(b, lim, lim');
    case CallStmt(_, args) =>
      forall i | 0 <= i < |args| ensures ExprSlotsBelow(args[i], lim') { WiderExprSlots(args[i], lim, lim'); }
    case FieldSet(_, _, v) => WiderExprSlots(v, lim, lim');
    case IndexSet(_, _, x, v) => WiderExprSlots(x, lim, lim'); WiderExprSlots(v, lim, lim');
    case Return(r) => if r.Some? { WiderExprSlots(r.value, lim, lim'); }
    case OtherStmt =>
  }

  /** The first temporary register is the exact bound on local slots. */
  lemma FaithfulIff(lim: nat)
    requires lim <= MAX_REG
    ensures Faithful(lim) <==> lim <= TEMP_BASE
  {
    hide FaithfulOn, Clobber, RoundingOps, SlotsBelow;
    if lim <= TEMP_BASE {
      forall p, body: seq<Stmt>, w: World, fuel: nat, args: seq<Value>, log |
        |args| <= MAX_REG && ExactInts(w.ops) && (forall i | 0 <= i < |body| :: SlotsBelow(body[i], lim))
        ensures FaithfulOn(p, body, w, fuel, args, log)
      {
        FaithfulBelow(lim, p, body, w, fuel, args, log);
      }
    } else {
      var p := Probe(_ => None, (_, _) => false, _ => false, (_, _) => false, (_, _) => false);
      var w := World(RoundingOps(), (log, _) => Refused(log));
      RoundingIsExact();
      NotFaithful(lim - 1, p, w, []);
      var body := Clobber(lim - 1);
      ClobberSlots(lim - 1);
      assert !FaithfulOn(p, body, w, 0, Sevens(lim - 1), []);
    }
  }

  /** Each such slot has a function that tells the tiers apart, and it nests only nine deep. */
  lemma NotFaithful(slot: nat, p: Probe, w: World, log: Log)
    requires TEMP_BASE <= slot < MAX_REG && ExactInts(w.ops)
    ensures !FaithfulOn(p, Clobber(slot), w, 0, Sevens(slot), log) && Height(Clobber(slot)[0].value) <= 9
  {
    hide CompileFn, ExecBlock, Run;
    assert Pow2(9) == 4 * Pow2(7) == 16 * Pow2(5) == 64 * Pow2(3) == 512;
    ComparedIsFlat(slot - TEMP_BASE + 1, 9);
    WalkerKeeps(w, slot, 0, log);
    var k, n := MachineClobbers(p, w, slot, log);
    var m := State(0, Registers(Sevens(slot), MAX_REG), log, Running);
    forall j: nat ensures Run(k, w, m, j).status != Returned(Int(7)) {
      if Run(k, w, m, j).status == Returned(Int(7)) {
        StopIsFinal(k, w, m, j, n);
      }
    }
  }

  // ----- the register file of a compiled function -----

  /** The file of a compiled function covers every register it names exactly when it covers its highest local. */
  lemma FileCoversIff(p: Probe, body: seq<Stmt>, argc: nat)
    requires CompileFn(p, body).Some?
    ensures var k := CompileFn(p, body).value;
            (forall at: nat, r: nat | at < |k.code| && Names(k.code[at], r) :: r < FileSize(k, argc))
            <==> k.maxSlot <= Max(k.next, argc) + 32
  {
    hide Names, Closed;
    var k := CompileFn(p, body).value;
    FnChunkClosed(p, body);
    AnnouncedLimit(k);
    if k.maxSlot <= Max(k.next, argc) + 32 {
      forall at: nat, r: nat | at < |k.code| && Names(k.code[at], r) ensures r < FileSize(k, argc) {
        NamedBelowLimit(k, at, r);
      }
    } else {
      HighestLocalNamed(p, body);
      var at: nat :| at < |k.code| && Names(k.code[at], k.maxSlot - 1);
    }
  }

  lemma AnnouncedLimit(k: Chunk)
    requires Closed(k)
    ensures Limit(k) == Max(k.next, k.maxSlot)
  {
  }

  /** A function that only returns one of its locals: the file covers that local or it does not. */
  lemma ReturnedLocalCovered(p: Probe, slot: nat, argc: nat)
    ensures var k := CompileFn(p, [Return(Some(Ident([], slot)))]);
            k.Some? && Names(k.value.code[0], slot) &&
            (slot < FileSize(k.value, argc) <==> slot < Max(TEMP_BASE, argc) + 32)
  {
    var c, body := InitChunk(), [Return(Some(Ident([], slot)))];
    IdentReturned(p, c, slot);
    var c1 := Emit(NoteSlot(c, slot), Instr(ReturnVal, slot, 0, 0, 0));
    assert CompileBlock(p, c, body, 0) == CompileBlock(p, c1, body, 1) == c1;
  }

  // ----- conditions -----

  /** The tiers branch alike on every value but a non-empty string. */
  lemma ConditionsAgreeIff(ops: FloatOps, v: Value)
    ensures TruthyCond(ops, v) == CondTruth(ops, v) <==> !(v.Str? && v.s != [])
  {
  }

  // ----- exact integers -----

  /** A number as a pattern: the integer itself, folded into the naturals. */
  function Fold(i: int): Bits {
    if i >= 0 then 2 * i else -2 * i - 1
  }

  function Unfold(x: Bits): int {
    if x % 2 == 0 then x / 2 else -((x + 1) / 2)
  }

  /** Above 2^53 only every second integer is a double. */
  function Rounded(i: int): int {
    if Exact(i) then i else 2 * (i / 2)
  }

  /** Doubles as far as integers can tell: exact up to 2^53, rounded beyond. */
  function RoundingOps(): FloatOps {
    FloatOps(
      (x: Bits, y: Bits) => Fold(Rounded(Unfold(x) + Unfold(y))),
      (x: Bits, y: Bits) => Fold(Rounded(Unfold(x) - Unfold(y))),
      (x: Bits, y: Bits) => Fold(Rounded(Unfold(x) * Unfold(y))),
      (x: Bits, y: Bits) => Fold(Rounded(if Unfold(y) == 0 then 0 else Unfold(x) / Unfold(y))),
      (i: int) => Fold(Rounded(i)),
      (x: Bits) => Unfold(x),
      (x: Bits, y: Bits) => Unfold(x) == Unfold(y),
      (x: Bits, y: Bits) => Unfold(x) < Unfold(y),
      (x: Bits, y: Bits) => Unfold(x) <= Unfold(y))
  }

  lemma FoldUnfold(i: int)
    ensures Unfold(Fold(i)) == i
  {
  }

  /** What the operations do to exact integers. */
  lemma RoundingSteps(ops: FloatOps, a: int, b: int)
    requires ops == RoundingOps() && Exact(a) && Exact(b)
    ensures ops.toInt(ops.add(ops.ofInt(a), ops.ofInt(b))) == Rounded(a + b)
    ensures ops.toInt(ops.sub(ops.ofInt(a), ops.ofInt(b))) == Rounded(a - b)
    ensures ops.lt(ops.ofInt(a), ops.ofInt(b)) <==> a < b
    ensures ops.le(ops.ofInt(a), ops.ofInt(b)) <==> a <= b
  {
    hide Fold, Unfold, Rounded;
    RoundedExact(a);
    RoundedExact(b);
    FoldUnfold(a);
    FoldUnfold(b);
    FoldUnfold(Rounded(a + b));
    FoldUnfold(Rounded(a - b));
  }

  lemma RoundedExact(i: int)
    requires Exact(i)
    ensures Rounded(i) == i
  {
  }

  lemma RoundingExactOn(a: int, b: int)
    requires Exact(a) && Exact(b)
    ensures ExactOn(RoundingOps(), a, b)
  {
    hide RoundingOps;
    RoundingSteps(RoundingOps(), a, b);
  }

  lemma RoundingIsExact()
    ensures ExactInts(RoundingOps())
  {
    hide ExactOn;
    forall a: int, b: int | Exact(a) && Exact(b) ensures ExactOn(RoundingOps(), a, b) {
      RoundingExactOn(a, b);
    }
  }

  /** Adding two non-negative exact integers, the tiers agree up to 2^53 and on even sums beyond. */
  lemma SumsAgreeIff(a: int, b: int)
    requires 0 <= a && Exact(a) && 0 <= b && Exact(b)
    ensures EvalBinary(RoundingOps(), Add, Int(a), Int(b))
         == Some(BinaryResult(RoundingOps(), OpAdd, Int(a), Int(b)))
        <==> Exact(a + b) || (a + b) % 2 == 0
  {
    hide RoundingOps;
    RoundingSteps(RoundingOps(), a, b);
  }
}
