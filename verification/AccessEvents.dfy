/**
 What compiled field and array accesses say to the outside: which owner, field,
 index and value reach the callback, in which order, and what becomes of the answer.
 */
module AccessEvents {
  import opened Values
  import opened Ast
  import opened Bytecode
  import opened Callbacks
  import opened Compiler
  import opened Vm
  import opened TreeWalker
  import opened ExprSimulation
  import opened StmtSimulation

  lemma OneStep(k: Chunk, w: World, s: State, s': State)
    requires s' == Step(k, w, false, s)
    ensures Reaches(k, w, s, s')
  {
    ReachesStep(k, w, s);
  }

  /** The machine stands behind the code `c'` with `v` in register `r`, and everything below `lim` as it was. */
  ghost predicate Got(c': Chunk, lim: nat, r: nat, m: State, m': State, v: Value, log: Log) {
    && Alive(m') && m'.ip == |c'.code| && m'.log == log && Keeps(m, m', lim) && r < MAX_REG && m'.regs[r] == v
  }

  /** Reading a field asks for that field of that owner, and a scalar field yields nothing but scalars. */
  lemma FieldReadEvent(
    c: Chunk, owner: Name, field: Name, scalar: bool, c': Chunk, r: nat, k: Chunk, u: World, m: State)
    returns (m': State)
    requires CompileFieldGet(c, owner, field, scalar) == (c', r) && c'.ok && Embeds(k, c, c')
    requires Alive(m) && m.ip == |c.code|
    ensures var answer := u.reply(m.log, FieldRead(owner, field));
            && Reaches(k, u, m, m')
            && Got(c', c.next, r, m, m',
                   if scalar && Tag(answer.value) > 3 then Nil else answer.value, answer.log)
  {
    m' := Step(k, u, false, m);
    OneStep(k, u, m, m');
  }

  /** Reading an element computes the index, then asks for that element; an error ends the run. */
  lemma IndexReadEvent(
    p: Probe, c: Chunk, e: Expr, c': Chunk, r: nat, k: Chunk, w: World, u: World, f: Frame, log: Log, m: State)
    returns (m': State)
    requires e.IndexGet? && Serves(u, w) && ExprSlotsBelow(e.index, TEMP_BASE)
    requires CompileIndexGet(p, c, e) == (c', r) && c'.ok && Embeds(k, c, c')
    requires At(c, m, f, log) && Eval(w, e.index, f, log).Val?
    ensures var x := Eval(w, e.index, f, log);
            var answer := u.reply(x.log, IndexRead(e.name, e.slot, x.v));
            && Reaches(k, u, m, m') && m'.log == answer.log && r < |m'.regs| && m'.regs[r] == answer.value
            && (if answer.raised then m'.status == Stopped
                else Got(c', c.next, r, m, m', answer.value, answer.log))
  {
    hide Step, Run, Eval, CompileExpr;
    var c0 := NoteSlot(c, e.slot);
    var (c1, ir) := CompileExpr(p, c0, e.index);
    var x := Eval(w, e.index, f, log);
    var m1 := ExprCorrect(p, c0, e.index, c1, ir, k, w, u, f, log, x.v, x.log, m);
    m' := IndexReadStep(k, u, m1, k.code[m1.ip], e.name, e.slot, x.v);
    ReachesTrans(k, u, m, m1, m');
  }

  lemma IndexReadStep(k: Chunk, u: World, m: State, i: Instr, name: Name, slot: int, v: Value) returns (m': State)
    requires Fetches(k, m, i) && i.op == GetIndex && i.a < MAX_REG && i.c < MAX_REG && m.regs[i.c] == v
    requires i.b < |k.consts| && k.consts[i.b] == Str(name) && i.offset == slot
    ensures var answer := u.reply(m.log, IndexRead(name, slot, v));
            && Reaches(k, u, m, m')
            && m' == Stored(m, i.a, answer.value).(
                        log := answer.log, status := if answer.raised then Stopped else Running)
  {
    m' := Step(k, u, false, m);
    OneStep(k, u, m, m');
  }

  /** Writing a field computes the value, then hands it to that field of that owner. */
  lemma FieldWriteEvent(
    p: Probe, c: Chunk, owner: Name, field: Name, value: Expr, c': Chunk, k: Chunk,
    w: World, u: World, f: Frame, log: Log, m: State) returns (m': State)
    requires Serves(u, w) && ExprSlotsBelow(value, TEMP_BASE)
    requires CompileFieldSet(p, c, owner, field, value) == c' && c'.ok && Embeds(k, c, c')
    requires At(c, m, f, log) && Eval(w, value, f, log).Val?
    ensures var x := Eval(w, value, f, log);
            Reaches(k, u, m, m') && Ran(|c'.code|, m', f, u.reply(x.log, FieldWritten(owner, field, x.v)).log, Normal)
  {
    hide Step, Run, Eval, CompileExpr;
    var (c1, ok) := AddConst(c, Str(owner));
    var (c2, fk) := AddConst(c1, Str(field));
    var (c3, src) := CompileExpr(p, c2, value);
    var i := Instr(SetField, src, ok, fk, 0);
    var x := Eval(w, value, f, log);
    var m1 := ExprCorrect(p, c2, value, c3, src, k, w, u, f, log, x.v, x.log, m);
    var m2 := FieldWriteStep(k, u, m1, i, owner, field, x.v);
    ReachesTrans(k, u, m, m1, m2);
    m' := Ended(Emit(c3, i), c.next, k, u, m, m2, f, m2.log, Normal);
  }

  /** Assigning a bare name that is a field of the current instance writes that field. */
  lemma BareFieldWriteEvent(
    p: Probe, c: Chunk, name: Name, slot: int, value: Expr, c': Chunk, k: Chunk,
    w: World, u: World, f: Frame, log: Log, m: State) returns (m': State)
    requires Serves(u, w) && ExprSlotsBelow(value, TEMP_BASE) && slot < 0 && p.bareField(name).Some?
    requires CompileStore(p, c, name, slot, value) == c' && c'.ok && Embeds(k, c, c')
    requires At(c, m, f, log) && Eval(w, value, f, log).Val?
    ensures var x, owner := Eval(w, value, f, log), p.bareField(name).value.0;
            Reaches(k, u, m, m') && Ran(|c'.code|, m', f, u.reply(x.log, FieldWritten(owner, name, x.v)).log, Normal)
  {
    hide Step, Run, Eval, CompileExpr;
    var owner := p.bareField(name).value.0;
    var (c1, src) := CompileExpr(p, c, value);
    var (c2, ok) := AddConst(c1, Str(owner));
    var (c3, fk) := AddConst(c2, Str(name));
    var i := Instr(SetField, src, ok, fk, 0);
    var x := Eval(w, value, f, log);
    var m1 := ExprCorrect(p, c, value, c1, src, k, w, u, f, log, x.v, x.log, m);
    var m2 := FieldWriteStep(k, u, m1, i, owner, name, x.v);
    ReachesTrans(k, u, m, m1, m2);
    m' := Ended(Emit(c3, i), c.next, k, u, m, m2, f, m2.log, Normal);
  }

  lemma FieldWriteStep(k: Chunk, u: World, m: State, i: Instr, owner: Name, field: Name, v: Value)
    returns (m': State)
    requires Fetches(k, m, i) && i.op == SetField && i.a < MAX_REG && m.regs[i.a] == v
    requires i.b < |k.consts| && k.consts[i.b] == Str(owner) && i.c < |k.consts| && k.consts[i.c] == Str(field)
    ensures Reaches(k, u, m, m')
    ensures m' == m.(ip := m.ip + 1, log := u.reply(m.log, FieldWritten(owner, field, v)).log)
  {
    m' := Step(k, u, false, m);
    OneStep(k, u, m, m');
  }

  // ----- storing an element -----

  /** The answers to the check and to the store of an element. */
  ghost function Checks(u: World, log: Log, name: Name, slot: int, index: Value): Reply {
    u.reply(log, IndexChecked(name, slot, index))
  }

  predicate Passed(r: Reply) {
    !r.raised && r.value.Bool? && r.value.b != 0
  }

  lemma CheckStep(k: Chunk, u: World, m: State, i: Instr, name: Name, slot: int, v: Value) returns (m': State)
    requires Fetches(k, m, i) && i.op == PrepIndex && i.c < MAX_REG && m.regs[i.c] == v && 0 <= i.offset
    requires i.b < |k.consts| && k.consts[i.b] == Str(name)
    requires slot < NO_REG && i.a == (if slot < 0 then NO_REG else slot) && -1 <= slot
    ensures var answer := Checks(u, m.log, name, slot, v);
            && Reaches(k, u, m, m')
            && m' == m.(log := answer.log, status := if answer.raised then Stopped else Running,
                        ip := if answer.raised then m.ip else if Passed(answer) then m.ip + 1 else i.offset)
  {
    m' := Step(k, u, false, m);
    OneStep(k, u, m, m');
  }

  lemma StoreStep(k: Chunk, u: World, m: State, i: Instr, name: Name, slot: int, index: Value, v: Value)
    returns (m': State)
    requires Fetches(k, m, i) && i.op == SetIndex && i.a < MAX_REG && i.c < MAX_REG
    requires m.regs[i.c] == index && m.regs[i.a] == v
    requires i.b < |k.consts| && k.consts[i.b] == Str(name) && i.offset == slot
    ensures var answer := u.reply(m.log, IndexWritten(name, slot, index, v));
            && Reaches(k, u, m, m')
            && m' == m.(ip := m.ip + 1, log := answer.log, status := if answer.raised then Stopped else Running)
  {
    m' := Step(k, u, false, m);
    OneStep(k, u, m, m');
  }

  /**
   Storing an element: the index is computed and checked first.  An index that is
   refused silently skips the value and the store, one that is refused with an
   error ends the run; otherwise the value is computed and handed over with the
   index that was checked.
   */
  lemma IndexWriteEvents(
    p: Probe, c: Chunk, name: Name, slot: int, index: Expr, value: Expr, c': Chunk, k: Chunk,
    w: World, u: World, f: Frame, log: Log, m: State) returns (m': State)
    requires Serves(u, w) && ExprSlotsBelow(index, TEMP_BASE) && ExprSlotsBelow(value, TEMP_BASE)
    requires -1 <= slot < TEMP_BASE
    requires CompileIndexSet(p, c, name, slot, index, value) == c' && c'.ok && Embeds(k, c, c')
    requires At(c, m, f, log) && Eval(w, index, f, log).Val?
    requires var x := Eval(w, index, f, log);
             var checked := Checks(u, x.log, name, slot, x.v);
             Passed(checked) ==> Eval(w, value, f, checked.log).Val?
    ensures Reaches(k, u, m, m')
    ensures var x := Eval(w, index, f, log);
            var checked := Checks(u, x.log, name, slot, x.v);
            if checked.raised then m'.status == Stopped && m'.log == checked.log
            else if !Passed(checked) then Ran(|c'.code|, m', f, checked.log, Normal)
            else
              var y := Eval(w, value, f, checked.log);
              var stored := u.reply(y.log, IndexWritten(name, slot, x.v, y.v));
              if stored.raised then m'.status == Stopped && m'.log == stored.log
              else Ran(|c'.code|, m', f, stored.log, Normal)
  {
    hide Step, Run, Checks, EndStmt;
    var c0 := NoteSlot(c, slot);
    var (c1, ir) := CompileExpr(p, c0, index);
    var (c2, ck) := AddConst(c1, Str(name));
    var body := StoreChecked(p, c2, slot, value, ck, ir);
    BodyEmbeds(p, c, name, slot, index, value, c', k);
    var x := Eval(w, index, f, log);
    var m1 := ExprCorrect(p, c0, index, c1, ir, k, w, u, f, log, x.v, x.log, m);
    var m2 := StoredElement(p, c2, name, slot, value, ck, ir, k, w, u, f, x.v, m1);
    ReachesTrans(k, u, m, m1, m2);
    if m2.status == Stopped {
      m' := m2;
    } else {
      m' := Ended(body, c.next, k, u, m, m2, f, m2.log, Normal);
    }
  }

  lemma BodyEmbeds(
    p: Probe, c: Chunk, name: Name, slot: int, index: Expr, value: Expr, c': Chunk, k: Chunk)
    requires CompileIndexSet(p, c, name, slot, index, value) == c' && c'.ok && Embeds(k, c, c')
    ensures var (c1, ir) := CompileExpr(p, NoteSlot(c, slot), index);
            var (c2, ck) := AddConst(c1, Str(name));
            var body := StoreChecked(p, c2, slot, value, ck, ir);
            && c1.ok && c2.ok && body.ok && Embeds(k, NoteSlot(c, slot), c1) && Embeds(k, c2, body)
            && Embeds(k, body, EndStmt(body, c.next)) && c' == EndStmt(body, c.next)
            && ck < |k.consts| && k.consts[ck] == Str(name)
  {
    hide CompileExpr;
  }

  lemma StoredElement(
    p: Probe, c: Chunk, name: Name, slot: int, value: Expr, ck: nat, ir: nat, k: Chunk,
    w: World, u: World, f: Frame, index: Value, m: State) returns (m': State)
    requires Serves(u, w) && ExprSlotsBelow(value, TEMP_BASE) && -1 <= slot < TEMP_BASE
    requires StoreChecked(p, c, slot, value, ck, ir).ok && Embeds(k, c, StoreChecked(p, c, slot, value, ck, ir))
    requires ck < |k.consts| && k.consts[ck] == Str(name) && ir < c.next && ir < MAX_REG
    requires At(c, m, f, m.log) && m.regs[ir] == index
    requires var checked := Checks(u, m.log, name, slot, index);
             Passed(checked) ==> Eval(w, value, f, checked.log).Val?
    ensures Reaches(k, u, m, m')
    ensures var at := |StoreChecked(p, c, slot, value, ck, ir).code|;
            var checked := Checks(u, m.log, name, slot, index);
            if checked.raised then m'.status == Stopped && m'.log == checked.log
            else if !Passed(checked) then Ran(at, m', f, checked.log, Normal)
            else
              var y := Eval(w, value, f, checked.log);
              var stored := u.reply(y.log, IndexWritten(name, slot, index, y.v));
              if stored.raised then m'.status == Stopped && m'.log == stored.log
              else Ran(at, m', f, stored.log, Normal)
  {
    hide Step, Run, Checks, CompileExpr, StoreChecked, Eval;
    var c1, c2, vr := StoreShape(p, c, slot, value, ck, ir, k);
    m' := CheckStep(k, u, m, k.code[m.ip], name, slot, index);
    if Passed(Checks(u, m.log, name, slot, index)) {
      var y := Eval(w, value, f, m'.log);
      var m2 := ExprCorrect(p, c1, value, c2, vr, k, w, u, f, m'.log, y.v, y.log, m');
      ReachesTrans(k, u, m, m', m2);
      m' := StoreStep(k, u, m2, Instr(SetIndex, vr, ck, ir, slot), name, slot, index, y.v);
      ReachesTrans(k, u, m, m2, m');
    }
  }

  /** The check, the code of the value, and the store. */
  lemma StoreShape(p: Probe, c: Chunk, slot: int, value: Expr, ck: nat, ir: nat, k: Chunk)
    returns (c1: Chunk, c2: Chunk, vr: nat)
    requires StoreChecked(p, c, slot, value, ck, ir).ok && Embeds(k, c, StoreChecked(p, c, slot, value, ck, ir))
    ensures var body := StoreChecked(p, c, slot, value, ck, ir);
            var prep := Instr(PrepIndex, if slot < 0 then NO_REG else slot, ck, ir, |body.code|);
            && |c1.code| == |c.code| + 1 && c1.next == c.next && c1.ok == c.ok
            && CompileExpr(p, c1, value) == (c2, vr) && c2.ok && Embeds(k, c1, c2)
            && |c.code| < |k.code| && k.code[|c.code|] == prep
            && |c2.code| + 1 == |body.code| <= |k.code| && k.code[|c2.code|] == Instr(SetIndex, vr, ck, ir, slot)
  {
    hide CompileExpr;
    c1 := Emit(c, Instr(PrepIndex, if slot < 0 then NO_REG else slot, ck, ir, 0));
    var compiled := CompileExpr(p, c1, value);
    c2, vr := compiled.0, compiled.1;
  }
}
