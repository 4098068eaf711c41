/** Instructions and chunks, with the primitive operations that build a chunk. */
module Bytecode {
  import opened Values

  datatype Opcode =
    | LoadK | Move
    | OpAdd | OpSub | OpMul | OpDiv | OpMod
    | OpEq | OpNeq | OpLt | OpGt | OpLte | OpGte
    | JumpIfFalse | Jump | Ret
    | CallMethod | CallFunc
    | GetField | SetField
    | GetIndex | PrepIndex | SetIndex
    | ReturnVal | ReturnNil
    | LoadKStr | MoveStr | DropStr
    | GetFieldV | OpNot | Truthy

  datatype Instr = Instr(op: Opcode, a: nat, b: nat, c: nat, offset: int)

  const MAX_CONST: nat := 128
  const MAX_REG: nat := 512
  const TEMP_BASE: nat := 128
  const MAX_ARGS: nat := 255
  /** Destination operand meaning "no register" in `PrepIndex`. */
  const NO_REG: nat := 0xFFFF

  /** `strs` is the set of registers currently marked as possibly owning a string. */
  datatype Chunk = Chunk(
    code: seq<Instr>, consts: seq<Value>, ok: bool,
    next: nat, peak: nat, maxSlot: nat, strs: set<nat>)

  /** Compilation only appends: no earlier instruction or constant changes and no failure is forgotten. */
  predicate Extends(c: Chunk, c': Chunk) {
    && |c.code| <= |c'.code| && (forall i | 0 <= i < |c.code| :: c'.code[i] == c.code[i])
    && |c.consts| <= |c'.consts| && (forall i | 0 <= i < |c.consts| :: c'.consts[i] == c.consts[i])
    && c.peak <= c'.peak && c.maxSlot <= c'.maxSlot
    && (c'.ok ==> c.ok)
  }

  function InitChunk(): Chunk {
    Chunk([], [], true, TEMP_BASE, TEMP_BASE, 0, {})
  }

  function Emit(c: Chunk, i: Instr): Chunk {
    c.(code := c.code + [i])
  }

  function Patch(c: Chunk, at: nat, target: int): Chunk
    requires at < |c.code|
  {
    c.(code := c.code[at := c.code[at].(offset := target)])
  }

  function Fail(c: Chunk): Chunk {
    c.(ok := false)
  }

  function AddConst(c: Chunk, v: Value): (Chunk, nat) {
    if |c.consts| >= MAX_CONST then (Fail(c), 0)
    else (c.(consts := c.consts + [v]), |c.consts|)
  }

  function AllocReg(c: Chunk): (Chunk, nat) {
    if c.next >= MAX_REG then (Fail(c), 0)
    else (c.(next := c.next + 1, peak := Max(c.peak, c.next + 1)), c.next)
  }

  /** Reserves `count` consecutive registers; the first one is the old `next`. */
  function ReserveRegs(c: Chunk, count: nat): Chunk {
    if count > MAX_ARGS || c.next + count > MAX_REG then Fail(c)
    else c.(next := c.next + count, peak := Max(c.peak, c.next + count))
  }

  function NoteSlot(c: Chunk, slot: int): Chunk {
    if slot >= 0 && slot + 1 > c.maxSlot then c.(maxSlot := slot + 1) else c
  }

  function MarkString(c: Chunk, reg: nat): Chunk {
    if reg >= MAX_REG then Fail(c) else c.(strs := c.strs + {reg})
  }

  function MarkStringIf(c: Chunk, cond: bool, reg: nat): Chunk {
    if cond then MarkString(c, reg) else c
  }

  /** Emits a drop for every marked register in [first, end) and unmarks it. */
  function StringDrops(c: Chunk, first: nat, end: nat): (r: Chunk)
    ensures Extends(c, r) && r.ok == c.ok && r.next == c.next && r.consts == c.consts
    ensures r.peak == c.peak && r.maxSlot == c.maxSlot
    decreases end - first
  {
    if first >= end || first >= MAX_REG then c
    else
      var c' := if first in c.strs
                then Emit(c, Instr(DropStr, first, 0, 0, 0)).(strs := c.strs - {first})
                else c;
      StringDrops(c', first + 1, end)
  }

  function Max(x: nat, y: nat): nat {
    if x < y then y else x
  }
}
