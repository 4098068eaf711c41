/**
 The dynamically typed values that flow through registers, stack slots and the
 persistent pool, and the floating point operations they are combined with.
 */
module Values {

  datatype Option<+T> = None | Some(value: T)

  type Byte = b: int | 0 <= b < 256 witness 0

  /** C strings and identifiers: the bytes before the terminating NUL. */
  type Name = seq<Byte>

  /** A double, as its 64-bit pattern.  Only `FloatOps` gives it a meaning. */
  type Bits = nat

  /** The non-scalar kinds, which the modelled code only copies and compares by kind. */
  datatype HandleKind = Func | BlockInst | ErrStack | Dyn | Ptr

  datatype Value =
    | Nil
    | Int(i: int)
    | Float(bits: Bits)
    | Bool(b: int)
    | Str(s: Name)
    | Arr(elems: seq<Value>)
    | Handle(kind: HandleKind, id: int)

  /** Numeric value of the `ValType` enumerator. */
  function Tag(v: Value): int {
    match v
    case Nil => 0
    case Int(_) => 1
    case Float(_) => 2
    case Bool(_) => 3
    case Str(_) => 4
    case Arr(_) => 7
    case Handle(k, _) =>
      match k
      case Func => 5
      case BlockInst => 6
      case ErrStack => 8
      case Dyn => 9
      case Ptr => 10
  }

  /** `val_bool`: C booleans are stored as the integers 0 and 1. */
  function OfBool(b: bool): Value {
    Bool(if b then 1 else 0)
  }

  /** Arithmetic on doubles, as both execution tiers obtain it from the C compiler. */
  datatype FloatOps = FloatOps(
    add: (Bits, Bits) -> Bits,
    sub: (Bits, Bits) -> Bits,
    mul: (Bits, Bits) -> Bits,
    div: (Bits, Bits) -> Bits,
    ofInt: int -> Bits,
    toInt: Bits -> int,
    eq: (Bits, Bits) -> bool,
    lt: (Bits, Bits) -> bool,
    le: (Bits, Bits) -> bool
  ) {
    predicate NonZero(x: Bits) {
      !eq(x, ofInt(0))
    }
  }

  const EXACT_LIMIT := 0x20_0000_0000_0000

  /** Integers that a double represents exactly. */
  predicate Exact(i: int) {
    -EXACT_LIMIT <= i <= EXACT_LIMIT
  }

  predicate ExactOn(ops: FloatOps, a: int, b: int) {
    && (Exact(a + b) ==> ops.toInt(ops.add(ops.ofInt(a), ops.ofInt(b))) == a + b)
    && (Exact(a - b) ==> ops.toInt(ops.sub(ops.ofInt(a), ops.ofInt(b))) == a - b)
    && (ops.lt(ops.ofInt(a), ops.ofInt(b)) <==> a < b)
    && (ops.le(ops.ofInt(a), ops.ofInt(b)) <==> a <= b)
  }

  /** What IEEE 754 doubles guarantee about integers of magnitude up to 2^53. */
  ghost predicate ExactInts(ops: FloatOps) {
    forall a: int, b: int :: Exact(a) && Exact(b) ==> ExactOn(ops, a, b)
  }

  /** Remainder as C computes it (section 6.5.5 of ISO C99): truncating toward zero. */
  function TruncRem(a: int, b: int): int
    requires b != 0
  {
    var q := (if a < 0 then -a else a) % (if b < 0 then -b else b);
    if a < 0 then -q else q
  }

  function Abs(a: int): nat {
    if a < 0 then -a else a
  }

  /** It is what is left of `a` after the quotient rounded toward zero, and has the sign of `a`. */
  lemma TruncRemIs(a: int, b: int) returns (q: int)
    requires b != 0
    ensures a == b * q + TruncRem(a, b) && Abs(b * q) <= Abs(a)
    ensures Abs(TruncRem(a, b)) < Abs(b) && (a >= 0 ==> TruncRem(a, b) >= 0) && (a <= 0 ==> TruncRem(a, b) <= 0)
  {
    var x: int, y: int := Abs(a), Abs(b);
    var k: int := x / y;
    Divided(x, y);
    Signs(y, k);
    q := if (a < 0) == (b < 0) then k else -k;
  }

  lemma Divided(x: int, y: int)
    requires 0 <= x && 0 < y
    ensures x == y * (x / y) + x % y && 0 <= y * (x / y) && 0 <= x % y < y
  {
  }

  lemma Signs(y: int, k: int)
    ensures (-y) * (-k) == y * k && y * (-k) == -(y * k) && (-y) * k == -(y * k)
  {
  }
}
