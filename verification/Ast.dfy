/**
 The resolved syntax trees that both execution tiers start from.  `slot` is the
 offset assigned by the resolver, or -1 where it found none.
 */
module Ast {
  import opened Values

  /** `owner` is absent for a plain function call. */
  datatype Callee = Callee(owner: Option<Name>, name: Name)

  datatype BinOp = Add | Sub | Mul | Div | Mod | Eq | Neq | Lt | Gt | Lte | Gte

  datatype Expr =
    | IntLit(i: int)
    | FloatLit(bits: Bits)
    | BoolLit(b: int)
    | StrLit(s: Name)
    | Ident(name: Name, slot: int)
    | Not(operand: Expr)
    | Logic(isAnd: bool, left: Expr, right: Expr)
    | Binary(op: BinOp, left: Expr, right: Expr)
    | Call(callee: Callee, args: seq<Expr>)
    | FieldGet(owner: Name, field: Name)
    | IndexGet(name: Name, slot: int, index: Expr)
    | OtherExpr

  /** `declType` is the tag a scalar type name demands, `None` for dyn and arr. */
  datatype Stmt =
    | Decl(name: Name, slot: int, declType: Option<int>, value: Expr)
    | Assign(name: Name, slot: int, value: Expr)
    | Block(body: seq<Stmt>)
    | If(cond: Expr, thn: Stmt, els: Option<Stmt>)
    | While(cond: Expr, loopBody: Stmt)
    | CallStmt(callee: Callee, args: seq<Expr>)
    | FieldSet(owner: Name, field: Name, value: Expr)
    | IndexSet(name: Name, slot: int, index: Expr, value: Expr)
    | Return(result: Option<Expr>)
    | OtherStmt

  /** Every local named by the expression sits below the given register. */
  ghost predicate ExprSlotsBelow(e: Expr, lim: int) {
    match e
    case Ident(_, slot) => slot < lim
    case Not(x) => ExprSlotsBelow(x, lim)
    case Logic(_, l, r) => ExprSlotsBelow(l, lim) && ExprSlotsBelow(r, lim)
    case Binary(_, l, r) => ExprSlotsBelow(l, lim) && ExprSlotsBelow(r, lim)
    case Call(_, args) => forall i | 0 <= i < |args| :: ExprSlotsBelow(args[i], lim)
    case IndexGet(_, slot, x) => slot < lim && ExprSlotsBelow(x, lim)
    case _ => true
  }

  /** Every local named by the statement sits below the given register. */
  ghost predicate SlotsBelow(s: Stmt, lim: int) {
    match s
    case Decl(_, slot, _, v) => slot < lim && ExprSlotsBelow(v, lim)
    case Assign(_, slot, v) => slot < lim && ExprSlotsBelow(v, lim)
    case Block(body) => forall i | 0 <= i < |body| :: SlotsBelow(body[i], lim)
    case If(cond, t, e) =>
      ExprSlotsBelow(cond, lim) && SlotsBelow(t, lim) && (e.Some? ==> SlotsBelow(e.value, lim))
    case While(cond, b) => ExprSlotsBelow(cond, lim) && SlotsBelow(b, lim)
    case CallStmt(_, args) => forall i | 0 <= i < |args| :: ExprSlotsBelow(args[i], lim)
    case FieldSet(_, _, v) => ExprSlotsBelow(v, lim)
    case IndexSet(_, slot, x, v) => slot < lim && ExprSlotsBelow(x, lim) && ExprSlotsBelow(v, lim)
    case Return(r) => r.Some? ==> ExprSlotsBelow(r.value, lim)
    case OtherStmt => true
  }
}
