/** The Hull intermediate representation (crates/hull/src/ir.rs), without spans. */
module HullIr {
  import opened Wrappers

  type Name = string

  datatype Ty =
    | Word
    | Bool
    | Unit
    | Product(lhs: Ty, rhs: Ty)
    | Sum(lhs: Ty, rhs: Ty)
    | Named(name: Name, inner: Ty)
    | NamedRef(name: Name)
    | Function(params: seq<Ty>, ret: Ty)

  datatype Expr = Expr(ty: Ty, kind: ExprKind)

  datatype ExprKind =
    | WordLit(literal: string)
    | BoolLit(b: bool)
    | UnitLit
    | Var(name: Name)
    | Pair(e1: Expr, e2: Expr)
    | Fst(e: Expr)
    | Snd(e: Expr)
    | Inl(target: Ty, e: Expr)
    | Inr(target: Ty, e: Expr)
    | InK(index: nat, target: Ty, e: Expr)
    | Call(callee: Name, args: seq<Expr>)
    | If(target: Ty, cond: Expr, thn: Expr, els: Expr)

  datatype Pat =
    | VarPat(name: Name)
    | InlPat
    | InrPat
    | InKPat(index: nat)
    | Wildcard
    | IntLit(literal: string)

  datatype Alt = Alt(pat: Pat, binder: Name, body: seq<Stmt>)

  datatype Stmt =
    | Let(name: Name, ty: Ty)
    | Assign(lhs: Expr, rhs: Expr)
    | ExprStmt(e: Expr)
    | Return(e: Expr)
    | Block(body: seq<Stmt>)
    | For(init: seq<Stmt>, cond: Expr, post: seq<Stmt>, body: seq<Stmt>)
    | Break
    | Continue
    | Match(target: Ty, scrutinee: Expr, alts: seq<Alt>)
    | Assembly(asm: seq<YulStmt>)
    | Revert(message: string)
    | Comment(text: string)

  datatype YulExpr =
    | YulLit(text: string)
    | YulIdent(name: Name)
    | YulCall(callee: Name, args: seq<YulExpr>)
    | YulExprError

  datatype YulCase = YulCase(literal: string, body: seq<YulStmt>)

  datatype YulStmt =
    | YulBlock(body: seq<YulStmt>)
    | YulLet(names: seq<Name>, initial: Option<YulExpr>)
    | YulAssign(names: seq<Name>, value: YulExpr)
    | YulExprStmt(e: YulExpr)
    | YulIf(cond: YulExpr, body: seq<YulStmt>)
    | YulFor(init: seq<YulStmt>, cond: YulExpr, post: seq<YulStmt>, body: seq<YulStmt>)
    | YulSwitch(e: YulExpr, cases: seq<YulCase>, hasDefault: bool, default: seq<YulStmt>)
    | YulFunctionDef(name: Name, params: seq<Name>, rets: seq<Name>, body: seq<YulStmt>)
    | YulLeave
    | YulBreak
    | YulContinue
    | YulError

  datatype Arg = Arg(name: Name, ty: Ty)

  datatype FunctionDef = FunctionDef(name: Name, args: seq<Arg>, ret: Ty, body: seq<Stmt>)

  datatype Object = Object(name: Name, stmts: seq<Stmt>, functions: seq<FunctionDef>, inners: seq<Object>)

  datatype Program = Program(functions: seq<FunctionDef>, objects: seq<Object>)

  /** `Ty::strip_named`: look through the names wrapped around a type. */
  function StripNamed(t: Ty): (r: Ty)
    ensures !r.Named?
    ensures r == t || r < t
    ensures !t.Named? ==> r == t
  {
    if t.Named? then StripNamed(t.inner) else t
  }

  /** `Ty::contains_function`. */
  predicate ContainsFunction(t: Ty) {
    match t
    case Function(_, _) => true
    case Product(l, r) => ContainsFunction(l) || ContainsFunction(r)
    case Sum(l, r) => ContainsFunction(l) || ContainsFunction(r)
    case Named(_, inner) => ContainsFunction(inner)
    case _ => false
  }
}
