/** When a Hull program is accepted, as rules over its syntax, and that the checker accepts exactly such programs. */
module HullJudgement {
  // The rules are relations: nothing here computes a type or collects a diagnostic.

  import opened Wrappers
  import opened HullIr
  import opened HullTyping
  import opened HullBuiltins
  import opened HullAsmTyping
  import opened HullAsmJudgement

  // ----- types -----

  /** `t` is `s`, the names around it aside. */
  predicate Is(t: Ty, s: Ty) {
    t == s || (t.Named? && Is(t.inner, s))
  }

  /** Types that the checker takes for each other: a reference for any use of its name, and otherwise the same shape. */
  predicate Same(a: Ty, b: Ty)
    decreases a, b, 1
  {
    || ((a.NamedRef? || b.NamedRef?) && (a.Named? || a.NamedRef?) && (b.Named? || b.NamedRef?) && a.name == b.name)
    || Alike(a, b)
  }

  /** The same shape, the names around both aside. */
  predicate Alike(a: Ty, b: Ty)
    decreases a, b, 0
  {
    if a.Named? then Alike(a.inner, b)
    else if b.Named? then Alike(a, b.inner)
    else
      match a
      case Word => b == Word
      case Bool => b == Bool
      case Unit => b == Unit
      case Product(l, r) => b.Product? && Same(l, b.lhs) && Same(r, b.rhs)
      case Sum(l, r) => b.Sum? && Same(l, b.lhs) && Same(r, b.rhs)
      case Function(ps, r) =>
        && b.Function? && |ps| == |b.params| && Same(r, b.ret)
        && forall i :: 0 <= i < |ps| ==> Same(ps[i], b.params[i])
      case _ => false
  }

  ghost predicate BoolLike(t: Ty) {
    Is(t, Bool) || exists l, r :: Is(t, Sum(l, r)) && Is(l, Unit) && Is(r, Unit)
  }

  /** The summands of a sum nested to the right. */
  function Summands(t: Ty): seq<Ty> {
    match t
    case Named(_, inner) => Summands(inner)
    case Sum(l, r) => [l] + Summands(r)
    case _ => [t]
  }

  /** The pattern is one for values of the type, and what it binds has type `p`. */
  ghost predicate Binds(target: Ty, pat: Pat, p: Ty) {
    match pat
    case InlPat => exists r :: Is(target, Sum(p, r))
    case InrPat => exists l :: Is(target, Sum(l, p))
    case InKPat(k) => k < |Summands(target)| && p == Summands(target)[k]
    case IntLit(_) => Is(target, Word) && p == Word
    case _ => p == target
  }

  predicate FirstOrder(t: Ty) {
    match t
    case Product(l, r) => FirstOrder(l) && FirstOrder(r)
    case Sum(l, r) => FirstOrder(l) && FirstOrder(r)
    case Named(_, inner) => FirstOrder(inner)
    case Function(_, _) => false
    case _ => true
  }

  /** A value of the type takes no stack slot. */
  predicate Empty(t: Ty) {
    match t
    case Unit => true
    case Product(l, r) => Empty(l) && Empty(r)
    case Named(_, inner) => Empty(inner)
    case _ => false
  }

  // ----- expressions -----

  /** `e` has type `t`, and is annotated with a type that is the same. */
  ghost predicate Typed(funs: Funs, vars: Vars, e: Expr, t: Ty)
    decreases e, 1
  {
    Same(e.ty, t) && Rule(funs, vars, e, t)
  }

  ghost predicate Rule(funs: Funs, vars: Vars, e: Expr, t: Ty)
    decreases e, 0
  {
    match e.kind
    case WordLit(_) => t == Word
    case BoolLit(_) => t == Bool
    case UnitLit => t == Unit
    case Var(x) => x in vars && vars[x] == t
    case Pair(e1, e2) => t.Product? && Typed(funs, vars, e1, t.lhs) && Typed(funs, vars, e2, t.rhs)
    case Fst(e1) => IsPairOf(funs, vars, e1, t, true)
    case Snd(e1) => IsPairOf(funs, vars, e1, t, false)
    case Inl(target, e1) => t == target && FitsSide(funs, vars, e1, target, true)
    case Inr(target, e1) => t == target && FitsSide(funs, vars, e1, target, false)
    case InK(k, target, e1) =>
      t == target && k < |Summands(target)| && Fits(funs, vars, e1, Summands(target)[k])
    case Call(f, args) =>
      && f in funs && t == funs[f].ret && |args| == |funs[f].args|
      && forall i :: 0 <= i < |args| ==> Fits(funs, vars, args[i], funs[f].args[i])
    case If(target, cond, thn, els) =>
      && t == target && IsCondition(funs, vars, cond)
      && Fits(funs, vars, thn, target) && Fits(funs, vars, els, target)
  }

  /** `e` is a pair, and the component on that side has type `t`. */
  ghost predicate IsPairOf(funs: Funs, vars: Vars, e: Expr, t: Ty, left: bool)
    decreases e, 3
  {
    exists p, l, r :: Typed(funs, vars, e, p) && Is(p, Product(l, r)) && t == if left then l else r
  }

  /** The target is a sum, and `e` fits its summand on that side. */
  ghost predicate FitsSide(funs: Funs, vars: Vars, e: Expr, target: Ty, left: bool)
    decreases e, 3
  {
    exists l, r :: Is(target, Sum(l, r)) && Fits(funs, vars, e, if left then l else r)
  }

  ghost predicate IsCondition(funs: Funs, vars: Vars, e: Expr)
    decreases e, 3
  {
    exists c :: Typed(funs, vars, e, c) && BoolLike(c)
  }

  /** `e` can stand where a value of type `expected` is needed. */
  ghost predicate Fits(funs: Funs, vars: Vars, e: Expr, expected: Ty)
    decreases e, 2
  {
    exists t :: Typed(funs, vars, e, t) && Same(expected, t)
  }

  // ----- where a body ends -----

  const HALTS: set<Name> := {"return", "revert", "stop", "invalid", "selfdestruct"}

  /** The last statement ends the function; a halting builtin is known only with a database. */
  ghost predicate EndsBody(body: seq<Stmt>, db: bool)
    decreases body
  {
    exists i :: 0 <= i && i + 1 == |body| && Ends(body[i], db)
  }

  ghost predicate Ends(s: Stmt, db: bool)
    decreases s
  {
    || s.Return? || s.Revert?
    || (s.Block? && EndsBody(s.body, db))
    || (s.Match? && s.alts != [] && forall i :: 0 <= i < |s.alts| ==> EndsBody(s.alts[i].body, db))
    || (s.Assembly? && db && EndsAsm(s.asm))
  }

  ghost predicate EndsAsm(stmts: seq<YulStmt>)
    decreases stmts
  {
    exists i :: 0 <= i && i + 1 == |stmts| && EndsYul(stmts[i])
  }

  ghost predicate EndsYul(s: YulStmt)
    decreases s
  {
    || (s.YulBlock? && EndsAsm(s.body))
    || (s.YulExprStmt? && s.e.YulCall? && s.e.callee in HALTS)
    || (s.YulSwitch? && s.hasDefault && s.cases != [] && EndsAsm(s.default)
        && forall i :: 0 <= i < |s.cases| ==> EndsAsm(s.cases[i].body))
  }

  // ----- statements -----

  /** What is fixed for one body: whether there is a database, the functions, and the type to return. */
  datatype Setting = Setting(db: bool, funs: Funs, ret: Option<Ty>)

  /** What the statements declare in their own scope, the last declaration of a name counting. */
  function Declared(stmts: seq<Stmt>): Vars {
    if stmts == [] then map[]
    else
      var last := stmts[|stmts| - 1];
      Declared(stmts[..|stmts| - 1]) + if last.Let? then map[last.name := last.ty] else map[]
  }

  ghost predicate Allowed(k: Setting, vars: Vars, s: Stmt)
    decreases s, 0
  {
    match s
    case Assign(lhs, rhs) => exists t :: Typed(k.funs, vars, lhs, t) && Fits(k.funs, vars, rhs, t)
    case ExprStmt(e) => exists t :: Typed(k.funs, vars, e, t)
    case Return(e) => k.ret.Some? && Fits(k.funs, vars, e, k.ret.value)
    case Block(body) => AllAllowed(k, vars, body)
    case For(init, cond, post, body) =>
      var vars1 := vars + Declared(init);
      && AllAllowed(k, vars, init)
      && IsCondition(k.funs, vars1, cond)
      && AllAllowed(k, vars1, post)
      && AllAllowed(k, vars1 + Declared(post), body)
    case Match(target, scrutinee, alts) =>
      && Fits(k.funs, vars, scrutinee, target)
      && forall i :: 0 <= i < |alts| ==> ArmAllowed(k, vars, target, alts[i])
    case Assembly(asm) => k.db && BlockOk(ShapesOf(k.funs), map[], vars, asm)
    case _ => true
  }

  ghost predicate ArmAllowed(k: Setting, vars: Vars, target: Ty, alt: Alt)
    decreases alt, 0
  {
    exists p :: Binds(target, alt.pat, p) && AllAllowed(k, vars[alt.binder := p], alt.body)
  }

  /** The statements in order, each seeing what those before it declare. */
  ghost predicate AllAllowed(k: Setting, vars: Vars, stmts: seq<Stmt>)
    decreases stmts, 0
  {
    forall i :: 0 <= i < |stmts| ==> Allowed(k, vars + Declared(stmts[..i]), stmts[i])
  }

  // ----- functions, objects and programs -----

  /** The arguments, the last of a name counting. */
  function Bound(args: seq<Arg>): Vars {
    if args == [] then map[]
    else
      var last := args[|args| - 1];
      Bound(args[..|args| - 1])[last.name := last.ty]
  }

  ghost predicate FunctionAllowed(db: bool, funs: Funs, f: FunctionDef) {
    && (forall i :: 0 <= i < |f.args| ==> FirstOrder(f.args[i].ty))
    && FirstOrder(f.ret)
    && AllAllowed(Setting(db, funs, Some(f.ret)), Bound(f.args), f.body)
    && (Empty(f.ret) || EndsBody(f.body, db))
  }

  predicate Signature(f: FunctionDef, sig: FunSig) {
    && |sig.args| == |f.args| && sig.ret == f.ret
    && forall i :: 0 <= i < |f.args| ==> sig.args[i] == f.args[i].ty
  }

  /** `funs` is `known` with the functions added, all of them under new and different names. */
  ghost predicate Adds(known: Funs, fs: seq<FunctionDef>, funs: Funs) {
    && (forall i :: 0 <= i < |fs| ==> fs[i].name !in known)
    && (forall i, j :: 0 <= i < j < |fs| ==> fs[i].name != fs[j].name)
    && (forall i :: 0 <= i < |fs| ==> fs[i].name in funs && Signature(fs[i], funs[fs[i].name]))
    && (forall x :: x in known ==> x in funs && funs[x] == known[x])
    && (forall x :: x in funs ==> x in known || exists i :: 0 <= i < |fs| && fs[i].name == x)
  }

  ghost predicate FunctionsAllowed(db: bool, funs: Funs, fs: seq<FunctionDef>) {
    forall i :: 0 <= i < |fs| ==> FunctionAllowed(db, funs, fs[i])
  }

  /** An object sees its own functions besides those of the program, and so does each object inside it. */
  ghost predicate ObjectAllowed(db: bool, known: Funs, o: Object)
    decreases o
  {
    && (exists funs :: Adds(known, o.functions, funs) && FunctionsAllowed(db, funs, o.functions)
          && AllAllowed(Setting(db, funs, None), map[], o.stmts))
    && forall i :: 0 <= i < |o.inners| ==> ObjectAllowed(db, known, o.inners[i])
  }

  ghost predicate AllowedWith(db: bool, known: Funs, p: Program) {
    exists funs :: Adds(known, p.functions, funs) && FunctionsAllowed(db, funs, p.functions)
      && forall i :: 0 <= i < |p.objects| ==> ObjectAllowed(db, funs, p.objects[i])
  }

  ghost predicate ProgramAllowed(db: bool, p: Program) {
    AllowedWith(db, BuiltinFuns(), p)
  }
}
