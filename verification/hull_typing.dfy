/** What crates/hull/src/check.rs computes, as functions on values. */
module HullTyping {
  // A scope stack is flattened to one map here: `Vars` maps each visible name to the type of its innermost declaration.
  // `HullChecker.Env` is the in-place form and is proved to produce exactly the diagnostics of these functions.

  import opened Wrappers
  import opened HullIr

  datatype Diag =
    | UndefinedVariable(name: Name)
    | UndefinedFunction(name: Name)
    | DuplicateFunction(name: Name)
    | ArityMismatch(name: Name, expected: nat, actual: nat)
    | TypeMismatch(expectedTy: Ty, actualTy: Ty)
    | ExprAnnotationMismatch(annotated: Ty, inferred: Ty)
    | ExpectedProduct(actualTy: Ty)
    | ExpectedSum(actualTy: Ty)
    | ExpectedBool(actualTy: Ty)
    | BadInjectionIndex(index: nat, ty: Ty)
    | BadMatchPattern(pat: Pat, ty: Ty)
    | ReturnOutsideFunction
    | FunctionTypeNotFirstOrder(name: Name)
    | MissingTerminator(name: Name)
    | AssemblyRequiresDatabase
    | AssemblyReturnCountMismatch(expected: nat, actual: nat)
    | AssemblyExpressionNotUnit(actualTy: Ty)
    | AssemblyExpectedWordArgument(actualTy: Ty)
    | AssemblyExpectedWordAssignment(name: Name, actualTy: Ty)
    | AssemblyVoidArgument

  datatype FunSig = FunSig(args: seq<Ty>, ret: Ty)
  type Vars = map<Name, Ty>
  type Funs = map<Name, FunSig>

  /** Checks an assembly block, given the visible functions and variables. */
  type AsmChecker = (Funs, Vars, seq<YulStmt>) -> seq<Diag>

  // ----- types -----

  /** `type_eq`: names are looked through, except that a reference equals its name. */
  predicate TypeEq(a: Ty, b: Ty)
    decreases a
  {
    if a.NamedRef? && (b.NamedRef? || b.Named?) then a.name == b.name
    else if a.Named? && b.NamedRef? then a.name == b.name
    else
      match (StripNamed(a), StripNamed(b))
      case (Word, Word) => true
      case (Bool, Bool) => true
      case (Unit, Unit) => true
      case (Product(al, ar), Product(bl, br)) => TypeEq(al, bl) && TypeEq(ar, br)
      case (Sum(al, ar), Sum(bl, br)) => TypeEq(al, bl) && TypeEq(ar, br)
      case (Function(ap, ar), Function(bp, br)) => TypesEq(ap, bp) && TypeEq(ar, br)
      case _ => false
  }

  predicate TypesEq(a: seq<Ty>, b: seq<Ty>)
    decreases a
  {
    |a| == |b| && (a != [] ==> TypeEq(a[0], b[0]) && TypesEq(a[1..], b[1..]))
  }

  const BOOL_SUM := Sum(Unit, Unit)

  predicate IsBoolLike(t: Ty) {
    var s := StripNamed(t);
    s.Bool? || (s.Sum? && StripNamed(s.lhs).Unit? && StripNamed(s.rhs).Unit?)
  }

  predicate IsWordType(t: Ty) {
    StripNamed(t).Word?
  }

  function Max(a: nat, b: nat): nat {
    if a < b then b else a
  }

  /** `return_count`: the stack slots a value of the type takes. */
  function ReturnCount(t: Ty): nat {
    match t
    case Unit => 0
    case Word => 1
    case Bool => 1
    case Product(l, r) => ReturnCount(l) + ReturnCount(r)
    case Sum(l, r) => 1 + Max(ReturnCount(l), ReturnCount(r))
    case Named(_, inner) => ReturnCount(inner)
    case NamedRef(_) => 1
    case Function(_, _) => 1
  }

  predicate RequiresTerminator(t: Ty) {
    ReturnCount(t) > 0
  }

  /** What the loop of `nth_sum_payload` computes. */
  function NthSumPayload(target: Ty, index: nat): Option<Ty>
    decreases target
  {
    match StripNamed(target)
    case Sum(l, r) => if index == 0 then Some(l) else NthSumPayload(r, index - 1)
    case other => if index == 0 then Some(other) else None
  }

  function PayloadType(target: Ty, pat: Pat): Option<Ty> {
    match (StripNamed(target), pat)
    case (Sum(l, _), InlPat) => Some(l)
    case (Sum(_, r), InrPat) => Some(r)
    case (_, InKPat(k)) => NthSumPayload(target, k)
    case (_, Wildcard) => Some(target)
    case (_, VarPat(_)) => Some(target)
    case (Word, IntLit(_)) => Some(Word)
    case _ => None
  }

  // ----- expressions -----

  function Expect(expected: Ty, actual: Ty): seq<Diag> {
    if TypeEq(expected, actual) then [] else [TypeMismatch(expected, actual)]
  }

  function ExpectBool(t: Ty): seq<Diag> {
    if IsBoolLike(t) then [] else [ExpectedBool(t)]
  }

  function CheckExpr(funs: Funs, vars: Vars, e: Expr): (r: (Ty, seq<Diag>))
    decreases e, 1
  {
    var (t, ds) := InferExpr(funs, vars, e);
    (t, ds + if TypeEq(e.ty, t) then [] else [ExprAnnotationMismatch(e.ty, t)])
  }

  function InferExpr(funs: Funs, vars: Vars, e: Expr): (r: (Ty, seq<Diag>))
    decreases e, 0
  {
    match e.kind
    case WordLit(_) => (Word, [])
    case BoolLit(_) => (Bool, [])
    case UnitLit => (Unit, [])
    case Var(x) => if x in vars then (vars[x], []) else (e.ty, [UndefinedVariable(x)])
    case Pair(e1, e2) =>
      var (t1, d1) := CheckExpr(funs, vars, e1);
      var (t2, d2) := CheckExpr(funs, vars, e2);
      (Product(t1, t2), d1 + d2)
    case Fst(inner) =>
      var (t, d) := CheckExpr(funs, vars, inner);
      var s := StripNamed(t);
      if s.Product? then (s.lhs, d) else (e.ty, d + [ExpectedProduct(t)])
    case Snd(inner) =>
      var (t, d) := CheckExpr(funs, vars, inner);
      var s := StripNamed(t);
      if s.Product? then (s.rhs, d) else (e.ty, d + [ExpectedProduct(t)])
    case Inl(target, value) =>
      var s := StripNamed(target);
      if s.Sum? then
        var (t, d) := CheckExpr(funs, vars, value);
        (target, d + Expect(s.lhs, t))
      else (target, [ExpectedSum(target)])
    case Inr(target, value) =>
      var s := StripNamed(target);
      if s.Sum? then
        var (t, d) := CheckExpr(funs, vars, value);
        (target, d + Expect(s.rhs, t))
      else (target, [ExpectedSum(target)])
    case InK(k, target, value) =>
      (match NthSumPayload(target, k)
       case Some(expected) =>
         var (t, d) := CheckExpr(funs, vars, value);
         (target, d + Expect(expected, t))
       case None => (target, [BadInjectionIndex(k, target)]))
    case Call(callee, args) =>
      if callee !in funs then (e.ty, [UndefinedFunction(callee)])
      else
        var sig := funs[callee];
        if |sig.args| != |args| then (sig.ret, [ArityMismatch(callee, |sig.args|, |args|)])
        else (sig.ret, CheckArgs(funs, vars, sig.args, args))
    case If(target, cond, thn, els) =>
      var (tc, dc) := CheckExpr(funs, vars, cond);
      var (tt, dt) := CheckExpr(funs, vars, thn);
      var (te, de) := CheckExpr(funs, vars, els);
      (target, dc + ExpectBool(tc) + dt + de + Expect(target, tt) + Expect(target, te))
  }

  function CheckArgs(funs: Funs, vars: Vars, expected: seq<Ty>, args: seq<Expr>): (r: seq<Diag>)
    requires |expected| == |args|
    decreases args, 0
  {
    if args == [] then []
    else
      var (t, d) := CheckExpr(funs, vars, args[0]);
      d + Expect(expected[0], t) + CheckArgs(funs, vars, expected[1..], args[1..])
  }

  // ----- termination of function bodies -----

  predicate BodyTerminates(body: seq<Stmt>, db: bool) {
    body != [] && StmtTerminates(body[|body| - 1], db)
  }

  predicate StmtTerminates(s: Stmt, db: bool) {
    match s
    case Return(_) => true
    case Revert(_) => true
    case Block(body) => BodyTerminates(body, db)
    case Match(_, _, alts) => alts != [] && forall alt | alt in alts :: BodyTerminates(alt.body, db)
    case Assembly(asm) => AsmBlockTerminates(asm, db)
    case _ => false
  }

  predicate AsmBlockTerminates(stmts: seq<YulStmt>, db: bool) {
    stmts != [] && AsmStmtTerminates(stmts[|stmts| - 1], db)
  }

  predicate AsmStmtTerminates(s: YulStmt, db: bool) {
    match s
    case YulBlock(body) => AsmBlockTerminates(body, db)
    case YulExprStmt(YulCall(callee, _)) =>
      db && callee in {"return", "revert", "stop", "invalid", "selfdestruct"}
    case YulSwitch(_, cases, hasDefault, default) =>
      && cases != []
      && hasDefault
      && (forall c | c in cases :: AsmBlockTerminates(c.body, db))
      && AsmBlockTerminates(default, db)
    case _ => false
  }

  // ----- the shape of builtin signatures -----

  predicate PrimArgTy(t: Ty) { t == Word || t == BOOL_SUM }

  predicate PrimSig(sig: FunSig) {
    && (sig.ret in {Word, Unit, BOOL_SUM})
    && forall t | t in sig.args :: PrimArgTy(t)
  }

  /** Builtins take words and unit sums, and return one of those or nothing. */
  predicate PrimFuns(funs: Funs) { forall x | x in funs :: PrimSig(funs[x]) }

  // ----- statements -----

  /** What stays fixed while one body is checked.  Without a source database there is no assembly checker. */
  datatype Ctx = Ctx(asm: Option<AsmChecker>, funs: Funs, ret: Option<Ty>)

  function Declare(vars: Vars, s: Stmt): Vars {
    if s.Let? then vars[s.name := s.ty] else vars
  }

  /** The variables in scope after the statements, none of which leaves a scope open. */
  function DeclareAll(vars: Vars, stmts: seq<Stmt>): Vars
    decreases stmts
  {
    if stmts == [] then vars else DeclareAll(Declare(vars, stmts[0]), stmts[1..])
  }

  function CheckBody(cx: Ctx, vars: Vars, body: seq<Stmt>): (r: seq<Diag>)
    decreases body, 0
  {
    if body == [] then []
    else CheckStmt(cx, vars, body[0]) + CheckBody(cx, Declare(vars, body[0]), body[1..])
  }

  function CheckStmt(cx: Ctx, vars: Vars, s: Stmt): (r: seq<Diag>)
    decreases s, 0
  {
    match s
    case Let(_, _) => []
    case Assign(lhs, rhs) =>
      var (tl, dl) := CheckExpr(cx.funs, vars, lhs);
      var (tr, dr) := CheckExpr(cx.funs, vars, rhs);
      dl + dr + Expect(tl, tr)
    case ExprStmt(e) => CheckExpr(cx.funs, vars, e).1
    case Return(e) =>
      var (t, d) := CheckExpr(cx.funs, vars, e);
      d + (match cx.ret case Some(expected) => Expect(expected, t) case None => [ReturnOutsideFunction])
    case Block(body) => CheckBody(cx, vars, body)
    case For(init, cond, post, body) =>
      var vars1 := DeclareAll(vars, init);
      var (t, d) := CheckExpr(cx.funs, vars1, cond);
      CheckBody(cx, vars, init) + d + ExpectBool(t) + CheckBody(cx, vars1, post)
      + CheckBody(cx, DeclareAll(vars1, post), body)
    case Match(target, scrutinee, alts) =>
      var (t, d) := CheckExpr(cx.funs, vars, scrutinee);
      d + Expect(target, t) + CheckAlts(cx, vars, target, alts)
    case Assembly(asm) =>
      (match cx.asm case Some(check) => check(cx.funs, vars, asm) case None => [AssemblyRequiresDatabase])
    case _ => []
  }

  function CheckAlts(cx: Ctx, vars: Vars, target: Ty, alts: seq<Alt>): (r: seq<Diag>)
    decreases alts, 0
  {
    if alts == [] then []
    else CheckAlt(cx, vars, target, alts[0]) + CheckAlts(cx, vars, target, alts[1..])
  }

  function CheckAlt(cx: Ctx, vars: Vars, target: Ty, alt: Alt): (r: seq<Diag>)
    decreases alt, 0
  {
    match PayloadType(target, alt.pat)
    case Some(payload) => CheckBody(cx, vars[alt.binder := payload], alt.body)
    case None => [BadMatchPattern(alt.pat, target)] + CheckBody(cx, vars[alt.binder := Unit], alt.body)
  }

  // ----- functions, objects and programs -----

  function SigOf(f: FunctionDef): FunSig {
    FunSig(seq(|f.args|, i requires 0 <= i < |f.args| => f.args[i].ty), f.ret)
  }

  function Register(funs: Funs, fs: seq<FunctionDef>): (Funs, seq<Diag>)
    decreases fs
  {
    if fs == [] then (funs, [])
    else
      var (rest, d) := Register(funs[fs[0].name := SigOf(fs[0])], fs[1..]);
      (rest, (if fs[0].name in funs then [DuplicateFunction(fs[0].name)] else []) + d)
  }

  function BindArgs(vars: Vars, args: seq<Arg>): Vars
    decreases args
  {
    if args == [] then vars else BindArgs(vars[args[0].name := args[0].ty], args[1..])
  }

  function FirstOrderArgs(name: Name, args: seq<Arg>): seq<Diag> {
    if args == [] then []
    else (if ContainsFunction(args[0].ty) then [FunctionTypeNotFirstOrder(name)] else [])
         + FirstOrderArgs(name, args[1..])
  }

  /** `check_function`; `vars` is what the enclosing scopes declare. */
  function CheckFunction(asm: Option<AsmChecker>, funs: Funs, vars: Vars, f: FunctionDef): (r: seq<Diag>) {
    FirstOrderArgs(f.name, f.args)
    + (if ContainsFunction(f.ret) then [FunctionTypeNotFirstOrder(f.name)] else [])
    + CheckBody(Ctx(asm, funs, Some(f.ret)), BindArgs(vars, f.args), f.body)
    + (if RequiresTerminator(f.ret) && !BodyTerminates(f.body, asm.Some?) then [MissingTerminator(f.name)] else [])
  }

  function CheckFunctions(asm: Option<AsmChecker>, funs: Funs, fs: seq<FunctionDef>): (r: seq<Diag>) {
    if fs == [] then [] else CheckFunction(asm, funs, map[], fs[0]) + CheckFunctions(asm, funs, fs[1..])
  }

  /** `check_object`: inner objects see only the functions of the program. */
  function CheckObject(asm: Option<AsmChecker>, funs: Funs, o: Object): (r: seq<Diag>)
    decreases o, 0
  {
    var (inner, d) := Register(funs, o.functions);
    d + CheckFunctions(asm, inner, o.functions) + CheckBody(Ctx(asm, inner, None), map[], o.stmts)
    + CheckObjects(asm, funs, o.inners)
  }

  function CheckObjects(asm: Option<AsmChecker>, funs: Funs, os: seq<Object>): (r: seq<Diag>)
    decreases os, 0
  {
    if os == [] then [] else CheckObject(asm, funs, os[0]) + CheckObjects(asm, funs, os[1..])
  }

  /** `check_program_inner`, for any builtins and any assembly checker. */
  function CheckProgramWith(asm: Option<AsmChecker>, prims: Funs, p: Program): (r: seq<Diag>) {
    var (funs, d) := Register(prims, p.functions);
    d + CheckFunctions(asm, funs, p.functions) + CheckObjects(asm, funs, p.objects)
  }
}
