/** What is reported of a Hull program, as rules over its syntax, and that the checker reports exactly that. */
module HullReports {
  // A rule says of one diagnostic which places in the program give rise to it.

  import opened Wrappers
  import opened HullIr
  import opened HullTyping
  import opened HullBuiltins
  import opened HullAsmTyping
  import opened HullAsmJudgement
  import opened HullAsmReports
  import opened HullJudgement
  import opened HullAcceptance

  // ----- expressions -----

  /** The type that an expression is taken to have, whether something is reported of it or not. */
  function TypeOf(funs: Funs, vars: Vars, e: Expr): Ty
    decreases e
  {
    match e.kind
    case WordLit(_) => Word
    case BoolLit(_) => Bool
    case UnitLit => Unit
    case Var(x) => if x in vars then vars[x] else e.ty
    case Pair(e1, e2) => Product(TypeOf(funs, vars, e1), TypeOf(funs, vars, e2))
    case Fst(e1) => var p := StripNamed(TypeOf(funs, vars, e1)); if p.Product? then p.lhs else e.ty
    case Snd(e1) => var p := StripNamed(TypeOf(funs, vars, e1)); if p.Product? then p.rhs else e.ty
    case Inl(target, _) => target
    case Inr(target, _) => target
    case InK(_, target, _) => target
    case Call(f, _) => if f in funs then funs[f].ret else e.ty
    case If(target, _, _, _) => target
  }

  ghost predicate IsMismatch(expected: Ty, actual: Ty, d: Diag) {
    !Same(expected, actual) && d == TypeMismatch(expected, actual)
  }

  /** Of an expression with its annotation. */
  ghost predicate Reports(funs: Funs, vars: Vars, e: Expr, d: Diag)
    decreases e, 1
  {
    || Faults(funs, vars, e, d)
    || (!Same(e.ty, TypeOf(funs, vars, e)) && d == ExprAnnotationMismatch(e.ty, TypeOf(funs, vars, e)))
  }

  /** Of an expression that stands where a value of the type is needed. */
  ghost predicate ReportsAt(funs: Funs, vars: Vars, expected: Ty, e: Expr, d: Diag)
    decreases e, 2
  {
    Reports(funs, vars, e, d) || IsMismatch(expected, TypeOf(funs, vars, e), d)
  }

  ghost predicate ReportsCondition(funs: Funs, vars: Vars, e: Expr, d: Diag)
    decreases e, 2
  {
    var t := TypeOf(funs, vars, e);
    Reports(funs, vars, e, d) || (!BoolLike(t) && d == ExpectedBool(t))
  }

  ghost predicate ReportsPair(funs: Funs, vars: Vars, e: Expr, d: Diag)
    decreases e, 2
  {
    var t := TypeOf(funs, vars, e);
    Reports(funs, vars, e, d) || (!StripNamed(t).Product? && d == ExpectedProduct(t))
  }

  /** The arguments fit the parameters one by one. */
  ghost predicate ReportsArgs(funs: Funs, vars: Vars, expected: seq<Ty>, args: seq<Expr>, d: Diag)
    requires |expected| == |args|
    decreases args, 0
  {
    args != []
    && (|| ReportsAt(funs, vars, expected[0], args[0], d)
        || ReportsArgs(funs, vars, expected[1..], args[1..], d))
  }

  ghost predicate Faults(funs: Funs, vars: Vars, e: Expr, d: Diag)
    decreases e, 0
  {
    match e.kind
    case Var(x) => x !in vars && d == UndefinedVariable(x)
    case Pair(e1, e2) => Reports(funs, vars, e1, d) || Reports(funs, vars, e2, d)
    case Fst(e1) => ReportsPair(funs, vars, e1, d)
    case Snd(e1) => ReportsPair(funs, vars, e1, d)
    case Inl(target, e1) =>
      var s := StripNamed(target);
      if s.Sum? then ReportsAt(funs, vars, s.lhs, e1, d) else d == ExpectedSum(target)
    case Inr(target, e1) =>
      var s := StripNamed(target);
      if s.Sum? then ReportsAt(funs, vars, s.rhs, e1, d) else d == ExpectedSum(target)
    case InK(k, target, e1) =>
      if k < |Summands(target)| then ReportsAt(funs, vars, Summands(target)[k], e1, d)
      else d == BadInjectionIndex(k, target)
    case Call(f, args) =>
      if f !in funs then d == UndefinedFunction(f)
      else if |args| != |funs[f].args| then d == ArityMismatch(f, |funs[f].args|, |args|)
      else ReportsArgs(funs, vars, funs[f].args, args, d)
    case If(target, cond, thn, els) =>
      || ReportsCondition(funs, vars, cond, d)
      || ReportsAt(funs, vars, target, thn, d)
      || ReportsAt(funs, vars, target, els, d)
    case _ => false
  }

  // ----- statements -----

  ghost predicate StmtReports(k: Setting, vars: Vars, s: Stmt, d: Diag)
    decreases s, 0
  {
    match s
    case Assign(lhs, rhs) =>
      Reports(k.funs, vars, lhs, d) || ReportsAt(k.funs, vars, TypeOf(k.funs, vars, lhs), rhs, d)
    case ExprStmt(e) => Reports(k.funs, vars, e, d)
    case Return(e) =>
      if k.ret.Some? then ReportsAt(k.funs, vars, k.ret.value, e, d)
      else Reports(k.funs, vars, e, d) || d == ReturnOutsideFunction
    case Block(body) => BodyReports(k, vars, body, d)
    case For(init, cond, post, body) =>
      var vars1 := vars + Declared(init);
      || BodyReports(k, vars, init, d)
      || ReportsCondition(k.funs, vars1, cond, d)
      || BodyReports(k, vars1, post, d)
      || BodyReports(k, vars1 + Declared(post), body, d)
    case Match(target, scrutinee, alts) =>
      ReportsAt(k.funs, vars, target, scrutinee, d) || ArmsReport(k, vars, target, alts, d)
    case Assembly(asm) =>
      if k.db then BlockReports(ShapesOf(k.funs), map[], vars, asm, d) else d == AssemblyRequiresDatabase
    case _ => false
  }

  /** Each statement sees what those before it declare. */
  ghost predicate BodyReports(k: Setting, vars: Vars, stmts: seq<Stmt>, d: Diag)
    decreases stmts, 0
  {
    stmts != []
    && (|| StmtReports(k, vars, stmts[0], d)
        || BodyReports(k, vars + Declared(stmts[..1]), stmts[1..], d))
  }

  ghost predicate ArmsReport(k: Setting, vars: Vars, target: Ty, alts: seq<Alt>, d: Diag)
    decreases alts, 0
  {
    alts != [] && (ArmReports(k, vars, target, alts[0], d) || ArmsReport(k, vars, target, alts[1..], d))
  }

  /** What the arm binds has type `p`; a pattern that is not one for the target binds the unit type. */
  ghost predicate ArmBinds(target: Ty, pat: Pat, p: Ty) {
    Binds(target, pat, p) || (p == Unit && forall q :: !Binds(target, pat, q))
  }

  ghost predicate ArmReports(k: Setting, vars: Vars, target: Ty, alt: Alt, d: Diag)
    decreases alt, 0
  {
    || (d == BadMatchPattern(alt.pat, target) && forall p :: !Binds(target, alt.pat, p))
    || exists p :: ArmBinds(target, alt.pat, p) && BodyReports(k, vars[alt.binder := p], alt.body, d)
  }

  // ----- functions, objects and programs -----

  ghost predicate FunctionReports(db: bool, funs: Funs, f: FunctionDef, d: Diag) {
    || (d == FunctionTypeNotFirstOrder(f.name)
        && (!FirstOrder(f.ret) || exists i :: 0 <= i < |f.args| && !FirstOrder(f.args[i].ty)))
    || BodyReports(Setting(db, funs, Some(f.ret)), Bound(f.args), f.body, d)
    || (d == MissingTerminator(f.name) && !Empty(f.ret) && !EndsBody(f.body, db))
  }

  ghost predicate FunctionsReport(db: bool, funs: Funs, fs: seq<FunctionDef>, d: Diag) {
    exists i :: 0 <= i < |fs| && FunctionReports(db, funs, fs[i], d)
  }

  /** The functions in `known` and those added, the last of a name counting. */
  function Known(known: Funs, fs: seq<FunctionDef>): Funs {
    if fs == [] then known
    else
      var last := fs[|fs| - 1];
      Known(known, fs[..|fs| - 1])[last.name := SigOf(last)]
  }

  /** One of the functions has the name. */
  ghost predicate HasName(fs: seq<FunctionDef>, x: Name) {
    exists i :: 0 <= i < |fs| && fs[i].name == x
  }

  /** Two of them have it. */
  ghost predicate NamedTwice(fs: seq<FunctionDef>, x: Name) {
    exists i, j :: 0 <= i < j < |fs| && fs[i].name == x && fs[j].name == x
  }

  /** A function has a name that is taken, by `known` or by an earlier one. */
  ghost predicate IsTaken(known: Funs, fs: seq<FunctionDef>, d: Diag) {
    d.DuplicateFunction? && (NamedTwice(fs, d.name) || (d.name in known && HasName(fs, d.name)))
  }

  ghost predicate ObjectReports(db: bool, known: Funs, o: Object, d: Diag)
    decreases o, 0
  {
    var funs := Known(known, o.functions);
    || IsTaken(known, o.functions, d)
    || FunctionsReport(db, funs, o.functions, d)
    || BodyReports(Setting(db, funs, None), map[], o.stmts, d)
    || ObjectsReport(db, known, o.inners, d)
  }

  ghost predicate ObjectsReport(db: bool, known: Funs, os: seq<Object>, d: Diag)
    decreases os, 0
  {
    os != [] && (ObjectReports(db, known, os[0], d) || ObjectsReport(db, known, os[1..], d))
  }

  ghost predicate ReportsWith(db: bool, known: Funs, p: Program, d: Diag) {
    var funs := Known(known, p.functions);
    IsTaken(known, p.functions, d) || FunctionsReport(db, funs, p.functions, d) || ObjectsReport(db, funs, p.objects, d)
  }

  ghost predicate ProgramReports(db: bool, p: Program, d: Diag) {
    ReportsWith(db, BuiltinFuns(), p, d)
  }

  // ----- the checker reports just that: expressions -----

  lemma {:induction false} TypeOfExactly(funs: Funs, vars: Vars, e: Expr)
    ensures CheckExpr(funs, vars, e).0 == TypeOf(funs, vars, e)
    decreases e
  {
    match e.kind
    case Pair(e1, e2) =>
      TypeOfExactly(funs, vars, e1);
      TypeOfExactly(funs, vars, e2);
    case Fst(e1) => TypeOfExactly(funs, vars, e1);
    case Snd(e1) => TypeOfExactly(funs, vars, e1);
    case _ =>
  }

  lemma {:induction false} Reported(funs: Funs, vars: Vars, e: Expr, d: Diag)
    ensures d in CheckExpr(funs, vars, e).1 <==> Reports(funs, vars, e, d)
    decreases e, 1
  {
    FaultReported(funs, vars, e, d);
    TypeOfExactly(funs, vars, e);
    SameExactly(e.ty, TypeOf(funs, vars, e));
  }

  lemma {:induction false} ReportedAt(funs: Funs, vars: Vars, expected: Ty, e: Expr, d: Diag)
    ensures var (t, ds) := CheckExpr(funs, vars, e);
      (d in ds || d in Expect(expected, t)) <==> ReportsAt(funs, vars, expected, e, d)
    decreases e, 2
  {
    Reported(funs, vars, e, d);
    TypeOfExactly(funs, vars, e);
    SameExactly(expected, TypeOf(funs, vars, e));
  }

  lemma {:induction false} ConditionReported(funs: Funs, vars: Vars, e: Expr, d: Diag)
    ensures var (t, ds) := CheckExpr(funs, vars, e);
      (d in ds || d in ExpectBool(t)) <==> ReportsCondition(funs, vars, e, d)
    decreases e, 2
  {
    Reported(funs, vars, e, d);
    TypeOfExactly(funs, vars, e);
    BoolLikeExactly(TypeOf(funs, vars, e));
  }

  lemma {:induction false} ArgsReported(funs: Funs, vars: Vars, expected: seq<Ty>, args: seq<Expr>, d: Diag)
    requires |expected| == |args|
    ensures d in CheckArgs(funs, vars, expected, args) <==> ReportsArgs(funs, vars, expected, args, d)
    decreases args, 0
  {
    if args != [] {
      ReportedAt(funs, vars, expected[0], args[0], d);
      ArgsReported(funs, vars, expected[1..], args[1..], d);
    }
  }

  lemma {:induction false} FaultReported(funs: Funs, vars: Vars, e: Expr, d: Diag)
    ensures d in InferExpr(funs, vars, e).1 <==> Faults(funs, vars, e, d)
    decreases e, 0
  {
    match e.kind
    case Pair(e1, e2) =>
      Reported(funs, vars, e1, d);
      Reported(funs, vars, e2, d);
    case Fst(e1) => PairReported(funs, vars, e, e1, d);
    case Snd(e1) => PairReported(funs, vars, e, e1, d);
    case Inl(_, _) => SideReported(funs, vars, e, d);
    case Inr(_, _) => SideReported(funs, vars, e, d);
    case InK(_, _, _) => SummandReported(funs, vars, e, d);
    case Call(_, _) => CallReported(funs, vars, e, d);
    case If(_, _, _, _) => IfReported(funs, vars, e, d);
    case _ =>
  }

  lemma {:induction false} SummandReported(funs: Funs, vars: Vars, e: Expr, d: Diag)
    requires e.kind.InK?
    ensures d in InferExpr(funs, vars, e).1 <==> Faults(funs, vars, e, d)
    decreases e.kind, 0
  {
    var k, target := e.kind.index, e.kind.target;
    SummandsExactly(target, k);
    if k < |Summands(target)| { ReportedAt(funs, vars, Summands(target)[k], e.kind.e, d); }
  }

  lemma {:induction false} CallReported(funs: Funs, vars: Vars, e: Expr, d: Diag)
    requires e.kind.Call?
    ensures d in InferExpr(funs, vars, e).1 <==> Faults(funs, vars, e, d)
    decreases e.kind, 0
  {
    var f, args := e.kind.callee, e.kind.args;
    if f in funs && |args| == |funs[f].args| { ArgsReported(funs, vars, funs[f].args, args, d); }
  }

  lemma {:induction false} IfReported(funs: Funs, vars: Vars, e: Expr, d: Diag)
    requires e.kind.If?
    ensures d in InferExpr(funs, vars, e).1 <==> Faults(funs, vars, e, d)
    decreases e.kind, 0
  {
    ConditionReported(funs, vars, e.kind.cond, d);
    ReportedAt(funs, vars, e.kind.target, e.kind.thn, d);
    ReportedAt(funs, vars, e.kind.target, e.kind.els, d);
  }

  lemma {:induction false} PairReported(funs: Funs, vars: Vars, e: Expr, e1: Expr, d: Diag)
    requires e.kind == Fst(e1) || e.kind == Snd(e1)
    ensures d in InferExpr(funs, vars, e).1 <==> ReportsPair(funs, vars, e1, d)
    decreases e1, 2
  {
    Reported(funs, vars, e1, d);
    TypeOfExactly(funs, vars, e1);
  }

  lemma {:induction false} SideReported(funs: Funs, vars: Vars, e: Expr, d: Diag)
    requires e.kind.Inl? || e.kind.Inr?
    ensures d in InferExpr(funs, vars, e).1 <==> Faults(funs, vars, e, d)
    decreases e.kind, 0
  {
    var s := StripNamed(e.kind.target);
    if s.Sum? { ReportedAt(funs, vars, if e.kind.Inl? then s.lhs else s.rhs, e.kind.e, d); }
  }

  // ----- statements -----

  lemma DeclaredOne(stmts: seq<Stmt>, vars: Vars)
    requires stmts != []
    ensures Declare(vars, stmts[0]) == vars + Declared(stmts[..1])
  {
    assert Declared([]) == map[];
    assert stmts[..1][..0] == [];
    DeclareIs(vars, stmts[0]);
  }

  /** A diagnostic is reported of a statement exactly when the rules have a place for it. */
  lemma {:induction false} StmtReported(k: Setting, vars: Vars, s: Stmt, d: Diag)
    ensures d in CheckStmt(CtxOf(k), vars, s) <==> StmtReports(k, vars, s, d)
    decreases s, 1
  {
    match s
    case Assign(lhs, rhs) =>
      Reported(k.funs, vars, lhs, d);
      TypeOfExactly(k.funs, vars, lhs);
      ReportedAt(k.funs, vars, TypeOf(k.funs, vars, lhs), rhs, d);
    case ExprStmt(e) => Reported(k.funs, vars, e, d);
    case Return(e) => ReturnReported(k, vars, s, d);
    case Block(body) => BodyReported(k, vars, body, d);
    case For(_, _, _, _) => ForReported(k, vars, s, d);
    case Match(target, scrutinee, alts) =>
      ReportedAt(k.funs, vars, target, scrutinee, d);
      ArmsReported(k, vars, target, alts, d);
    case Assembly(_) => AssemblyReported(k, vars, s, d);
    case _ =>
  }

  lemma ReturnReported(k: Setting, vars: Vars, s: Stmt, d: Diag)
    requires s.Return?
    ensures d in CheckStmt(CtxOf(k), vars, s) <==> StmtReports(k, vars, s, d)
  {
    Reported(k.funs, vars, s.e, d);
    if k.ret.Some? { ReportedAt(k.funs, vars, k.ret.value, s.e, d); }
  }

  lemma AssemblyReported(k: Setting, vars: Vars, s: Stmt, d: Diag)
    requires s.Assembly?
    ensures d in CheckStmt(CtxOf(k), vars, s) <==> StmtReports(k, vars, s, d)
  {
    if k.db {
      BlockReported(k.funs, map[], vars, s.asm, d);
      assert ShapesOf(map[]) == map[];
      assert CheckStmt(CtxOf(k), vars, s) == CheckAsm(k.funs, vars, s.asm);
    }
  }

  lemma {:induction false} ForReported(k: Setting, vars: Vars, s: Stmt, d: Diag)
    requires s.For?
    ensures d in CheckStmt(CtxOf(k), vars, s) <==> StmtReports(k, vars, s, d)
    decreases s, 0
  {
    var vars1 := vars + Declared(s.init);
    DeclaredExactly(vars, s.init);
    DeclaredExactly(vars1, s.post);
    BodyReported(k, vars, s.init, d);
    ConditionReported(k.funs, vars1, s.cond, d);
    BodyReported(k, vars1, s.post, d);
    BodyReported(k, vars1 + Declared(s.post), s.body, d);
  }

  lemma {:induction false} BodyReported(k: Setting, vars: Vars, stmts: seq<Stmt>, d: Diag)
    ensures d in CheckBody(CtxOf(k), vars, stmts) <==> BodyReports(k, vars, stmts, d)
    decreases stmts, 0
  {
    if stmts != [] {
      DeclaredOne(stmts, vars);
      StmtReported(k, vars, stmts[0], d);
      BodyReported(k, Declare(vars, stmts[0]), stmts[1..], d);
    }
  }

  lemma {:induction false} ArmsReported(k: Setting, vars: Vars, target: Ty, alts: seq<Alt>, d: Diag)
    ensures d in CheckAlts(CtxOf(k), vars, target, alts) <==> ArmsReport(k, vars, target, alts, d)
    decreases alts, 0
  {
    if alts != [] {
      ArmReported(k, vars, target, alts[0], d);
      ArmsReported(k, vars, target, alts[1..], d);
    }
  }

  lemma ArmBindsExactly(target: Ty, pat: Pat)
    ensures PayloadType(target, pat).None? <==> forall p :: !Binds(target, pat, p)
    ensures forall p :: ArmBinds(target, pat, p) <==>
      p == if PayloadType(target, pat).Some? then PayloadType(target, pat).value else Unit
  {
    forall p ensures Binds(target, pat, p) <==> PayloadType(target, pat) == Some(p) { BindsExactly(target, pat, p); }
    if PayloadType(target, pat).Some? { assert Binds(target, pat, PayloadType(target, pat).value); }
  }

  lemma {:induction false} ArmReported(k: Setting, vars: Vars, target: Ty, alt: Alt, d: Diag)
    ensures d in CheckAlt(CtxOf(k), vars, target, alt) <==> ArmReports(k, vars, target, alt, d)
    decreases alt, 0
  {
    var payload := PayloadType(target, alt.pat);
    var p := if payload.Some? then payload.value else Unit;
    ArmBindsExactly(target, alt.pat);
    BodyReported(k, vars[alt.binder := p], alt.body, d);
    assert ArmBinds(target, alt.pat, p);
  }

  // ----- functions, objects and programs -----

  lemma {:induction false} FirstOrderArgsReported(name: Name, args: seq<Arg>, d: Diag)
    ensures d in FirstOrderArgs(name, args) <==>
      d == FunctionTypeNotFirstOrder(name) && exists i :: 0 <= i < |args| && !FirstOrder(args[i].ty)
    decreases args
  {
    if args != [] {
      FirstOrderExactly(args[0].ty);
      FirstOrderArgsReported(name, args[1..], d);
      assert args == [args[0]] + args[1..];
    }
  }

  /** A diagnostic is reported of a function exactly when the rules have a place for it. */
  lemma FunctionReported(db: bool, funs: Funs, f: FunctionDef, d: Diag)
    ensures d in CheckFunction(AsmOfDb(db), funs, map[], f) <==> FunctionReports(db, funs, f, d)
  {
    FirstOrderArgsReported(f.name, f.args, d);
    FirstOrderExactly(f.ret);
    BoundExactly(map[], f.args);
    assert map[] + Bound(f.args) == Bound(f.args);
    BodyReported(Setting(db, funs, Some(f.ret)), Bound(f.args), f.body, d);
    EmptyExactly(f.ret);
    EndsBodyExactly(f.body, db);
  }

  lemma {:induction false} FunctionsReported(db: bool, funs: Funs, fs: seq<FunctionDef>, d: Diag)
    ensures d in CheckFunctions(AsmOfDb(db), funs, fs) <==> FunctionsReport(db, funs, fs, d)
    decreases fs
  {
    if fs != [] {
      FunctionReported(db, funs, fs[0], d);
      FunctionsReported(db, funs, fs[1..], d);
      assert fs == [fs[0]] + fs[1..];
      SomeCons(f => FunctionReports(db, funs, f, d), fs, fs[0], fs[1..]);
    }
  }

  /** A property of some element, of the first one or of one of the rest. */
  lemma SomeCons<T>(p: T -> bool, s: seq<T>, first: T, rest: seq<T>)
    requires s == [first] + rest
    ensures (exists i :: 0 <= i < |s| && p(s[i])) <==> p(first) || exists i :: 0 <= i < |rest| && p(rest[i])
  {
    EachCons(x => !p(x), s, first, rest);
  }

  lemma {:induction false} KnownCons(known: Funs, fs: seq<FunctionDef>)
    requires fs != []
    ensures Known(known, fs) == Known(known[fs[0].name := SigOf(fs[0])], fs[1..])
    decreases |fs|
  {
    var n := |fs| - 1;
    if n > 0 {
      KnownCons(known, fs[..n]);
      assert fs[..n][1..] == fs[1..][..n - 1];
    } else {
      assert fs[..0] == [] && fs[1..] == [];
    }
  }

  lemma NamedCons(fs: seq<FunctionDef>, x: Name)
    requires fs != []
    ensures HasName(fs, x) <==> fs[0].name == x || HasName(fs[1..], x)
    ensures NamedTwice(fs, x) <==> (fs[0].name == x && HasName(fs[1..], x)) || NamedTwice(fs[1..], x)
  {
    var rest := fs[1..];
    if j :| 0 < j < |fs| && fs[j].name == x { assert rest[j - 1].name == x; }
    if j :| 0 <= j < |rest| && rest[j].name == x { assert fs[j + 1].name == x; }
    if i, j :| 0 <= i < j < |fs| && fs[i].name == x && fs[j].name == x {
      assert rest[j - 1].name == x;
      if i > 0 { assert rest[i - 1].name == x; }
    }
    if i, j :| 0 <= i < j < |rest| && rest[i].name == x && rest[j].name == x {
      assert fs[i + 1].name == x && fs[j + 1].name == x;
    }
  }

  lemma {:induction false} RegisterReported(known: Funs, fs: seq<FunctionDef>, d: Diag)
    ensures Register(known, fs).0 == Known(known, fs)
    ensures d in Register(known, fs).1 <==> IsTaken(known, fs, d)
    decreases fs
  {
    if fs != [] {
      KnownCons(known, fs);
      if d.DuplicateFunction? { NamedCons(fs, d.name); }
      RegisterReported(known[fs[0].name := SigOf(fs[0])], fs[1..], d);
    }
  }

  /** A diagnostic is reported of an object exactly when the rules have a place for it. */
  lemma {:induction false} ObjectReported(db: bool, known: Funs, o: Object, d: Diag)
    ensures d in CheckObject(AsmOfDb(db), known, o) <==> ObjectReports(db, known, o, d)
    decreases o, 0
  {
    var funs := Known(known, o.functions);
    RegisterReported(known, o.functions, d);
    FunctionsReported(db, funs, o.functions, d);
    BodyReported(Setting(db, funs, None), map[], o.stmts, d);
    ObjectsReported(db, known, o.inners, d);
  }

  lemma {:induction false} ObjectsReported(db: bool, known: Funs, os: seq<Object>, d: Diag)
    ensures d in CheckObjects(AsmOfDb(db), known, os) <==> ObjectsReport(db, known, os, d)
    decreases os, 0
  {
    if os != [] {
      ObjectReported(db, known, os[0], d);
      ObjectsReported(db, known, os[1..], d);
    }
  }

  lemma ReportedWith(db: bool, known: Funs, p: Program, d: Diag)
    ensures d in CheckProgramWith(AsmOfDb(db), known, p) <==> ReportsWith(db, known, p, d)
  {
    var funs := Known(known, p.functions);
    RegisterReported(known, p.functions, d);
    FunctionsReported(db, funs, p.functions, d);
    ObjectsReported(db, funs, p.objects, d);
  }

  /** A diagnostic is reported of a program exactly when the rules have a place for it. */
  lemma ProgramReported(db: bool, p: Program, d: Diag)
    ensures d in CheckProgram(db, p) <==> ProgramReports(db, p, d)
  {
    ReportedWith(db, BuiltinFuns(), p, d);
  }

  lemma NothingIn(ds: seq<Diag>, reports: Diag -> bool)
    requires forall d :: d in ds <==> reports(d)
    ensures ds == [] <==> forall d :: !reports(d)
  {
    if ds != [] { assert ds[0] in ds; }
  }

  lemma NothingReported(db: bool, known: Funs, p: Program, reports: Diag -> bool)
    requires forall d :: reports(d) <==> ReportsWith(db, known, p, d)
    ensures CheckProgramWith(AsmOfDb(db), known, p) == [] <==> forall d :: !reports(d)
  {
    forall d ensures d in CheckProgramWith(AsmOfDb(db), known, p) <==> reports(d) { ReportedWith(db, known, p, d); }
    NothingIn(CheckProgramWith(AsmOfDb(db), known, p), reports);
  }

  /** The rules allow exactly the programs of which they report nothing, whatever the builtins. */
  lemma RulesAgree(db: bool, known: Funs, p: Program)
    ensures AllowedWith(db, known, p) <==> forall d :: !ReportsWith(db, known, p, d)
  {
    ProgramWithExactly(db, known, p);
    NothingReported(db, known, p, d => ReportsWith(db, known, p, d));
  }
}
