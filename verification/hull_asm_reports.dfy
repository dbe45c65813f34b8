/** What is reported of inline assembly, as rules over its syntax, and that the checker reports exactly that. */
module HullAsmReports {
  // A rule says of one diagnostic which places in the code give rise to it.

  import opened Wrappers
  import opened HullIr
  import opened HullTyping
  import opened HullBuiltins
  import opened HullAsmTyping
  import opened HullAsmNames
  import opened HullAsmJudgement

  // ----- the rules -----

  ghost predicate IsKnown(funs: Shapes, inner: Shapes, name: Name) {
    exists shape :: Resolves(funs, inner, name, shape)
  }

  /** What a call of the name is taken for: one that is not known takes and gives nothing. */
  ghost function Seen(funs: Shapes, inner: Shapes, name: Name): Shape {
    if IsKnown(funs, inner, name) then
      var shape :| Resolves(funs, inner, name, shape);
      shape
    else Shape(0, 0)
  }

  /** The type that an expression is taken to have, whether something is reported of it or not. */
  ghost function Taken(funs: Shapes, inner: Shapes, vars: Vars, e: YulExpr): Ty {
    match e
    case YulIdent(x) => if x in vars then vars[x] else Word
    case YulCall(callee, _) => NReturns(Seen(funs, inner, callee).gives)
    case _ => Word
  }

  ghost predicate ExprReports(funs: Shapes, inner: Shapes, vars: Vars, e: YulExpr, d: Diag)
    decreases e, 0
  {
    match e
    case YulIdent(x) => x !in vars && d == UndefinedVariable(x)
    case YulCall(callee, args) =>
      var takes := Seen(funs, inner, callee).takes;
      || (!IsKnown(funs, inner, callee) && d == UndefinedFunction(callee))
      || (takes != |args| && d == ArityMismatch(callee, takes, |args|))
      || (takes == |args| && SomeArgReports(funs, inner, vars, args, d))
    case _ => false
  }

  /** Of an expression that stands where a word is needed. */
  ghost predicate WordReports(funs: Shapes, inner: Shapes, vars: Vars, e: YulExpr, d: Diag)
    decreases e, 1
  {
    var t := Taken(funs, inner, vars, e);
    || ExprReports(funs, inner, vars, e, d)
    || (StripNamed(t) == Unit && d == AssemblyVoidArgument)
    || (StripNamed(t) != Unit && StripNamed(t) != Word && d == AssemblyExpectedWordArgument(t))
  }

  ghost predicate SomeArgReports(funs: Shapes, inner: Shapes, vars: Vars, args: seq<YulExpr>, d: Diag)
    decreases args, 0
  {
    args != [] && (WordReports(funs, inner, vars, args[0], d) || SomeArgReports(funs, inner, vars, args[1..], d))
  }

  /** Of an expression that must give as many words as there are names. */
  ghost predicate CountReports(funs: Shapes, inner: Shapes, vars: Vars, names: seq<Name>, e: YulExpr, d: Diag) {
    var gives := ReturnCount(Taken(funs, inner, vars, e));
    || ExprReports(funs, inner, vars, e, d)
    || (gives != |names| && d == AssemblyReturnCountMismatch(|names|, gives))
  }

  ghost predicate TargetsReport(vars: Vars, names: seq<Name>, d: Diag) {
    exists x :: x in names && if x in vars
      then StripNamed(vars[x]) != Word && d == AssemblyExpectedWordAssignment(x, vars[x])
      else d == UndefinedVariable(x)
  }

  /** The functions that a block defines, the last definition of a name counting. */
  function Defined(stmts: seq<YulStmt>): Shapes {
    if stmts == [] then map[]
    else
      var s := stmts[0];
      (if s.YulFunctionDef? then map[s.name := Shape(|s.params|, |s.rets|)] else map[]) + Defined(stmts[1..])
  }

  /** A definition of a name that an earlier one has. */
  ghost predicate IsRepeated(stmts: seq<YulStmt>, d: Diag) {
    exists i, j :: 0 <= i < j < |stmts| && stmts[i].YulFunctionDef? && stmts[j].YulFunctionDef?
      && stmts[i].name == stmts[j].name && d == DuplicateFunction(stmts[j].name)
  }

  ghost predicate StmtReports(funs: Shapes, inner: Shapes, vars: Vars, s: YulStmt, d: Diag)
    decreases s, 1
  {
    match s
    case YulBlock(body) => BlockReports(funs, inner, vars, body, d)
    case YulLet(names, initial) => initial.Some? && CountReports(funs, inner, vars, names, initial.value, d)
    case YulAssign(names, value) => TargetsReport(vars, names, d) || CountReports(funs, inner, vars, names, value, d)
    case YulExprStmt(e) =>
      var t := Taken(funs, inner, vars, e);
      || ExprReports(funs, inner, vars, e, d)
      || (StripNamed(t) != Unit && d == AssemblyExpressionNotUnit(t))
    case YulIf(cond, body) => WordReports(funs, inner, vars, cond, d) || BlockReports(funs, inner, vars, body, d)
    case YulFor(init, _, _, _) => IsRepeated(init, d) || LoopReports(funs, inner + Defined(init), vars, s, d)
    case YulSwitch(e, cases, hasDefault, default) =>
      || WordReports(funs, inner, vars, e, d)
      || CasesReport(funs, inner, vars, cases, d)
      || (hasDefault && BlockReports(funs, inner, With(vars, CaseNames(cases, Leaking)), default, d))
    case YulFunctionDef(_, params, rets, body) =>
      BlockReports(funs, inner, With(map[], (set x | x in params) + (set x | x in rets)), body, d)
    case _ => false
  }

  ghost predicate LoopReports(funs: Shapes, inner: Shapes, vars: Vars, s: YulStmt, d: Diag)
    requires s.YulFor?
    decreases s, 0
  {
    var vars1 := With(vars, AllNames(s.init, Leaking));
    || SeqReports(funs, inner, vars, s.init, d)
    || WordReports(funs, inner, vars1, s.cond, d)
    || BlockReports(funs, inner, vars1, s.post, d)
    || BlockReports(funs, inner, vars1, s.body, d)
  }

  /** Each statement sees what those before it leave declared. */
  ghost predicate SeqReports(funs: Shapes, inner: Shapes, vars: Vars, stmts: seq<YulStmt>, d: Diag)
    decreases stmts, 0
  {
    stmts != []
    && (|| StmtReports(funs, inner, vars, stmts[0], d)
        || SeqReports(funs, inner, With(vars, Names(stmts[0], Leaking)), stmts[1..], d))
  }

  ghost predicate BlockReports(funs: Shapes, outer: Shapes, vars: Vars, stmts: seq<YulStmt>, d: Diag)
    decreases stmts, 1
  {
    IsRepeated(stmts, d) || SeqReports(funs, outer + Defined(stmts), vars, stmts, d)
  }

  ghost predicate CasesReport(funs: Shapes, inner: Shapes, vars: Vars, cases: seq<YulCase>, d: Diag)
    decreases cases, 0
  {
    cases != []
    && (|| BlockReports(funs, inner, vars, cases[0].body, d)
        || CasesReport(funs, inner, With(vars, AllNames(cases[0].body, Leaking)), cases[1..], d))
  }

  // ----- expressions -----

  lemma SeenExactly(funs: Funs, asmFuns: Funs, name: Name)
    ensures IsKnown(ShapesOf(funs), ShapesOf(asmFuns), name) <==> LookupAsmFun(funs, asmFuns, name).1 == []
    ensures LookupAsmFun(funs, asmFuns, name).1 != [] ==>
      LookupAsmFun(funs, asmFuns, name) == (FunSig([], Unit), [UndefinedFunction(name)])
    ensures Seen(ShapesOf(funs), ShapesOf(asmFuns), name) == ShapeOf(LookupAsmFun(funs, asmFuns, name).0)
  {
    var (sig, d) := LookupAsmFun(funs, asmFuns, name);
    forall shape
      ensures Resolves(ShapesOf(funs), ShapesOf(asmFuns), name, shape) <==> d == [] && ShapeOf(sig) == shape
    {
      LookupExactly(funs, asmFuns, name, shape);
    }
    assert d == [] ==> Resolves(ShapesOf(funs), ShapesOf(asmFuns), name, ShapeOf(sig));
    LookupFails(funs, asmFuns, name);
  }

  lemma LookupFails(funs: Funs, asmFuns: Funs, name: Name)
    ensures var (sig, d) := LookupAsmFun(funs, asmFuns, name);
      d == [] || (sig == FunSig([], Unit) && d == [UndefinedFunction(name)])
  {
  }

  /** Builtins and assembly functions return plain words side by side. */
  lemma ReturnsAreWords(funs: Funs, asmFuns: Funs, name: Name)
    ensures var sig := LookupAsmFun(funs, asmFuns, name).0; sig.ret == NReturns(ShapeOf(sig).gives)
  {
    BuiltinGives(name);
    if name in asmFuns { NReturnsCount(ReturnCount(asmFuns[name].ret)); }
    if name in funs { NReturnsCount(ReturnCount(funs[name].ret)); }
    if |name| >= 4 && name[4..] in funs { NReturnsCount(ReturnCount(funs[name[4..]].ret)); }
  }

  lemma TakenExactly(funs: Funs, asmFuns: Funs, vars: Vars, e: YulExpr)
    ensures Taken(ShapesOf(funs), ShapesOf(asmFuns), vars, e) == CheckAsmExpr(funs, asmFuns, vars, e).0
  {
    if e.YulCall? {
      SeenExactly(funs, asmFuns, e.callee);
      ReturnsAreWords(funs, asmFuns, e.callee);
    }
  }

  lemma {:induction false} ExprReported(funs: Funs, asmFuns: Funs, vars: Vars, e: YulExpr, d: Diag)
    ensures d in CheckAsmExpr(funs, asmFuns, vars, e).1 <==>
      ExprReports(ShapesOf(funs), ShapesOf(asmFuns), vars, e, d)
    decreases e, 0
  {
    if e.YulCall? {
      SeenExactly(funs, asmFuns, e.callee);
      ArgsReported(funs, asmFuns, vars, e.args, d);
    }
  }

  lemma {:induction false} WordReported(funs: Funs, asmFuns: Funs, vars: Vars, e: YulExpr, d: Diag)
    ensures d in CheckAsmArg(funs, asmFuns, vars, e) <==>
      WordReports(ShapesOf(funs), ShapesOf(asmFuns), vars, e, d)
    decreases e, 1
  {
    ExprReported(funs, asmFuns, vars, e, d);
    TakenExactly(funs, asmFuns, vars, e);
  }

  lemma {:induction false} ArgsReported(funs: Funs, asmFuns: Funs, vars: Vars, args: seq<YulExpr>, d: Diag)
    ensures d in CheckAsmArgs(funs, asmFuns, vars, args) <==>
      SomeArgReports(ShapesOf(funs), ShapesOf(asmFuns), vars, args, d)
    decreases args, 1
  {
    if args != [] {
      WordReported(funs, asmFuns, vars, args[0], d);
      ArgsReported(funs, asmFuns, vars, args[1..], d);
    }
  }

  // ----- functions of a block -----

  lemma OneMore(scope: Funs, x: Name, sig: FunSig, later: Shapes)
    ensures ShapesOf(scope[x := sig]) + later == ShapesOf(scope) + (map[x := ShapeOf(sig)] + later)
  {
    assert ShapesOf(scope[x := sig]) == ShapesOf(scope) + map[x := ShapeOf(sig)];
  }

  lemma NoMore(scope: Shapes, later: Shapes)
    ensures scope + (map[] + later) == scope + later
  {
  }

  lemma {:induction false} DefinedExactly(scope: Funs, stmts: seq<YulStmt>)
    ensures ShapesOf(Predeclare(scope, stmts).0) == ShapesOf(scope) + Defined(stmts)
    decreases stmts
  {
    if stmts == [] {
      NoMore(ShapesOf(scope), map[]);
    } else if stmts[0].YulFunctionDef? {
      var sig := FunSig(Words(|stmts[0].params|), NReturns(|stmts[0].rets|));
      DefinitionShape(stmts[0]);
      DefinedExactly(scope[stmts[0].name := sig], stmts[1..]);
      OneMore(scope, stmts[0].name, sig, Defined(stmts[1..]));
    } else {
      DefinedExactly(scope, stmts[1..]);
      NoMore(ShapesOf(scope), Defined(stmts[1..]));
    }
  }

  /** Some later definition has the name. */
  lemma RepeatedCons(stmts: seq<YulStmt>, d: Diag)
    requires stmts != []
    ensures IsRepeated(stmts, d) <==>
      || IsRepeated(stmts[1..], d)
      || (stmts[0].YulFunctionDef? && DefinedIn(stmts[1..], stmts[0].name) && d == DuplicateFunction(stmts[0].name))
  {
    var rest := stmts[1..];
    if IsRepeated(stmts, d) {
      var i, j :| 0 <= i < j < |stmts| && stmts[i].YulFunctionDef? && stmts[j].YulFunctionDef?
        && stmts[i].name == stmts[j].name && d == DuplicateFunction(stmts[j].name);
      assert rest[j - 1] == stmts[j];
      if i > 0 { assert rest[i - 1] == stmts[i]; }
    }
    if IsRepeated(rest, d) {
      var i, j :| 0 <= i < j < |rest| && rest[i].YulFunctionDef? && rest[j].YulFunctionDef?
        && rest[i].name == rest[j].name && d == DuplicateFunction(rest[j].name);
      assert stmts[i + 1] == rest[i] && stmts[j + 1] == rest[j];
    }
    if stmts[0].YulFunctionDef? && DefinedIn(rest, stmts[0].name) {
      var j :| 0 <= j < |rest| && rest[j].YulFunctionDef? && rest[j].name == stmts[0].name;
      assert stmts[j + 1] == rest[j];
    }
  }

  /** Besides the names defined twice, those that the scope holds already are reported. */
  lemma {:induction false} RepeatedExactly(scope: Funs, stmts: seq<YulStmt>, d: Diag)
    ensures d in Predeclare(scope, stmts).1 <==>
      || IsRepeated(stmts, d)
      || (d.DuplicateFunction? && d.name in scope && DefinedIn(stmts, d.name))
    decreases stmts
  {
    if stmts != [] {
      RepeatedCons(stmts, d);
      if d.DuplicateFunction? { DefinedInCons(stmts, d.name); }
      if stmts[0].YulFunctionDef? {
        var sig := FunSig(Words(|stmts[0].params|), NReturns(|stmts[0].rets|));
        RepeatedExactly(scope[stmts[0].name := sig], stmts[1..], d);
      } else {
        RepeatedExactly(scope, stmts[1..], d);
      }
    }
  }

  lemma RepeatedReported(stmts: seq<YulStmt>, d: Diag)
    ensures d in Predeclare(map[], stmts).1 <==> IsRepeated(stmts, d)
  {
    RepeatedExactly(map[], stmts, d);
  }

  lemma ScopeOfBlock(asmFuns: Funs, stmts: seq<YulStmt>)
    ensures ShapesOf(asmFuns + Predeclare(map[], stmts).0) == ShapesOf(asmFuns) + Defined(stmts)
  {
    var scope := Predeclare(map[], stmts).0;
    DefinedExactly(map[], stmts);
    assert ShapesOf(map[]) == map[];
    NoMore(map[], Defined(stmts));
    ShapesOfBoth(asmFuns, scope);
  }

  // ----- statements -----

  lemma {:induction false} TargetsReported(vars: Vars, names: seq<Name>, d: Diag)
    ensures d in CheckAsmTargets(vars, names) <==> TargetsReport(vars, names, d)
    decreases names
  {
    if names != [] {
      TargetsReported(vars, names[1..], d);
      assert names == [names[0]] + names[1..];
    }
  }

  lemma CountReported(funs: Funs, asmFuns: Funs, vars: Vars, names: seq<Name>, e: YulExpr, d: Diag)
    ensures var (t, ds) := CheckAsmExpr(funs, asmFuns, vars, e);
      d in ds + ExpectCount(|names|, ReturnCount(t)) <==>
      CountReports(ShapesOf(funs), ShapesOf(asmFuns), vars, names, e, d)
  {
    ExprReported(funs, asmFuns, vars, e, d);
    TakenExactly(funs, asmFuns, vars, e);
  }

  lemma {:induction false} SeqReported(funs: Funs, asmFuns: Funs, vars: Vars, stmts: seq<YulStmt>, d: Diag)
    ensures d in CheckAsmSeq(funs, asmFuns, vars, stmts).1 <==>
      SeqReports(ShapesOf(funs), ShapesOf(asmFuns), vars, stmts, d)
    decreases stmts, 0
  {
    if stmts != [] {
      StmtReported(funs, asmFuns, vars, stmts[0], d);
      VarsAfterStmt(funs, asmFuns, vars, stmts[0]);
      SeqReported(funs, asmFuns, With(vars, Names(stmts[0], Leaking)), stmts[1..], d);
    }
  }

  /** A diagnostic is reported of a block exactly when the rules have a place for it. */
  lemma {:induction false} BlockReported(funs: Funs, asmFuns: Funs, vars: Vars, stmts: seq<YulStmt>, d: Diag)
    ensures d in CheckAsmBlock(funs, asmFuns, vars, stmts).1 <==>
      BlockReports(ShapesOf(funs), ShapesOf(asmFuns), vars, stmts, d)
    decreases stmts, 1
  {
    RepeatedReported(stmts, d);
    ScopeOfBlock(asmFuns, stmts);
    SeqReported(funs, asmFuns + Predeclare(map[], stmts).0, vars, stmts, d);
  }

  lemma {:induction false} CasesReported(funs: Funs, asmFuns: Funs, vars: Vars, cases: seq<YulCase>, d: Diag)
    ensures d in CheckAsmCases(funs, asmFuns, vars, cases).1 <==>
      CasesReport(ShapesOf(funs), ShapesOf(asmFuns), vars, cases, d)
    decreases cases, 0
  {
    if cases != [] {
      BlockReported(funs, asmFuns, vars, cases[0].body, d);
      VarsAfterBlock(funs, asmFuns, vars, cases[0].body);
      CasesReported(funs, asmFuns, With(vars, AllNames(cases[0].body, Leaking)), cases[1..], d);
    }
  }

  lemma {:induction false} LoopReported(funs: Funs, asmFuns: Funs, vars: Vars, s: YulStmt, d: Diag)
    requires s.YulFor?
    ensures d in CheckAsmStmt(funs, asmFuns, vars, s).1 <==>
      StmtReports(ShapesOf(funs), ShapesOf(asmFuns), vars, s, d)
    decreases s, 0
  {
    var inner, vars1 := asmFuns + Predeclare(map[], s.init).0, With(vars, AllNames(s.init, Leaking));
    RepeatedReported(s.init, d);
    ScopeOfBlock(asmFuns, s.init);
    SeqReported(funs, inner, vars, s.init, d);
    VarsAfterSeq(funs, inner, vars, s.init);
    WordReported(funs, inner, vars1, s.cond, d);
    BlockReported(funs, inner, vars1, s.post, d);
    BlockReported(funs, inner, vars1, s.body, d);
  }

  lemma {:induction false} SwitchReported(funs: Funs, asmFuns: Funs, vars: Vars, s: YulStmt, d: Diag)
    requires s.YulSwitch?
    ensures d in CheckAsmStmt(funs, asmFuns, vars, s).1 <==>
      StmtReports(ShapesOf(funs), ShapesOf(asmFuns), vars, s, d)
    decreases s, 0
  {
    WordReported(funs, asmFuns, vars, s.e, d);
    CasesReported(funs, asmFuns, vars, s.cases, d);
    VarsAfterCases(funs, asmFuns, vars, s.cases);
    if s.hasDefault {
      BlockReported(funs, asmFuns, With(vars, CaseNames(s.cases, Leaking)), s.default, d);
    }
  }

  lemma {:induction false} DefinitionReported(funs: Funs, asmFuns: Funs, vars: Vars, s: YulStmt, d: Diag)
    requires s.YulFunctionDef?
    ensures d in CheckAsmStmt(funs, asmFuns, vars, s).1 <==>
      StmtReports(ShapesOf(funs), ShapesOf(asmFuns), vars, s, d)
    decreases s, 0
  {
    var ps, rs := set x | x in s.params, set x | x in s.rets;
    DeclareWordsAre(map[], s.params);
    DeclareWordsAre(With(map[], ps), s.rets);
    WithTwice(map[], ps, rs);
    BlockReported(funs, asmFuns, With(map[], ps + rs), s.body, d);
  }

  lemma SimpleReported(funs: Funs, asmFuns: Funs, vars: Vars, s: YulStmt, d: Diag)
    requires s.YulLet? || s.YulAssign? || s.YulExprStmt?
    ensures d in CheckAsmStmt(funs, asmFuns, vars, s).1 <==>
      StmtReports(ShapesOf(funs), ShapesOf(asmFuns), vars, s, d)
  {
    match s
    case YulLet(names, initial) =>
      if initial.Some? { CountReported(funs, asmFuns, vars, names, initial.value, d); }
    case YulAssign(names, value) =>
      TargetsReported(vars, names, d);
      CountReported(funs, asmFuns, vars, names, value, d);
    case YulExprStmt(e) =>
      ExprReported(funs, asmFuns, vars, e, d);
      TakenExactly(funs, asmFuns, vars, e);
  }

  /** A diagnostic is reported of a statement exactly when the rules have a place for it. */
  lemma {:induction false} StmtReported(funs: Funs, asmFuns: Funs, vars: Vars, s: YulStmt, d: Diag)
    ensures d in CheckAsmStmt(funs, asmFuns, vars, s).1 <==>
      StmtReports(ShapesOf(funs), ShapesOf(asmFuns), vars, s, d)
    decreases s, 1
  {
    match s
    case YulBlock(body) => BlockReported(funs, asmFuns, vars, body, d);
    case YulIf(cond, body) =>
      WordReported(funs, asmFuns, vars, cond, d);
      BlockReported(funs, asmFuns, vars, body, d);
    case YulFor(_, _, _, _) => LoopReported(funs, asmFuns, vars, s, d);
    case YulSwitch(_, _, _, _) => SwitchReported(funs, asmFuns, vars, s, d);
    case YulFunctionDef(_, _, _, _) => DefinitionReported(funs, asmFuns, vars, s, d);
    case YulLet(_, _) => SimpleReported(funs, asmFuns, vars, s, d);
    case YulAssign(_, _) => SimpleReported(funs, asmFuns, vars, s, d);
    case YulExprStmt(_) => SimpleReported(funs, asmFuns, vars, s, d);
    case _ =>
  }
}
