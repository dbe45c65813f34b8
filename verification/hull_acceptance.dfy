/** The checker accepts exactly the programs that the rules allow. */
module HullAcceptance {
  import opened Wrappers
  import opened HullIr
  import opened HullTyping
  import opened HullBuiltins
  import opened HullAsmTyping
  import opened HullAsmJudgement
  import opened HullJudgement

  // ----- types -----

  lemma {:induction false} IsStripped(t: Ty, s: Ty)
    requires !s.Named?
    ensures Is(t, s) <==> StripNamed(t) == s
    decreases t
  {
    if t.Named? { IsStripped(t.inner, s); }
  }

  lemma {:induction false} AlikeStripped(a: Ty, b: Ty)
    ensures Alike(a, b) <==> Alike(StripNamed(a), StripNamed(b))
    decreases a, b
  {
    if a.Named? {
      AlikeStripped(a.inner, b);
    } else if b.Named? {
      AlikeStripped(a, b.inner);
    }
  }

  /** `type_eq` is the relation of the rules. */
  lemma {:induction false} SameExactly(a: Ty, b: Ty)
    ensures TypeEq(a, b) <==> Same(a, b)
    decreases a
  {
    AlikeStripped(a, b);
    var x, y := StripNamed(a), StripNamed(b);
    match (x, y)
    case (Product(al, ar), Product(bl, br)) =>
      SameExactly(al, bl);
      SameExactly(ar, br);
    case (Sum(al, ar), Sum(bl, br)) =>
      SameExactly(al, bl);
      SameExactly(ar, br);
    case (Function(ap, ar), Function(bp, br)) =>
      SameAllExactly(ap, bp);
      SameExactly(ar, br);
    case _ =>
  }

  lemma {:induction false} SameAllExactly(a: seq<Ty>, b: seq<Ty>)
    ensures TypesEq(a, b) <==> |a| == |b| && forall i :: 0 <= i < |a| ==> Same(a[i], b[i])
    decreases a
  {
    if a != [] && |a| == |b| {
      SameExactly(a[0], b[0]);
      SameAllExactly(a[1..], b[1..]);
      forall i | 0 < i < |a| ensures a[i] == a[1..][i - 1] && b[i] == b[1..][i - 1] { }
    }
  }

  lemma BoolLikeExactly(t: Ty)
    ensures IsBoolLike(t) <==> BoolLike(t)
  {
    IsStripped(t, Bool);
    var s := StripNamed(t);
    if s.Sum? {
      IsStripped(t, s);
      IsStripped(s.lhs, Unit);
      IsStripped(s.rhs, Unit);
    }
    forall l, r | Is(t, Sum(l, r)) && Is(l, Unit) && Is(r, Unit)
      ensures IsBoolLike(t)
    {
      IsStripped(t, Sum(l, r));
      IsStripped(l, Unit);
      IsStripped(r, Unit);
    }
  }

  lemma {:induction false} SummandsStripped(t: Ty)
    ensures Summands(t) == Summands(StripNamed(t))
    decreases t
  {
    if t.Named? { SummandsStripped(t.inner); }
  }

  /** `nth_sum_payload` is the summand of that number. */
  lemma {:induction false} SummandsExactly(t: Ty, k: nat)
    ensures NthSumPayload(t, k) == if k < |Summands(t)| then Some(Summands(t)[k]) else None
    decreases t
  {
    SummandsStripped(t);
    var s := StripNamed(t);
    if s.Sum? && k > 0 {
      SummandsExactly(s.rhs, k - 1);
    }
  }

  lemma SumMeans(t: Ty, l: Ty, r: Ty)
    ensures Is(t, Sum(l, r)) <==> StripNamed(t) == Sum(l, r)
  {
    IsStripped(t, Sum(l, r));
  }

  lemma BindsExactly(target: Ty, pat: Pat, p: Ty)
    ensures Binds(target, pat, p) <==> PayloadType(target, pat) == Some(p)
  {
    forall l, r ensures Is(target, Sum(l, r)) <==> StripNamed(target) == Sum(l, r) { SumMeans(target, l, r); }
    IsStripped(target, Word);
    if pat.InKPat? { SummandsExactly(target, pat.index); }
    if StripNamed(target).Sum? {
      var s := StripNamed(target);
      assert Is(target, Sum(s.lhs, s.rhs));
    }
  }

  lemma {:induction false} FirstOrderExactly(t: Ty)
    ensures FirstOrder(t) <==> !ContainsFunction(t)
    decreases t
  {
    match t
    case Product(l, r) => FirstOrderExactly(l); FirstOrderExactly(r);
    case Sum(l, r) => FirstOrderExactly(l); FirstOrderExactly(r);
    case Named(_, inner) => FirstOrderExactly(inner);
    case _ =>
  }

  lemma {:induction false} EmptyExactly(t: Ty)
    ensures Empty(t) <==> !RequiresTerminator(t)
    decreases t
  {
    match t
    case Product(l, r) => EmptyExactly(l); EmptyExactly(r);
    case Named(_, inner) => EmptyExactly(inner);
    case _ =>
  }

  // ----- expressions -----

  lemma Nothing(a: seq<Diag>, b: seq<Diag>)
    ensures a + b == [] <==> a == [] && b == []
  {
  }

  lemma Annotated(funs: Funs, vars: Vars, e: Expr, t: Ty)
    ensures CheckExpr(funs, vars, e) == (t, []) <==> InferExpr(funs, vars, e) == (t, []) && TypeEq(e.ty, t)
  {
    var (u, d) := InferExpr(funs, vars, e);
    Nothing(d, if TypeEq(e.ty, u) then [] else [ExprAnnotationMismatch(e.ty, u)]);
  }

  /** An expression has a type by the rules exactly when the checker infers it and reports nothing. */
  lemma {:induction false} TypedExactly(funs: Funs, vars: Vars, e: Expr, t: Ty)
    ensures Typed(funs, vars, e, t) <==> CheckExpr(funs, vars, e) == (t, [])
    decreases e, 2
  {
    SameExactly(e.ty, t);
    Annotated(funs, vars, e, t);
    match e.kind
    case Pair(_, _) => PairExactly(funs, vars, e, t);
    case Fst(_) => ProjectionExactly(funs, vars, e, t);
    case Snd(_) => ProjectionExactly(funs, vars, e, t);
    case Inl(_, _) => SideExactly(funs, vars, e, t);
    case Inr(_, _) => SideExactly(funs, vars, e, t);
    case InK(_, _, _) => IndexedExactly(funs, vars, e, t);
    case Call(_, _) => CallExactly(funs, vars, e, t);
    case If(_, _, _, _) => IfExactly(funs, vars, e, t);
    case _ =>
  }

  lemma {:induction false} FitsExactly(funs: Funs, vars: Vars, e: Expr, expected: Ty)
    ensures Fits(funs, vars, e, expected) <==>
      CheckExpr(funs, vars, e).1 == [] && TypeEq(expected, CheckExpr(funs, vars, e).0)
    decreases e, 3
  {
    var (t, d) := CheckExpr(funs, vars, e);
    TypedExactly(funs, vars, e, t);
    SameExactly(expected, t);
    forall u | Typed(funs, vars, e, u)
      ensures u == t && d == []
    {
      TypedExactly(funs, vars, e, u);
    }
  }

  /** Some type, with a property that the checked type decides. */
  lemma {:induction false} SomeTyped(funs: Funs, vars: Vars, e: Expr)
    ensures (exists t :: Typed(funs, vars, e, t)) <==> CheckExpr(funs, vars, e).1 == []
    ensures forall t :: Typed(funs, vars, e, t) ==> CheckExpr(funs, vars, e) == (t, [])
    ensures CheckExpr(funs, vars, e).1 == [] ==> Typed(funs, vars, e, CheckExpr(funs, vars, e).0)
    decreases e, 3
  {
    var (t, d) := CheckExpr(funs, vars, e);
    TypedExactly(funs, vars, e, t);
    forall u | Typed(funs, vars, e, u)
      ensures u == t && d == []
    {
      TypedExactly(funs, vars, e, u);
    }
  }

  lemma {:induction false} PairExactly(funs: Funs, vars: Vars, e: Expr, t: Ty)
    requires e.kind.Pair?
    ensures Rule(funs, vars, e, t) <==> InferExpr(funs, vars, e) == (t, [])
    decreases e, 0
  {
    if t.Product? {
      TypedExactly(funs, vars, e.kind.e1, t.lhs);
      TypedExactly(funs, vars, e.kind.e2, t.rhs);
    }
    Nothing(CheckExpr(funs, vars, e.kind.e1).1, CheckExpr(funs, vars, e.kind.e2).1);
  }

  lemma ProductMeans(p: Ty, l: Ty, r: Ty)
    ensures Is(p, Product(l, r)) <==> StripNamed(p) == Product(l, r)
  {
    IsStripped(p, Product(l, r));
  }

  lemma {:induction false} PairOfExactly(funs: Funs, vars: Vars, e: Expr, t: Ty, left: bool)
    ensures IsPairOf(funs, vars, e, t, left) <==>
      var (p, d) := CheckExpr(funs, vars, e);
      d == [] && StripNamed(p).Product? && t == if left then StripNamed(p).lhs else StripNamed(p).rhs
    decreases e, 4
  {
    SomeTyped(funs, vars, e);
    var p := CheckExpr(funs, vars, e).0;
    forall l, r ensures Is(p, Product(l, r)) <==> StripNamed(p) == Product(l, r) { ProductMeans(p, l, r); }
    if StripNamed(p).Product? { assert Is(p, Product(StripNamed(p).lhs, StripNamed(p).rhs)); }
  }

  lemma {:induction false} ProjectionExactly(funs: Funs, vars: Vars, e: Expr, t: Ty)
    requires e.kind.Fst? || e.kind.Snd?
    ensures Rule(funs, vars, e, t) <==> InferExpr(funs, vars, e) == (t, [])
    decreases e, 0
  {
    var (p, d) := CheckExpr(funs, vars, e.kind.e);
    Nothing(d, [ExpectedProduct(p)]);
    PairOfExactly(funs, vars, e.kind.e, t, e.kind.Fst?);
  }

  lemma {:induction false} SideFits(funs: Funs, vars: Vars, e: Expr, target: Ty, left: bool)
    ensures FitsSide(funs, vars, e, target, left) <==>
      var s := StripNamed(target);
      s.Sum? && Fits(funs, vars, e, if left then s.lhs else s.rhs)
  {
    forall l, r ensures Is(target, Sum(l, r)) <==> StripNamed(target) == Sum(l, r) { SumMeans(target, l, r); }
    var s := StripNamed(target);
    if s.Sum? { assert Is(target, Sum(s.lhs, s.rhs)); }
  }

  lemma {:induction false} ValueExactly(funs: Funs, vars: Vars, e: Expr, wanted: Ty)
    ensures var (t, d) := CheckExpr(funs, vars, e); d + Expect(wanted, t) == [] <==> Fits(funs, vars, e, wanted)
    decreases e, 4
  {
    var (t, d) := CheckExpr(funs, vars, e);
    FitsExactly(funs, vars, e, wanted);
    Nothing(d, Expect(wanted, t));
  }

  lemma {:induction false} SideExactly(funs: Funs, vars: Vars, e: Expr, t: Ty)
    requires e.kind.Inl? || e.kind.Inr?
    ensures Rule(funs, vars, e, t) <==> InferExpr(funs, vars, e) == (t, [])
    decreases e, 0
  {
    var s := StripNamed(e.kind.target);
    SideFits(funs, vars, e.kind.e, e.kind.target, e.kind.Inl?);
    if s.Sum? { ValueExactly(funs, vars, e.kind.e, if e.kind.Inl? then s.lhs else s.rhs); }
  }

  lemma {:induction false} IndexedExactly(funs: Funs, vars: Vars, e: Expr, t: Ty)
    requires e.kind.InK?
    ensures Rule(funs, vars, e, t) <==> InferExpr(funs, vars, e) == (t, [])
    decreases e, 0
  {
    SummandsExactly(e.kind.target, e.kind.index);
    if e.kind.index < |Summands(e.kind.target)| {
      ValueExactly(funs, vars, e.kind.e, Summands(e.kind.target)[e.kind.index]);
    }
  }

  lemma {:induction false} CallExactly(funs: Funs, vars: Vars, e: Expr, t: Ty)
    requires e.kind.Call?
    ensures Rule(funs, vars, e, t) <==> InferExpr(funs, vars, e) == (t, [])
    decreases e, 0
  {
    if e.kind.callee in funs && |funs[e.kind.callee].args| == |e.kind.args| {
      ArgsExactly(funs, vars, funs[e.kind.callee].args, e.kind.args);
    }
  }

  lemma {:induction false} ArgsExactly(funs: Funs, vars: Vars, expected: seq<Ty>, args: seq<Expr>)
    requires |expected| == |args|
    ensures CheckArgs(funs, vars, expected, args) == [] <==>
      forall i :: 0 <= i < |args| ==> Fits(funs, vars, args[i], expected[i])
    decreases args, 1
  {
    if args != [] {
      FitsExactly(funs, vars, args[0], expected[0]);
      ArgsExactly(funs, vars, expected[1..], args[1..]);
      forall i | 0 < i < |args| ensures args[i] == args[1..][i - 1] && expected[i] == expected[1..][i - 1] { }
    }
  }

  lemma {:induction false} IfExactly(funs: Funs, vars: Vars, e: Expr, t: Ty)
    requires e.kind.If?
    ensures Rule(funs, vars, e, t) <==> InferExpr(funs, vars, e) == (t, [])
    decreases e, 0
  {
    var k := e.kind;
    CondExactly(funs, vars, k.cond);
    FitsExactly(funs, vars, k.thn, k.target);
    FitsExactly(funs, vars, k.els, k.target);
  }

  lemma {:induction false} CondExactly(funs: Funs, vars: Vars, e: Expr)
    ensures IsCondition(funs, vars, e) <==>
      CheckExpr(funs, vars, e).1 == [] && IsBoolLike(CheckExpr(funs, vars, e).0)
    decreases e, 4
  {
    SomeTyped(funs, vars, e);
    BoolLikeExactly(CheckExpr(funs, vars, e).0);
  }

  // ----- where a body ends -----

  lemma {:induction false} EndsYulExactly(s: YulStmt, db: bool)
    ensures AsmStmtTerminates(s, db) <==> db && EndsYul(s)
    decreases s
  {
    match s
    case YulBlock(body) => EndsAsmExactly(body, db);
    case YulSwitch(_, cases, _, default) =>
      EndsAsmExactly(default, db);
      forall c | c in cases ensures AsmBlockTerminates(c.body, db) <==> db && EndsAsm(c.body) {
        EndsAsmExactly(c.body, db);
      }
      assert cases != [] ==> cases[0] in cases;
    case _ =>
  }

  lemma {:induction false} EndsAsmExactly(stmts: seq<YulStmt>, db: bool)
    ensures AsmBlockTerminates(stmts, db) <==> db && EndsAsm(stmts)
    decreases stmts
  {
    if stmts != [] {
      EndsYulExactly(stmts[|stmts| - 1], db);
    }
  }

  /** `body_terminates` is the rule. */
  lemma {:induction false} EndsBodyExactly(body: seq<Stmt>, db: bool)
    ensures BodyTerminates(body, db) <==> EndsBody(body, db)
    decreases body
  {
    if body != [] {
      EndsExactly(body[|body| - 1], db);
    }
  }

  lemma {:induction false} EndsExactly(s: Stmt, db: bool)
    ensures StmtTerminates(s, db) <==> Ends(s, db)
    decreases s
  {
    match s
    case Block(body) => EndsBodyExactly(body, db);
    case Match(_, _, alts) =>
      forall alt | alt in alts ensures BodyTerminates(alt.body, db) <==> EndsBody(alt.body, db) {
        EndsBodyExactly(alt.body, db);
      }
      forall i | 0 <= i < |alts| ensures alts[i] in alts { }
    case Assembly(asm) => EndsAsmExactly(asm, db);
    case _ =>
  }

  /** Whatever comes before it, the last statement decides. */
  lemma LastStatementDecides(front: seq<Stmt>, s: Stmt, db: bool)
    ensures BodyTerminates(front + [s], db) <==> Ends(s, db)
    ensures !BodyTerminates([], db)
  {
    EndsExactly(s, db);
    assert (front + [s])[|front|] == s;
  }

  // ----- statements -----

  lemma {:induction false} DeclaredCons(stmts: seq<Stmt>)
    requires stmts != []
    ensures Declared(stmts) == Declare(map[], stmts[0]) + Declared(stmts[1..])
    decreases |stmts|
  {
    var n := |stmts| - 1;
    if n > 0 {
      DeclaredCons(stmts[..n]);
      assert stmts[..n][1..] == stmts[1..][..n - 1] && stmts[1..][n - 1] == stmts[n];
      Regroup(Declare(map[], stmts[0]), Declared(stmts[1..][..n - 1]), Declare(map[], stmts[n]));
    } else {
      assert stmts[..0] == [] && stmts[1..] == [];
    }
  }

  lemma Regroup(a: Vars, b: Vars, c: Vars)
    ensures a + (b + c) == (a + b) + c
  {
  }

  lemma DeclareIs(vars: Vars, s: Stmt)
    ensures Declare(vars, s) == vars + Declare(map[], s)
  {
  }

  lemma {:induction false} DeclaredExactly(vars: Vars, stmts: seq<Stmt>)
    ensures DeclareAll(vars, stmts) == vars + Declared(stmts)
    decreases stmts
  {
    if stmts != [] {
      DeclareIs(vars, stmts[0]);
      DeclaredExactly(Declare(vars, stmts[0]), stmts[1..]);
      DeclaredCons(stmts);
      Regroup(vars, Declare(map[], stmts[0]), Declared(stmts[1..]));
    }
  }

  lemma FirstDeclared(vars: Vars, stmts: seq<Stmt>, i: nat)
    requires i < |stmts|
    ensures vars + Declared(stmts[..i + 1]) == Declare(vars, stmts[0]) + Declared(stmts[1..][..i])
  {
    DeclaredCons(stmts[..i + 1]);
    assert stmts[..i + 1][0] == stmts[0] && stmts[..i + 1][1..] == stmts[1..][..i];
    DeclareIs(vars, stmts[0]);
    Regroup(vars, Declare(map[], stmts[0]), Declared(stmts[1..][..i]));
  }

  lemma AllAllowedCons(k: Setting, vars: Vars, stmts: seq<Stmt>)
    requires stmts != []
    ensures AllAllowed(k, vars, stmts) <==>
      Allowed(k, vars, stmts[0]) && AllAllowed(k, Declare(vars, stmts[0]), stmts[1..])
  {
    var vars1 := Declare(vars, stmts[0]);
    assert stmts[..0] == [] && vars + Declared([]) == vars;
    forall i | 0 <= i < |stmts| - 1
      ensures vars + Declared(stmts[..i + 1]) == vars1 + Declared(stmts[1..][..i])
      ensures stmts[i + 1] == stmts[1..][i]
    {
      FirstDeclared(vars, stmts, i);
    }
    if AllAllowed(k, vars, stmts) {
      assert Allowed(k, vars + Declared(stmts[..0]), stmts[0]);
      forall i | 0 <= i < |stmts[1..]|
        ensures Allowed(k, vars1 + Declared(stmts[1..][..i]), stmts[1..][i])
      {
        assert Allowed(k, vars + Declared(stmts[..i + 1]), stmts[i + 1]);
      }
    }
    if Allowed(k, vars, stmts[0]) && AllAllowed(k, vars1, stmts[1..]) {
      forall i | 0 <= i < |stmts|
        ensures Allowed(k, vars + Declared(stmts[..i]), stmts[i])
      {
        if i > 0 { assert Allowed(k, vars1 + Declared(stmts[1..][..i - 1]), stmts[1..][i - 1]); }
      }
    }
  }

  /** What the checker knows of the setting. */
  function CtxOf(k: Setting): Ctx {
    Ctx(if k.db then Some(CheckAsm) else None, k.funs, k.ret)
  }

  /** A statement is accepted exactly when the rules allow it. */
  lemma {:induction false} AllowedExactly(k: Setting, vars: Vars, s: Stmt)
    ensures CheckStmt(CtxOf(k), vars, s) == [] <==> Allowed(k, vars, s)
    decreases s, 1
  {
    match s
    case Assign(_, _) => SimpleExactly(k, vars, s);
    case ExprStmt(_) => SimpleExactly(k, vars, s);
    case Return(_) => SimpleExactly(k, vars, s);
    case Block(body) => AllAllowedExactly(k, vars, body);
    case For(_, _, _, _) => ForExactly(k, vars, s);
    case Match(_, _, _) => MatchExactly(k, vars, s);
    case Assembly(_) => AssemblyExactly(k, vars, s);
    case _ =>
  }

  lemma SimpleExactly(k: Setting, vars: Vars, s: Stmt)
    requires s.Assign? || s.ExprStmt? || s.Return?
    ensures CheckStmt(CtxOf(k), vars, s) == [] <==> Allowed(k, vars, s)
  {
    match s
    case Assign(lhs, rhs) =>
      var (tl, dl) := CheckExpr(k.funs, vars, lhs);
      var (tr, dr) := CheckExpr(k.funs, vars, rhs);
      SomeTyped(k.funs, vars, lhs);
      FitsExactly(k.funs, vars, rhs, tl);
      Nothing(dl, dr);
      Nothing(dl + dr, Expect(tl, tr));
    case ExprStmt(e) => SomeTyped(k.funs, vars, e);
    case Return(e) =>
      var (t, d) := CheckExpr(k.funs, vars, e);
      if k.ret.Some? { FitsExactly(k.funs, vars, e, k.ret.value); }
      Nothing(d, match k.ret case Some(expected) => Expect(expected, t) case None => [ReturnOutsideFunction]);
  }

  lemma AssemblyExactly(k: Setting, vars: Vars, s: Stmt)
    requires s.Assembly?
    ensures CheckStmt(CtxOf(k), vars, s) == [] <==> Allowed(k, vars, s)
  {
    if k.db {
      BlockExactly(k.funs, map[], vars, s.asm);
      assert ShapesOf(map[]) == map[];
      assert CheckStmt(CtxOf(k), vars, s) == CheckAsm(k.funs, vars, s.asm);
    }
  }

  lemma ForParts(cx: Ctx, vars: Vars, s: Stmt, vars1: Vars, vars2: Vars)
    requires s.For? && vars1 == DeclareAll(vars, s.init) && vars2 == DeclareAll(vars1, s.post)
    ensures CheckStmt(cx, vars, s) == [] <==>
      && CheckBody(cx, vars, s.init) == []
      && CheckExpr(cx.funs, vars1, s.cond).1 == [] && IsBoolLike(CheckExpr(cx.funs, vars1, s.cond).0)
      && CheckBody(cx, vars1, s.post) == []
      && CheckBody(cx, vars2, s.body) == []
  {
    var (t, d) := CheckExpr(cx.funs, vars1, s.cond);
    NothingOfFive(CheckBody(cx, vars, s.init), d, ExpectBool(t), CheckBody(cx, vars1, s.post),
      CheckBody(cx, vars2, s.body));
  }

  lemma ForRule(k: Setting, vars: Vars, s: Stmt, vars1: Vars, vars2: Vars)
    requires s.For? && vars1 == vars + Declared(s.init) && vars2 == vars1 + Declared(s.post)
    ensures Allowed(k, vars, s) <==>
      && AllAllowed(k, vars, s.init)
      && IsCondition(k.funs, vars1, s.cond)
      && AllAllowed(k, vars1, s.post)
      && AllAllowed(k, vars2, s.body)
  {
  }

  lemma {:induction false} ForExactly(k: Setting, vars: Vars, s: Stmt)
    requires s.For?
    ensures CheckStmt(CtxOf(k), vars, s) == [] <==> Allowed(k, vars, s)
    decreases s, 0
  {
    var vars1 := vars + Declared(s.init);
    DeclaredExactly(vars, s.init);
    DeclaredExactly(vars1, s.post);
    var vars2 := vars1 + Declared(s.post);
    ForParts(CtxOf(k), vars, s, vars1, vars2);
    ForRule(k, vars, s, vars1, vars2);
    AllAllowedExactly(k, vars, s.init);
    CondExactly(k.funs, vars1, s.cond);
    AllAllowedExactly(k, vars1, s.post);
    AllAllowedExactly(k, vars2, s.body);
  }

  lemma NothingOfFive(a: seq<Diag>, b: seq<Diag>, c: seq<Diag>, d: seq<Diag>, e: seq<Diag>)
    ensures a + b + c + d + e == [] <==> a == [] && b == [] && c == [] && d == [] && e == []
  {
  }

  lemma {:induction false} MatchExactly(k: Setting, vars: Vars, s: Stmt)
    requires s.Match?
    ensures CheckStmt(CtxOf(k), vars, s) == [] <==> Allowed(k, vars, s)
    decreases s, 0
  {
    var (t, d) := CheckExpr(k.funs, vars, s.scrutinee);
    FitsExactly(k.funs, vars, s.scrutinee, s.target);
    ArmsExactly(k, vars, s.target, s.alts);
    Nothing(d, Expect(s.target, t));
    Nothing(d + Expect(s.target, t), CheckAlts(CtxOf(k), vars, s.target, s.alts));
  }

  lemma {:induction false} ArmsExactly(k: Setting, vars: Vars, target: Ty, alts: seq<Alt>)
    ensures CheckAlts(CtxOf(k), vars, target, alts) == [] <==>
      forall i :: 0 <= i < |alts| ==> ArmAllowed(k, vars, target, alts[i])
    decreases alts, 0
  {
    if alts != [] {
      ArmExactly(k, vars, target, alts[0]);
      ArmsExactly(k, vars, target, alts[1..]);
      Nothing(CheckAlt(CtxOf(k), vars, target, alts[0]), CheckAlts(CtxOf(k), vars, target, alts[1..]));
      forall i | 0 < i < |alts| ensures alts[i] == alts[1..][i - 1] { }
    }
  }

  lemma {:induction false} ArmExactly(k: Setting, vars: Vars, target: Ty, alt: Alt)
    ensures CheckAlt(CtxOf(k), vars, target, alt) == [] <==> ArmAllowed(k, vars, target, alt)
    decreases alt, 0
  {
    forall p ensures Binds(target, alt.pat, p) <==> PayloadType(target, alt.pat) == Some(p) {
      BindsExactly(target, alt.pat, p);
    }
    match PayloadType(target, alt.pat)
    case Some(p) => AllAllowedExactly(k, vars[alt.binder := p], alt.body);
    case None => Nothing([BadMatchPattern(alt.pat, target)], CheckBody(CtxOf(k), vars[alt.binder := Unit], alt.body));
  }

  lemma {:induction false} AllAllowedExactly(k: Setting, vars: Vars, stmts: seq<Stmt>)
    ensures CheckBody(CtxOf(k), vars, stmts) == [] <==> AllAllowed(k, vars, stmts)
    decreases stmts, 0
  {
    if stmts != [] {
      AllAllowedCons(k, vars, stmts);
      AllowedExactly(k, vars, stmts[0]);
      AllAllowedExactly(k, Declare(vars, stmts[0]), stmts[1..]);
      Nothing(CheckStmt(CtxOf(k), vars, stmts[0]), CheckBody(CtxOf(k), Declare(vars, stmts[0]), stmts[1..]));
    }
  }

  // ----- functions -----

  lemma {:induction false} FirstOrderArgsExactly(name: Name, args: seq<Arg>)
    ensures FirstOrderArgs(name, args) == [] <==> forall i :: 0 <= i < |args| ==> FirstOrder(args[i].ty)
    decreases args
  {
    if args != [] {
      FirstOrderExactly(args[0].ty);
      FirstOrderArgsExactly(name, args[1..]);
      forall i | 0 < i < |args| ensures args[i] == args[1..][i - 1] { }
    }
  }

  lemma {:induction false} BoundCons(args: seq<Arg>)
    requires args != []
    ensures Bound(args) == map[args[0].name := args[0].ty] + Bound(args[1..])
    decreases |args|
  {
    var n := |args| - 1;
    if n > 0 {
      BoundCons(args[..n]);
      assert args[..n][1..] == args[1..][..n - 1] && args[1..][n - 1] == args[n];
    } else {
      assert args[..0] == [] && args[1..] == [];
    }
  }

  lemma {:induction false} BoundExactly(vars: Vars, args: seq<Arg>)
    ensures BindArgs(vars, args) == vars + Bound(args)
    decreases args
  {
    if args != [] {
      BoundExactly(vars[args[0].name := args[0].ty], args[1..]);
      BoundCons(args);
      Regroup(vars, map[args[0].name := args[0].ty], Bound(args[1..]));
      assert vars[args[0].name := args[0].ty] == vars + map[args[0].name := args[0].ty];
    }
  }

  function AsmOfDb(db: bool): Option<AsmChecker> {
    if db then Some(CheckAsm) else None
  }

  lemma NothingOfFour(a: seq<Diag>, b: seq<Diag>, c: seq<Diag>, d: seq<Diag>)
    ensures a + b + c + d == [] <==> a == [] && b == [] && c == [] && d == []
  {
  }

  /** A function is accepted exactly when the rules allow it. */
  lemma FunctionExactly(db: bool, funs: Funs, f: FunctionDef)
    ensures CheckFunction(AsmOfDb(db), funs, map[], f) == [] <==> FunctionAllowed(db, funs, f)
  {
    FirstOrderArgsExactly(f.name, f.args);
    FirstOrderExactly(f.ret);
    BoundExactly(map[], f.args);
    assert map[] + Bound(f.args) == Bound(f.args);
    AllAllowedExactly(Setting(db, funs, Some(f.ret)), Bound(f.args), f.body);
    EmptyExactly(f.ret);
    EndsBodyExactly(f.body, db);
    NothingOfFour(FirstOrderArgs(f.name, f.args),
      if ContainsFunction(f.ret) then [FunctionTypeNotFirstOrder(f.name)] else [],
      CheckBody(Ctx(AsmOfDb(db), funs, Some(f.ret)), Bound(f.args), f.body),
      if RequiresTerminator(f.ret) && !BodyTerminates(f.body, db) then [MissingTerminator(f.name)] else []);
  }

  lemma {:induction false} FunctionsExactly(db: bool, funs: Funs, fs: seq<FunctionDef>)
    ensures CheckFunctions(AsmOfDb(db), funs, fs) == [] <==> FunctionsAllowed(db, funs, fs)
    decreases fs
  {
    if fs != [] {
      FunctionExactly(db, funs, fs[0]);
      FunctionsExactly(db, funs, fs[1..]);
      Nothing(CheckFunction(AsmOfDb(db), funs, map[], fs[0]), CheckFunctions(AsmOfDb(db), funs, fs[1..]));
      forall i | 0 < i < |fs| ensures fs[i] == fs[1..][i - 1] { }
      if FunctionsAllowed(db, funs, fs) {
        forall i | 0 <= i < |fs[1..]| ensures FunctionAllowed(db, funs, fs[1..][i]) {
          assert FunctionAllowed(db, funs, fs[i + 1]);
        }
      }
    }
  }

  // ----- registration -----

  lemma SignatureOf(f: FunctionDef, sig: FunSig)
    ensures Signature(f, sig) <==> sig == SigOf(f)
  {
  }

  ghost predicate NewNames(known: Funs, fs: seq<FunctionDef>) {
    && (forall i :: 0 <= i < |fs| ==> fs[i].name !in known)
    && (forall i, j :: 0 <= i < j < |fs| ==> fs[i].name != fs[j].name)
  }

  lemma NewNamesCons(known: Funs, fs: seq<FunctionDef>, sig: FunSig)
    requires fs != []
    ensures NewNames(known, fs) <==> fs[0].name !in known && NewNames(known[fs[0].name := sig], fs[1..])
  {
    if NewNames(known, fs) {
      forall i | 0 <= i < |fs[1..]| ensures fs[1..][i].name !in known[fs[0].name := sig] {
        assert fs[i + 1].name != fs[0].name;
      }
      forall i, j | 0 <= i < j < |fs[1..]| ensures fs[1..][i].name != fs[1..][j].name {
        assert fs[i + 1].name != fs[j + 1].name;
      }
    }
    if fs[0].name !in known && NewNames(known[fs[0].name := sig], fs[1..]) {
      forall i | 0 <= i < |fs| ensures fs[i].name !in known {
        if i > 0 { assert fs[1..][i - 1] == fs[i]; }
      }
      forall i, j | 0 <= i < j < |fs| ensures fs[i].name != fs[j].name {
        assert fs[1..][j - 1] == fs[j];
        if i > 0 { assert fs[1..][i - 1] == fs[i]; }
      }
    }
  }

  /** A registration without a report adds the functions. */
  lemma {:induction false} RegisterExactly(known: Funs, fs: seq<FunctionDef>)
    ensures Register(known, fs).1 == [] <==> NewNames(known, fs)
    ensures Register(known, fs).1 == [] ==> Adds(known, fs, Register(known, fs).0)
    decreases fs
  {
    if fs != [] {
      var next := known[fs[0].name := SigOf(fs[0])];
      NewNamesCons(known, fs, SigOf(fs[0]));
      RegisterExactly(next, fs[1..]);
      Nothing(if fs[0].name in known then [DuplicateFunction(fs[0].name)] else [], Register(next, fs[1..]).1);
      if Register(known, fs).1 == [] {
        AddsCons(known, fs, Register(next, fs[1..]).0);
      }
    }
  }

  lemma AddsCons(known: Funs, fs: seq<FunctionDef>, funs: Funs)
    requires fs != [] && NewNames(known, fs) && Adds(known[fs[0].name := SigOf(fs[0])], fs[1..], funs)
    ensures Adds(known, fs, funs)
  {
    var next := known[fs[0].name := SigOf(fs[0])];
    SignatureOf(fs[0], SigOf(fs[0]));
    assert fs[0].name in next && funs[fs[0].name] == next[fs[0].name];
    forall i | 0 <= i < |fs| ensures fs[i].name in funs && Signature(fs[i], funs[fs[i].name]) {
      if i > 0 { assert fs[1..][i - 1] == fs[i]; }
    }
    forall x | x in known ensures x in funs && funs[x] == known[x] {
      assert x in next;
    }
    forall x | x in funs && x !in known ensures exists i :: 0 <= i < |fs| && fs[i].name == x {
      if x in next {
        assert fs[0].name == x;
      } else {
        var i :| 0 <= i < |fs[1..]| && fs[1..][i].name == x;
        assert fs[i + 1].name == x;
      }
    }
  }

  lemma AddsEntry(known: Funs, fs: seq<FunctionDef>, a: Funs, b: Funs, x: Name)
    requires Adds(known, fs, a) && Adds(known, fs, b) && x in a
    ensures x in b && a[x] == b[x]
  {
    if x !in known {
      var i :| 0 <= i < |fs| && fs[i].name == x;
      SignatureOf(fs[i], a[x]);
      SignatureOf(fs[i], b[x]);
    }
  }

  lemma AddsOnce(known: Funs, fs: seq<FunctionDef>, a: Funs, b: Funs)
    requires Adds(known, fs, a) && Adds(known, fs, b)
    ensures a == b
  {
    forall x | x in a ensures x in b && a[x] == b[x] { AddsEntry(known, fs, a, b, x); }
    forall x | x in b ensures x in a { AddsEntry(known, fs, b, a, x); }
  }

  /** Besides the functions that registration finds there are none that `Adds` allows. */
  lemma RegistersWhatAdds(known: Funs, fs: seq<FunctionDef>)
    ensures (exists funs :: Adds(known, fs, funs)) <==> Register(known, fs).1 == []
    ensures forall funs :: Adds(known, fs, funs) ==> funs == Register(known, fs).0 && Register(known, fs).1 == []
  {
    RegisterExactly(known, fs);
    forall funs | Adds(known, fs, funs)
      ensures funs == Register(known, fs).0 && Register(known, fs).1 == []
    {
      assert NewNames(known, fs);
      AddsOnce(known, fs, funs, Register(known, fs).0);
    }
  }

  // ----- objects and programs -----

  lemma CodeExactly(db: bool, known: Funs, o: Object)
    ensures (exists funs :: Adds(known, o.functions, funs) && FunctionsAllowed(db, funs, o.functions)
               && AllAllowed(Setting(db, funs, None), map[], o.stmts)) <==>
      var (funs, d) := Register(known, o.functions);
      d == [] && CheckFunctions(AsmOfDb(db), funs, o.functions) == []
      && CheckBody(Ctx(AsmOfDb(db), funs, None), map[], o.stmts) == []
  {
    var funs := Register(known, o.functions).0;
    RegistersWhatAdds(known, o.functions);
    RegisterExactly(known, o.functions);
    FunctionsExactly(db, funs, o.functions);
    AllAllowedExactly(Setting(db, funs, None), map[], o.stmts);
  }

  /** An object is accepted exactly when the rules allow it. */
  lemma {:induction false} ObjectExactly(db: bool, known: Funs, o: Object)
    ensures CheckObject(AsmOfDb(db), known, o) == [] <==> ObjectAllowed(db, known, o)
    decreases o, 0
  {
    CodeExactly(db, known, o);
    ObjectsExactly(db, known, o.inners);
    var (funs, d) := Register(known, o.functions);
    NothingOfFour(d, CheckFunctions(AsmOfDb(db), funs, o.functions),
      CheckBody(Ctx(AsmOfDb(db), funs, None), map[], o.stmts), CheckObjects(AsmOfDb(db), known, o.inners));
  }

  lemma {:induction false} ObjectsExactly(db: bool, known: Funs, os: seq<Object>)
    ensures CheckObjects(AsmOfDb(db), known, os) == [] <==>
      forall i :: 0 <= i < |os| ==> ObjectAllowed(db, known, os[i])
    decreases os, 0
  {
    if os != [] {
      ObjectExactly(db, known, os[0]);
      ObjectsExactly(db, known, os[1..]);
      Nothing(CheckObject(AsmOfDb(db), known, os[0]), CheckObjects(AsmOfDb(db), known, os[1..]));
      forall i | 0 < i < |os| ensures os[i] == os[1..][i - 1] { }
    }
  }

  /** The same for a program, whatever the builtins. */
  lemma ProgramWithExactly(db: bool, known: Funs, p: Program)
    ensures CheckProgramWith(AsmOfDb(db), known, p) == [] <==> AllowedWith(db, known, p)
  {
    var (funs, d) := Register(known, p.functions);
    RegistersWhatAdds(known, p.functions);
    RegisterExactly(known, p.functions);
    FunctionsExactly(db, funs, p.functions);
    ObjectsExactly(db, funs, p.objects);
    Nothing(d, CheckFunctions(AsmOfDb(db), funs, p.functions));
    Nothing(d + CheckFunctions(AsmOfDb(db), funs, p.functions), CheckObjects(AsmOfDb(db), funs, p.objects));
  }

  /** A program is accepted, with or without a database, exactly when the rules allow it. */
  lemma ProgramExactly(db: bool, p: Program)
    ensures CheckProgram(db, p) == [] <==> ProgramAllowed(db, p)
  {
    ProgramWithExactly(db, BuiltinFuns(), p);
  }
}
