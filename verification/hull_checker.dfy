/** The Hull checker as crates/hull/src/check.rs runs it, in place on the fields of one `Env`. */
module HullChecker {
  // Each method is proved to append exactly the diagnostics that the functions of `HullTyping` and `HullAsmTyping` give
  // for the flattened scopes, and to leave the stacks as it found them.

  import opened Wrappers
  import opened ScopeStacks
  import opened HullIr
  import opened HullTyping
  import opened HullBuiltins
  import opened HullAsmTyping

  /** `nth_sum_payload`. */
  method NthSumPayloadLoop(target: Ty, index: nat) returns (r: Option<Ty>)
    ensures r == NthSumPayload(target, index)
  {
    var current := StripNamed(target);
    var remaining := index;
    while true
      invariant NthSumPayload(current, remaining) == NthSumPayload(target, index)
      decreases current
    {
      var s := StripNamed(current);
      if s.Sum? && remaining == 0 { return Some(s.lhs); }
      if s.Sum? {
        current := StripNamed(s.rhs);
        remaining := remaining - 1;
      } else if remaining == 0 {
        return Some(s);
      } else {
        return None;
      }
    }
  }

  lemma Append2(d: seq<Diag>, a: seq<Diag>, b: seq<Diag>)
    ensures d + a + b == d + (a + b)
  {
  }

  lemma Append3(d: seq<Diag>, a: seq<Diag>, b: seq<Diag>, c: seq<Diag>)
    ensures d + a + b + c == d + (a + b + c)
  {
  }

  lemma Append4(d: seq<Diag>, a: seq<Diag>, b: seq<Diag>, c: seq<Diag>, e: seq<Diag>)
    ensures d + a + b + c + e == d + (a + b + c + e)
  {
    Append2(d, a + b + c, e);
    Append3(d, a, b, c);
  }

  lemma Append5(d: seq<Diag>, a: seq<Diag>, b: seq<Diag>, c: seq<Diag>, e: seq<Diag>, f: seq<Diag>)
    ensures d + a + b + c + e + f == d + (a + b + c + e + f)
  {
    Append2(d, a + b + c + e, f);
    Append4(d, a, b, c, e);
  }

  lemma Append6(d: seq<Diag>, a: seq<Diag>, b: seq<Diag>, c: seq<Diag>, e: seq<Diag>, f: seq<Diag>, g: seq<Diag>)
    ensures d + a + b + c + e + f + g == d + (a + b + c + e + f + g)
  {
    Append2(d, a + b + c + e + f, g);
    Append5(d, a, b, c, e, f);
  }

  class Env {
    const db: bool
    var vars: ScopeStack<Vars>
    var funs: Funs
    var asmFuns: ScopeStack<Funs>
    var ret: Option<Ty>
    var diagnostics: seq<Diag>

    /** Both stacks always hold a scope, so `last_mut` and `pop` never panic. */
    ghost predicate Valid()
      reads this, vars, asmFuns
    {
      vars.scopes != [] && asmFuns.scopes != [] && (vars as object) != (asmFuns as object)
    }

    ghost function Scope(): Vars
      reads this, vars
    {
      Flatten(vars.scopes)
    }

    ghost function AsmScope(): Funs
      reads this, asmFuns
    {
      Flatten(asmFuns.scopes)
    }

    ghost function Context(): Ctx
      reads this
    {
      Ctx(if db then Some(CheckAsm) else None, funs, ret)
    }

    constructor (db: bool, prims: Funs)
      ensures Valid() && fresh(vars) && fresh(asmFuns)
      ensures this.db == db && funs == prims && ret == None && diagnostics == []
      ensures vars.scopes == [map[]] && asmFuns.scopes == [map[]]
    {
      this.db := db;
      vars := new ScopeStack(map[]);
      funs := prims;
      asmFuns := new ScopeStack(map[]);
      ret := None;
      diagnostics := [];
    }

    method Report(d: Diag)
      modifies this`diagnostics
      ensures diagnostics == old(diagnostics) + [d]
    {
      diagnostics := diagnostics + [d];
    }

    method InsertVar(name: Name, ty: Ty)
      requires vars.scopes != []
      modifies vars
      ensures vars.scopes == old(vars.scopes)[..|old(vars.scopes)| - 1]
        + [old(vars.scopes)[|old(vars.scopes)| - 1][name := ty]]
      ensures Flatten(vars.scopes) == Flatten(old(vars.scopes))[name := ty]
    {
      var last := vars.scopes[|vars.scopes| - 1];
      ghost var outer := vars.scopes[..|vars.scopes| - 1];
      vars.SetLast(last[name := ty]);
      FlattenPush(outer, last[name := ty]);
    }

    method ExpectType(expected: Ty, actual: Ty)
      modifies this`diagnostics
      ensures diagnostics == old(diagnostics) + Expect(expected, actual)
    {
      if !TypeEq(expected, actual) { Report(TypeMismatch(expected, actual)); }
    }

    method ExpectBoolLike(t: Ty)
      modifies this`diagnostics
      ensures diagnostics == old(diagnostics) + ExpectBool(t)
    {
      if !IsBoolLike(t) { Report(ExpectedBool(t)); }
    }

    /** The opening half of `with_scope`. */
    method OpenScope(scope: Vars)
      modifies vars
      ensures vars.scopes == old(vars.scopes) + [scope]
      ensures Scope() == old(Scope()) + scope
      ensures scope == map[] ==> Scope() == old(Scope())
    {
      assert old(Scope()) + map[] == old(Scope());
      FlattenPush(vars.scopes, scope);
      vars.Push(scope);
    }

    /** The closing half of `with_scope`. */
    method CloseScope()
      requires vars.scopes != []
      modifies vars
      ensures vars.scopes == old(vars.scopes)[..|old(vars.scopes)| - 1]
    {
      var _ := vars.Pop();
    }

    // ----- expressions -----

    method CheckExprIn(e: Expr) returns (t: Ty)
      modifies this`diagnostics
      ensures t == CheckExpr(funs, Scope(), e).0
      ensures diagnostics == old(diagnostics) + CheckExpr(funs, Scope(), e).1
      decreases e, 2
    {
      t := InferExprIn(e);
      if !TypeEq(e.ty, t) { Report(ExprAnnotationMismatch(e.ty, t)); }
    }

    method InferExprIn(e: Expr) returns (t: Ty)
      modifies this`diagnostics
      ensures t == InferExpr(funs, Scope(), e).0
      ensures diagnostics == old(diagnostics) + InferExpr(funs, Scope(), e).1
      decreases e, 1
    {
      match e.kind
      case WordLit(_) => t := Word;
      case BoolLit(_) => t := Bool;
      case UnitLit => t := Unit;
      case Var(x) =>
        var found := Find(vars.scopes, x);
        match found {
          case Some(ty) => t := ty;
          case None =>
            Report(UndefinedVariable(x));
            t := e.ty;
        }
      case Pair(e1, e2) =>
        var t1 := CheckExprIn(e1);
        var t2 := CheckExprIn(e2);
        t := Product(t1, t2);
      case Fst(_) => t := InferProjectionIn(e);
      case Snd(_) => t := InferProjectionIn(e);
      case Inl(_, _) => t := InferInjectionIn(e);
      case Inr(_, _) => t := InferInjectionIn(e);
      case InK(_, _, _) => t := InferInKIn(e);
      case Call(_, _) => t := InferCallIn(e);
      case If(_, _, _, _) => t := InferIfIn(e);
    }

    method InferProjectionIn(e: Expr) returns (t: Ty)
      requires e.kind.Fst? || e.kind.Snd?
      modifies this`diagnostics
      ensures t == InferExpr(funs, Scope(), e).0
      ensures diagnostics == old(diagnostics) + InferExpr(funs, Scope(), e).1
      decreases e, 0
    {
      var actual := CheckExprIn(e.kind.e);
      var s := StripNamed(actual);
      if s.Product? {
        t := if e.kind.Fst? then s.lhs else s.rhs;
      } else {
        Report(ExpectedProduct(actual));
        t := e.ty;
      }
    }

    method InferInjectionIn(e: Expr) returns (t: Ty)
      requires e.kind.Inl? || e.kind.Inr?
      modifies this`diagnostics
      ensures t == InferExpr(funs, Scope(), e).0
      ensures diagnostics == old(diagnostics) + InferExpr(funs, Scope(), e).1
      decreases e, 0
    {
      t := e.kind.target;
      var s := StripNamed(t);
      if s.Sum? {
        var actual := CheckExprIn(e.kind.e);
        ExpectType(if e.kind.Inl? then s.lhs else s.rhs, actual);
      } else {
        Report(ExpectedSum(t));
      }
    }

    method InferInKIn(e: Expr) returns (t: Ty)
      requires e.kind.InK?
      modifies this`diagnostics
      ensures t == InferExpr(funs, Scope(), e).0
      ensures diagnostics == old(diagnostics) + InferExpr(funs, Scope(), e).1
      decreases e, 0
    {
      t := e.kind.target;
      var payload := NthSumPayloadLoop(t, e.kind.index);
      match payload {
        case Some(expected) =>
          var actual := CheckExprIn(e.kind.e);
          ExpectType(expected, actual);
        case None => Report(BadInjectionIndex(e.kind.index, t));
      }
    }

    method InferCallIn(e: Expr) returns (t: Ty)
      requires e.kind.Call?
      modifies this`diagnostics
      ensures t == InferExpr(funs, Scope(), e).0
      ensures diagnostics == old(diagnostics) + InferExpr(funs, Scope(), e).1
      decreases e, 0
    {
      var (callee, args) := (e.kind.callee, e.kind.args);
      if callee !in funs {
        Report(UndefinedFunction(callee));
        return e.ty;
      }
      var sig := funs[callee];
      if |sig.args| != |args| {
        Report(ArityMismatch(callee, |sig.args|, |args|));
        return sig.ret;
      }
      CheckArgsIn(sig.args, args);
      return sig.ret;
    }

    method InferIfIn(e: Expr) returns (t: Ty)
      requires e.kind.If?
      modifies this`diagnostics
      ensures t == InferExpr(funs, Scope(), e).0
      ensures diagnostics == old(diagnostics) + InferExpr(funs, Scope(), e).1
      decreases e, 0
    {
      var (cond, thn, els) := (e.kind.cond, e.kind.thn, e.kind.els);
      var condTy := CheckExprIn(cond);
      ExpectBoolLike(condTy);
      var thnTy := CheckExprIn(thn);
      var elsTy := CheckExprIn(els);
      t := e.kind.target;
      ExpectType(t, thnTy);
      ExpectType(t, elsTy);
      Append6(old(diagnostics), CheckExpr(funs, Scope(), cond).1, ExpectBool(condTy), CheckExpr(funs, Scope(), thn).1,
              CheckExpr(funs, Scope(), els).1, Expect(t, thnTy), Expect(t, elsTy));
    }

    method CheckArgsIn(expected: seq<Ty>, args: seq<Expr>)
      requires |expected| == |args|
      modifies this`diagnostics
      ensures diagnostics == old(diagnostics) + CheckArgs(funs, Scope(), expected, args)
      decreases args, 0
    {
      for i := 0 to |args|
        invariant diagnostics + CheckArgs(funs, Scope(), expected[i..], args[i..])
               == old(diagnostics) + CheckArgs(funs, Scope(), expected, args)
      {
        ghost var d := diagnostics;
        assert args[i..][1..] == args[i + 1..] && expected[i..][1..] == expected[i + 1..];
        var actual := CheckExprIn(args[i]);
        ExpectType(expected[i], actual);
        Append3(d, CheckExpr(funs, Scope(), args[i]).1, Expect(expected[i], actual),
                CheckArgs(funs, Scope(), expected[i + 1..], args[i + 1..]));
      }
    }

    // ----- statements -----

    method CheckBodyIn(body: seq<Stmt>)
      requires Valid() && asmFuns.scopes == [map[]]
      modifies this`diagnostics, this`vars, vars, asmFuns
      ensures Valid() && vars == old(vars) && asmFuns.scopes == old(asmFuns.scopes)
      ensures vars.scopes == old(vars.scopes)[..|old(vars.scopes)| - 1]
                           + [DeclareAll(old(vars.scopes)[|old(vars.scopes)| - 1], body)]
      ensures Scope() == DeclareAll(old(Scope()), body)
      ensures diagnostics == old(diagnostics) + CheckBody(Context(), old(Scope()), body)
      decreases body, 0
    {
      ghost var top := vars.scopes[|vars.scopes| - 1];
      ghost var scope := Scope();
      for i := 0 to |body|
        invariant Valid() && vars == old(vars) && asmFuns.scopes == old(asmFuns.scopes)
        invariant |vars.scopes| == |old(vars.scopes)|
        invariant vars.scopes[..|vars.scopes| - 1] == old(vars.scopes)[..|old(vars.scopes)| - 1]
        invariant DeclareAll(vars.scopes[|vars.scopes| - 1], body[i..]) == DeclareAll(top, body)
        invariant DeclareAll(Scope(), body[i..]) == DeclareAll(scope, body)
        invariant diagnostics + CheckBody(Context(), Scope(), body[i..])
               == old(diagnostics) + CheckBody(Context(), scope, body)
      {
        ghost var (d, left) := (diagnostics, body[i..]);
        assert left[1..] == body[i + 1..];
        ghost var before := Scope();
        CheckStmtIn(body[i]);
        Append2(d, CheckStmt(Context(), before, body[i]), CheckBody(Context(), Scope(), body[i + 1..]));
      }
    }

    method CheckStmtIn(s: Stmt)
      requires Valid() && asmFuns.scopes == [map[]]
      modifies this`diagnostics, this`vars, vars, asmFuns
      ensures Valid() && vars == old(vars) && asmFuns.scopes == old(asmFuns.scopes)
      ensures vars.scopes == old(vars.scopes)[..|old(vars.scopes)| - 1]
                           + [Declare(old(vars.scopes)[|old(vars.scopes)| - 1], s)]
      ensures Scope() == Declare(old(Scope()), s)
      ensures diagnostics == old(diagnostics) + CheckStmt(Context(), old(Scope()), s)
      decreases s, 3
    {
      assert vars.scopes == vars.scopes[..|vars.scopes| - 1] + [vars.scopes[|vars.scopes| - 1]];
      if s.Let? {
        InsertVar(s.name, s.ty);
      } else {
        CheckOtherStmtIn(s);
      }
    }

    method CheckOtherStmtIn(s: Stmt)
      requires Valid() && asmFuns.scopes == [map[]] && !s.Let?
      modifies this`diagnostics, this`vars, vars, asmFuns
      ensures Valid() && vars == old(vars) && asmFuns.scopes == old(asmFuns.scopes) && vars.scopes == old(vars.scopes)
      ensures diagnostics == old(diagnostics) + CheckStmt(Context(), old(Scope()), s)
      decreases s, 2
    {
      match s
      case Assign(_, _) => CheckAssignIn(s);
      case ExprStmt(e) => var _ := CheckExprIn(e);
      case Return(_) => CheckReturnIn(s);
      case Block(_) => CheckBlockIn(s);
      case For(_, _, _, _) => CheckForIn(s);
      case Match(_, _, _) => CheckMatchIn(s);
      case Assembly(asm) =>
        if db {
          FlattenRoot(asmFuns.scopes);
          CheckAssemblyIn(asm);
        } else {
          Report(AssemblyRequiresDatabase);
        }
      case _ =>
    }

    method CheckAssignIn(s: Stmt)
      requires s.Assign?
      modifies this`diagnostics
      ensures diagnostics == old(diagnostics) + CheckStmt(Context(), Scope(), s)
    {
      var lhsTy := CheckExprIn(s.lhs);
      var rhsTy := CheckExprIn(s.rhs);
      ExpectType(lhsTy, rhsTy);
      Append3(old(diagnostics), CheckExpr(funs, Scope(), s.lhs).1, CheckExpr(funs, Scope(), s.rhs).1,
        Expect(lhsTy, rhsTy));
    }

    method CheckReturnIn(s: Stmt)
      requires s.Return?
      modifies this`diagnostics
      ensures diagnostics == old(diagnostics) + CheckStmt(Context(), Scope(), s)
    {
      var actual := CheckExprIn(s.e);
      match ret {
        case Some(expected) => ExpectType(expected, actual);
        case None => Report(ReturnOutsideFunction);
      }
    }

    method CheckMatchIn(s: Stmt)
      requires Valid() && asmFuns.scopes == [map[]] && s.Match?
      modifies this`diagnostics, this`vars, vars, asmFuns
      ensures Valid() && vars == old(vars) && asmFuns.scopes == old(asmFuns.scopes) && vars.scopes == old(vars.scopes)
      ensures diagnostics == old(diagnostics) + CheckStmt(Context(), old(Scope()), s)
      decreases s, 0
    {
      var scrutineeTy := CheckExprIn(s.scrutinee);
      ExpectType(s.target, scrutineeTy);
      CheckAltsIn(s.target, s.alts);
      Append3(old(diagnostics), CheckExpr(funs, Scope(), s.scrutinee).1, Expect(s.target, scrutineeTy),
              CheckAlts(Context(), Scope(), s.target, s.alts));
    }

    method CheckBlockIn(s: Stmt)
      requires Valid() && asmFuns.scopes == [map[]] && s.Block?
      modifies this`diagnostics, this`vars, vars, asmFuns
      ensures Valid() && vars == old(vars) && asmFuns.scopes == old(asmFuns.scopes) && vars.scopes == old(vars.scopes)
      ensures diagnostics == old(diagnostics) + CheckStmt(Context(), old(Scope()), s)
      decreases s, 0
    {
      OpenScope(map[]);
      CheckBodyIn(s.body);
      CloseScope();
      assert vars.scopes == old(vars.scopes);
    }

    method CheckAssemblyIn(asm: seq<YulStmt>)
      requires Valid()
      modifies this`diagnostics, this`vars, vars, asmFuns
      ensures Valid() && vars == old(vars) && asmFuns.scopes == old(asmFuns.scopes) && vars.scopes == old(vars.scopes)
      ensures diagnostics == old(diagnostics) + CheckAsmBlock(funs, old(AsmScope()), old(Scope()), asm).1
      decreases asm, 2
    {
      OpenScope(map[]);
      CheckAsmBlockIn(asm);
      CloseScope();
      assert vars.scopes == old(vars.scopes);
    }

    method CheckConditionIn(cond: Expr)
      requires Valid()
      modifies this`diagnostics
      ensures diagnostics ==
        old(diagnostics) + CheckExpr(funs, Scope(), cond).1 + ExpectBool(CheckExpr(funs, Scope(), cond).0)
    {
      var condTy := CheckExprIn(cond);
      ExpectBoolLike(condTy);
    }

    /** Condition, `post` and body of a loop, in the scope that `init` left. */
    method CheckLoopIn(s: Stmt)
      requires Valid() && asmFuns.scopes == [map[]] && s.For?
      modifies this`diagnostics, this`vars, vars, asmFuns
      ensures Valid() && vars == old(vars) && asmFuns.scopes == old(asmFuns.scopes)
      ensures |vars.scopes| == |old(vars.scopes)|
      ensures vars.scopes[..|vars.scopes| - 1] == old(vars.scopes)[..|vars.scopes| - 1]
      ensures diagnostics == old(diagnostics) + LoopDiagnostics(Context(), old(Scope()), s)
      decreases s, 0
    {
      ghost var (d, cx, scope) := (diagnostics, Context(), Scope());
      CheckConditionIn(s.cond);
      CheckBodyIn(s.post);
      CheckBodyIn(s.body);
      Append4(d, CheckExpr(funs, scope, s.cond).1, ExpectBool(CheckExpr(funs, scope, s.cond).0),
              CheckBody(cx, scope, s.post), CheckBody(cx, DeclareAll(scope, s.post), s.body));
    }

    ghost function LoopDiagnostics(cx: Ctx, scope: Vars, s: Stmt): seq<Diag>
      requires s.For?
    {
      CheckExpr(cx.funs, scope, s.cond).1 + ExpectBool(CheckExpr(cx.funs, scope, s.cond).0)
      + CheckBody(cx, scope, s.post) + CheckBody(cx, DeclareAll(scope, s.post), s.body)
    }

    lemma LoopAfterInit(cx: Ctx, scope: Vars, s: Stmt)
      requires s.For?
      ensures CheckStmt(cx, scope, s) ==
        CheckBody(cx, scope, s.init) + LoopDiagnostics(cx, DeclareAll(scope, s.init), s)
    {
      var scope1 := DeclareAll(scope, s.init);
      Append4(CheckBody(cx, scope, s.init), CheckExpr(cx.funs, scope1, s.cond).1,
              ExpectBool(CheckExpr(cx.funs, scope1, s.cond).0), CheckBody(cx, scope1, s.post),
              CheckBody(cx, DeclareAll(scope1, s.post), s.body));
    }

    method CheckForIn(s: Stmt)
      requires Valid() && asmFuns.scopes == [map[]] && s.For?
      modifies this`diagnostics, this`vars, vars, asmFuns
      ensures Valid() && vars == old(vars) && asmFuns.scopes == old(asmFuns.scopes) && vars.scopes == old(vars.scopes)
      ensures diagnostics == old(diagnostics) + CheckStmt(Context(), old(Scope()), s)
      decreases s, 1
    {
      ghost var (d, cx, scope) := (diagnostics, Context(), Scope());
      OpenScope(map[]);
      CheckBodyIn(s.init);
      CheckLoopIn(s);
      CloseScope();
      assert vars.scopes == old(vars.scopes);
      LoopAfterInit(cx, scope, s);
      Append2(d, CheckBody(cx, scope, s.init), LoopDiagnostics(cx, DeclareAll(scope, s.init), s));
    }

    lemma AltsStep(cx: Ctx, scope: Vars, target: Ty, alts: seq<Alt>, i: nat)
      requires i < |alts|
      ensures CheckAlts(cx, scope, target, alts[i..])
        == CheckAlt(cx, scope, target, alts[i]) + CheckAlts(cx, scope, target, alts[i + 1..])
    {
      assert alts[i..][1..] == alts[i + 1..];
    }

    method CheckAltsIn(target: Ty, alts: seq<Alt>)
      requires Valid() && asmFuns.scopes == [map[]]
      modifies this`diagnostics, this`vars, vars, asmFuns
      ensures Valid() && vars == old(vars) && asmFuns.scopes == old(asmFuns.scopes) && vars.scopes == old(vars.scopes)
      ensures diagnostics == old(diagnostics) + CheckAlts(Context(), old(Scope()), target, alts)
      decreases alts, 0
    {
      for i := 0 to |alts|
        invariant Valid() && vars == old(vars) && asmFuns.scopes == old(asmFuns.scopes)
          && vars.scopes == old(vars.scopes)
        invariant diagnostics + CheckAlts(Context(), Scope(), target, alts[i..])
               == old(diagnostics) + CheckAlts(Context(), old(Scope()), target, alts)
      {
        ghost var d := diagnostics;
        AltsStep(Context(), Scope(), target, alts, i);
        CheckAltIn(target, alts[i]);
        Append2(d, CheckAlt(Context(), Scope(), target, alts[i]),
          CheckAlts(Context(), Scope(), target, alts[i + 1..]));
      }
    }

    method CheckAltIn(target: Ty, alt: Alt)
      requires Valid() && asmFuns.scopes == [map[]]
      modifies this`diagnostics, this`vars, vars, asmFuns
      ensures Valid() && vars == old(vars) && asmFuns.scopes == old(asmFuns.scopes) && vars.scopes == old(vars.scopes)
      ensures diagnostics == old(diagnostics) + CheckAlt(Context(), old(Scope()), target, alt)
      decreases alt, 0
    {
      var payload := Unit;
      match PayloadType(target, alt.pat) {
        case Some(t) => payload := t;
        case None => Report(BadMatchPattern(alt.pat, target));
      }
      ghost var d := diagnostics;
      OpenScope(map[]);
      InsertVar(alt.binder, payload);
      CheckBodyIn(alt.body);
      CloseScope();
      assert vars.scopes == old(vars.scopes);
      Append2(old(diagnostics), [BadMatchPattern(alt.pat, target)],
        CheckBody(Context(), Scope()[alt.binder := payload], alt.body));
    }

    // ----- inline assembly -----

    method InsertWords(names: seq<Name>)
      requires vars.scopes != []
      modifies vars
      ensures |vars.scopes| == |old(vars.scopes)|
      ensures vars.scopes[..|vars.scopes| - 1] == old(vars.scopes)[..|old(vars.scopes)| - 1]
      ensures Scope() == DeclareWords(old(Scope()), names)
    {
      for i := 0 to |names|
        invariant |vars.scopes| == |old(vars.scopes)|
        invariant vars.scopes[..|vars.scopes| - 1] == old(vars.scopes)[..|old(vars.scopes)| - 1]
        invariant DeclareWords(Scope(), names[i..]) == DeclareWords(old(Scope()), names)
      {
        assert names[i..][1..] == names[i + 1..];
        InsertVar(names[i], Word);
      }
    }

    method LookupAsmFunIn(name: Name) returns (sig: FunSig)
      requires Valid()
      modifies this`diagnostics
      ensures sig == LookupAsmFun(funs, AsmScope(), name).0
      ensures diagnostics == old(diagnostics) + LookupAsmFun(funs, AsmScope(), name).1
    {
      if USR <= name {
        var key := name[|USR|..];
        if key in funs { return WordSig(funs[key]); }
        Report(UndefinedFunction(name));
        return FunSig([], Unit);
      }
      match AsmBuiltinSig(name) {
        case Some(builtin) => return builtin;
        case None =>
      }
      var found := Find(asmFuns.scopes, name);
      match found {
        case Some(local) => return WordSig(local);
        case None =>
      }
      if name in funs { return WordSig(funs[name]); }
      Report(UndefinedFunction(name));
      return FunSig([], Unit);
    }

    method CheckAsmExprIn(e: YulExpr) returns (t: Ty)
      requires Valid()
      modifies this`diagnostics
      ensures t == CheckAsmExpr(funs, AsmScope(), Scope(), e).0
      ensures diagnostics == old(diagnostics) + CheckAsmExpr(funs, AsmScope(), Scope(), e).1
      decreases e, 1
    {
      match e
      case YulLit(_) => return Word;
      case YulIdent(x) =>
        var found := Find(vars.scopes, x);
        match found {
          case Some(ty) => return ty;
          case None =>
            Report(UndefinedVariable(x));
            return Word;
        }
      case YulCall(_, _) => t := CheckAsmCallIn(e);
      case YulExprError => return Word;
    }

    method CheckAsmCallIn(e: YulExpr) returns (t: Ty)
      requires Valid() && e.YulCall?
      modifies this`diagnostics
      ensures t == CheckAsmExpr(funs, AsmScope(), Scope(), e).0
      ensures diagnostics == old(diagnostics) + CheckAsmExpr(funs, AsmScope(), Scope(), e).1
      decreases e, 0
    {
      var sig := LookupAsmFunIn(e.callee);
      if |sig.args| != |e.args| {
        Report(ArityMismatch(e.callee, |sig.args|, |e.args|));
      } else {
        CheckAsmArgsIn(e.args);
      }
      return sig.ret;
    }

    method CheckAsmArgsIn(args: seq<YulExpr>)
      requires Valid()
      modifies this`diagnostics
      ensures diagnostics == old(diagnostics) + CheckAsmArgs(funs, AsmScope(), Scope(), args)
      decreases args, 0
    {
      for i := 0 to |args|
        invariant diagnostics + CheckAsmArgs(funs, AsmScope(), Scope(), args[i..])
               == old(diagnostics) + CheckAsmArgs(funs, AsmScope(), Scope(), args)
      {
        ghost var d := diagnostics;
        assert args[i..][1..] == args[i + 1..];
        CheckAsmArgIn(args[i]);
        Append2(d, CheckAsmArg(funs, AsmScope(), Scope(), args[i]),
          CheckAsmArgs(funs, AsmScope(), Scope(), args[i + 1..]));
      }
    }

    method CheckAsmArgIn(e: YulExpr)
      requires Valid()
      modifies this`diagnostics
      ensures diagnostics == old(diagnostics) + CheckAsmArg(funs, AsmScope(), Scope(), e)
      decreases e, 2
    {
      var t := CheckAsmExprIn(e);
      if IsWordType(t) { return; }
      if TypeEq(t, Unit) {
        Report(AssemblyVoidArgument);
      } else {
        Report(AssemblyExpectedWordArgument(t));
      }
    }

    /** `predeclare_asm_functions`. */
    method PredeclareIn(stmts: seq<YulStmt>)
      requires Valid()
      modifies this`diagnostics, asmFuns
      ensures Valid()
      ensures asmFuns.scopes == old(asmFuns.scopes)[..|old(asmFuns.scopes)| - 1]
                              + [Predeclare(old(asmFuns.scopes)[|old(asmFuns.scopes)| - 1], stmts).0]
      ensures diagnostics == old(diagnostics) + Predeclare(old(asmFuns.scopes)[|old(asmFuns.scopes)| - 1], stmts).1
    {
      ghost var outer := asmFuns.scopes[..|asmFuns.scopes| - 1];
      ghost var top := asmFuns.scopes[|asmFuns.scopes| - 1];
      for i := 0 to |stmts|
        invariant Valid() && |asmFuns.scopes| == |outer| + 1 && asmFuns.scopes[..|outer|] == outer
        invariant Predeclare(asmFuns.scopes[|outer|], stmts[i..]).0 == Predeclare(top, stmts).0
        invariant diagnostics + Predeclare(asmFuns.scopes[|outer|], stmts[i..]).1
               == old(diagnostics) + Predeclare(top, stmts).1
      {
        assert stmts[i..][1..] == stmts[i + 1..];
        if stmts[i].YulFunctionDef? {
          var f := stmts[i];
          var last := asmFuns.scopes[|asmFuns.scopes| - 1];
          if f.name in last { Report(DuplicateFunction(f.name)); }
          asmFuns.SetLast(last[f.name := FunSig(Words(|f.params|), NReturns(|f.rets|))]);
        }
      }
    }

    method CheckAsmBlockIn(stmts: seq<YulStmt>)
      requires Valid()
      modifies this`diagnostics, this`vars, vars, asmFuns
      ensures Valid() && vars == old(vars) && asmFuns.scopes == old(asmFuns.scopes)
      ensures |vars.scopes| == |old(vars.scopes)|
      ensures vars.scopes[..|vars.scopes| - 1] == old(vars.scopes)[..|old(vars.scopes)| - 1]
      ensures Scope() == CheckAsmBlock(funs, old(AsmScope()), old(Scope()), stmts).0
      ensures diagnostics == old(diagnostics) + CheckAsmBlock(funs, old(AsmScope()), old(Scope()), stmts).1
      decreases stmts, 1
    {
      ghost var scope := Scope();
      OpenAsmScope(stmts);
      ghost var (d, asmScope) := (diagnostics, AsmScope());
      CheckAsmSeqIn(stmts);
      assert Scope() == CheckAsmBlock(funs, old(AsmScope()), scope, stmts).0;
      assert diagnostics == d + CheckAsmSeq(funs, asmScope, scope, stmts).1;
      Append2(old(diagnostics), Predeclare(map[], stmts).1, CheckAsmSeq(funs, asmScope, scope, stmts).1);
      var _ := asmFuns.Pop();
    }

    lemma AsmSeqStep(asmScope: Funs, scope: Vars, stmts: seq<YulStmt>, i: nat)
      requires i < |stmts|
      ensures var (next, d) := CheckAsmStmt(funs, asmScope, scope, stmts[i]);
        CheckAsmSeq(funs, asmScope, scope, stmts[i..])
        == (CheckAsmSeq(funs, asmScope, next, stmts[i + 1..]).0,
            d + CheckAsmSeq(funs, asmScope, next, stmts[i + 1..]).1)
    {
      assert stmts[i..][1..] == stmts[i + 1..];
    }

    method CheckAsmSeqIn(stmts: seq<YulStmt>)
      requires Valid()
      modifies this`diagnostics, this`vars, vars, asmFuns
      ensures Valid() && vars == old(vars) && asmFuns.scopes == old(asmFuns.scopes)
      ensures |vars.scopes| == |old(vars.scopes)|
      ensures vars.scopes[..|vars.scopes| - 1] == old(vars.scopes)[..|old(vars.scopes)| - 1]
      ensures Scope() == CheckAsmSeq(funs, old(AsmScope()), old(Scope()), stmts).0
      ensures diagnostics == old(diagnostics) + CheckAsmSeq(funs, old(AsmScope()), old(Scope()), stmts).1
      decreases stmts, 0
    {
      ghost var (scope, asmScope) := (Scope(), AsmScope());
      for i := 0 to |stmts|
        invariant Valid() && vars == old(vars) && asmFuns.scopes == old(asmFuns.scopes)
        invariant |vars.scopes| == |old(vars.scopes)|
        invariant vars.scopes[..|vars.scopes| - 1] == old(vars.scopes)[..|old(vars.scopes)| - 1]
        invariant CheckAsmSeq(funs, asmScope, Scope(), stmts[i..]).0 == CheckAsmSeq(funs, asmScope, scope, stmts).0
        invariant diagnostics + CheckAsmSeq(funs, asmScope, Scope(), stmts[i..]).1
               == old(diagnostics) + CheckAsmSeq(funs, asmScope, scope, stmts).1
      {
        ghost var (d, now) := (diagnostics, Scope());
        AsmSeqStep(asmScope, now, stmts, i);
        CheckAsmStmtIn(stmts[i]);
        Append2(d, CheckAsmStmt(funs, asmScope, now, stmts[i]).1,
          CheckAsmSeq(funs, asmScope, Scope(), stmts[i + 1..]).1);
      }
    }

    method CheckAsmStmtIn(s: YulStmt)
      requires Valid()
      modifies this`diagnostics, this`vars, vars, asmFuns
      ensures Valid() && vars == old(vars) && asmFuns.scopes == old(asmFuns.scopes)
      ensures |vars.scopes| == |old(vars.scopes)|
      ensures vars.scopes[..|vars.scopes| - 1] == old(vars.scopes)[..|old(vars.scopes)| - 1]
      ensures Scope() == CheckAsmStmt(funs, old(AsmScope()), old(Scope()), s).0
      ensures diagnostics == old(diagnostics) + CheckAsmStmt(funs, old(AsmScope()), old(Scope()), s).1
      decreases s, 1
    {
      match s
      case YulBlock(body) => CheckAssemblyIn(body);
      case YulLet(_, _) => CheckAsmLetIn(s);
      case YulAssign(_, _) => CheckAsmAssignIn(s);
      case YulExprStmt(e) =>
        var t := CheckAsmExprIn(e);
        if !TypeEq(t, Unit) { Report(AssemblyExpressionNotUnit(t)); }
      case YulIf(_, _) => CheckAsmIfIn(s);
      case YulFor(_, _, _, _) => CheckAsmForIn(s);
      case YulSwitch(_, _, _, _) => CheckAsmSwitchIn(s);
      case YulFunctionDef(_, _, _, _) => CheckAsmFunctionIn(s);
      case _ =>
    }

    method CheckAsmLetIn(s: YulStmt)
      requires Valid() && s.YulLet?
      modifies this`diagnostics, vars
      ensures Valid() && |vars.scopes| == |old(vars.scopes)|
      ensures vars.scopes[..|vars.scopes| - 1] == old(vars.scopes)[..|old(vars.scopes)| - 1]
      ensures Scope() == CheckAsmStmt(funs, AsmScope(), old(Scope()), s).0
      ensures diagnostics == old(diagnostics) + CheckAsmStmt(funs, AsmScope(), old(Scope()), s).1
    {
      match s.initial {
        case Some(e) =>
          var t := CheckAsmExprIn(e);
          ExpectReturns(|s.names|, ReturnCount(t));
        case None =>
      }
      InsertWords(s.names);
    }

    method CheckAsmAssignIn(s: YulStmt)
      requires Valid() && s.YulAssign?
      modifies this`diagnostics
      ensures diagnostics == old(diagnostics) + CheckAsmStmt(funs, AsmScope(), Scope(), s).1
    {
      CheckAsmTargetsIn(s.names);
      var t := CheckAsmExprIn(s.value);
      ExpectReturns(|s.names|, ReturnCount(t));
      Append3(old(diagnostics), CheckAsmTargets(Scope(), s.names), CheckAsmExpr(funs, AsmScope(), Scope(), s.value).1,
              ExpectCount(|s.names|, ReturnCount(t)));
    }

    method CheckAsmIfIn(s: YulStmt)
      requires Valid() && s.YulIf?
      modifies this`diagnostics, this`vars, vars, asmFuns
      ensures Valid() && vars == old(vars) && asmFuns.scopes == old(asmFuns.scopes)
      ensures |vars.scopes| == |old(vars.scopes)|
      ensures vars.scopes[..|vars.scopes| - 1] == old(vars.scopes)[..|old(vars.scopes)| - 1]
      ensures Scope() == CheckAsmStmt(funs, old(AsmScope()), old(Scope()), s).0
      ensures diagnostics == old(diagnostics) + CheckAsmStmt(funs, old(AsmScope()), old(Scope()), s).1
      decreases s, 0
    {
      ghost var (asmScope, scope) := (AsmScope(), Scope());
      CheckAsmArgIn(s.cond);
      CheckAsmBlockIn(s.body);
      Append2(old(diagnostics), CheckAsmArg(funs, asmScope, scope, s.cond),
        CheckAsmBlock(funs, asmScope, scope, s.body).1);
    }

    method ExpectReturns(expected: nat, actual: nat)
      modifies this`diagnostics
      ensures diagnostics == old(diagnostics) + ExpectCount(expected, actual)
    {
      if actual != expected { Report(AssemblyReturnCountMismatch(expected, actual)); }
    }

    method CheckAsmTargetsIn(names: seq<Name>)
      requires Valid()
      modifies this`diagnostics
      ensures diagnostics == old(diagnostics) + CheckAsmTargets(Scope(), names)
    {
      for i := 0 to |names|
        invariant diagnostics + CheckAsmTargets(Scope(), names[i..]) == old(diagnostics)
          + CheckAsmTargets(Scope(), names)
      {
        ghost var (d, rest) := (diagnostics, CheckAsmTargets(Scope(), names[i + 1..]));
        assert names[i..][1..] == names[i + 1..];
        CheckAsmTargetIn(names[i]);
        Append2(d, CheckAsmTarget(Scope(), names[i]), rest);
      }
    }

    method CheckAsmTargetIn(name: Name)
      requires Valid()
      modifies this`diagnostics
      ensures diagnostics == old(diagnostics) + CheckAsmTarget(Scope(), name)
    {
      var found := Find(vars.scopes, name);
      match found {
        case Some(ty) => if !IsWordType(ty) { Report(AssemblyExpectedWordAssignment(name, ty)); }
        case None => Report(UndefinedVariable(name));
      }
    }

    method CheckAsmForIn(s: YulStmt)
      requires Valid() && s.YulFor?
      modifies this`diagnostics, this`vars, vars, asmFuns
      ensures Valid() && vars == old(vars) && asmFuns.scopes == old(asmFuns.scopes) && vars.scopes == old(vars.scopes)
      ensures diagnostics == old(diagnostics) + CheckAsmStmt(funs, old(AsmScope()), old(Scope()), s).1
      decreases s, 0
    {
      ghost var (scope, asmScope) := (Scope(), AsmScope());
      ghost var (inner, d0) := Predeclare(map[], s.init);
      ghost var funs1 := asmScope + inner;
      ghost var (scope1, d1) := CheckAsmSeq(funs, funs1, scope, s.init);
      OpenScope(map[]);
      OpenAsmScope(s.init);
      CheckAsmSeqIn(s.init);
      CheckAsmArgIn(s.cond);
      CheckAssemblyIn(s.post);
      CheckAssemblyIn(s.body);
      var _ := asmFuns.Pop();
      CloseScope();
      assert vars.scopes == old(vars.scopes);
      Append5(old(diagnostics), d0, d1, CheckAsmArg(funs, funs1, scope1, s.cond),
              CheckAsmBlock(funs, funs1, scope1, s.post).1, CheckAsmBlock(funs, funs1, scope1, s.body).1);
    }

    /** A fresh scope of assembly functions, holding those that the statements declare. */
    method OpenAsmScope(stmts: seq<YulStmt>)
      requires Valid()
      modifies this`diagnostics, asmFuns
      ensures Valid() && asmFuns.scopes == old(asmFuns.scopes) + [Predeclare(map[], stmts).0]
      ensures AsmScope() == old(AsmScope()) + Predeclare(map[], stmts).0
      ensures diagnostics == old(diagnostics) + Predeclare(map[], stmts).1
    {
      ghost var outer := asmFuns.scopes;
      asmFuns.Push(map[]);
      PredeclareIn(stmts);
      FlattenPush(outer, Predeclare(map[], stmts).0);
      assert asmFuns.scopes == outer + [Predeclare(map[], stmts).0];
    }

    method CheckAsmSwitchIn(s: YulStmt)
      requires Valid() && s.YulSwitch?
      modifies this`diagnostics, this`vars, vars, asmFuns
      ensures Valid() && vars == old(vars) && asmFuns.scopes == old(asmFuns.scopes)
      ensures |vars.scopes| == |old(vars.scopes)|
      ensures vars.scopes[..|vars.scopes| - 1] == old(vars.scopes)[..|old(vars.scopes)| - 1]
      ensures Scope() == CheckAsmStmt(funs, old(AsmScope()), old(Scope()), s).0
      ensures diagnostics == old(diagnostics) + CheckAsmStmt(funs, old(AsmScope()), old(Scope()), s).1
      decreases s, 0
    {
      ghost var (asmScope, scope) := (AsmScope(), Scope());
      ghost var (scope1, d1) := CheckAsmCases(funs, asmScope, scope, s.cases);
      CheckAsmArgIn(s.e);
      CheckAsmCasesIn(s.cases);
      Append2(old(diagnostics), CheckAsmArg(funs, asmScope, scope, s.e), d1);
      if s.hasDefault {
        CheckAsmBlockIn(s.default);
        Append3(old(diagnostics), CheckAsmArg(funs, asmScope, scope, s.e), d1,
          CheckAsmBlock(funs, asmScope, scope1, s.default).1);
      }
    }

    method CheckAsmCasesIn(cases: seq<YulCase>)
      requires Valid()
      modifies this`diagnostics, this`vars, vars, asmFuns
      ensures Valid() && vars == old(vars) && asmFuns.scopes == old(asmFuns.scopes)
      ensures |vars.scopes| == |old(vars.scopes)|
      ensures vars.scopes[..|vars.scopes| - 1] == old(vars.scopes)[..|old(vars.scopes)| - 1]
      ensures Scope() == CheckAsmCases(funs, old(AsmScope()), old(Scope()), cases).0
      ensures diagnostics == old(diagnostics) + CheckAsmCases(funs, old(AsmScope()), old(Scope()), cases).1
      decreases cases, 0
    {
      ghost var (scope, asmScope) := (Scope(), AsmScope());
      for i := 0 to |cases|
        invariant Valid() && vars == old(vars) && asmFuns.scopes == old(asmFuns.scopes)
        invariant |vars.scopes| == |old(vars.scopes)|
        invariant vars.scopes[..|vars.scopes| - 1] == old(vars.scopes)[..|old(vars.scopes)| - 1]
        invariant CheckAsmCases(funs, asmScope, Scope(), cases[i..]).0 == CheckAsmCases(funs, asmScope, scope, cases).0
        invariant diagnostics + CheckAsmCases(funs, asmScope, Scope(), cases[i..]).1
               == old(diagnostics) + CheckAsmCases(funs, asmScope, scope, cases).1
      {
        ghost var (d, before) := (diagnostics, Scope());
        assert cases[i..][1..] == cases[i + 1..];
        CheckAsmBlockIn(cases[i].body);
        Append2(d, CheckAsmBlock(funs, asmScope, before, cases[i].body).1,
          CheckAsmCases(funs, asmScope, Scope(), cases[i + 1..]).1);
      }
    }

    /** A Yul function sees none of the surrounding variables: the stack is replaced and put back. */
    method CheckAsmFunctionIn(s: YulStmt)
      requires Valid() && s.YulFunctionDef?
      modifies this`diagnostics, this`vars, asmFuns
      ensures Valid() && vars == old(vars) && asmFuns.scopes == old(asmFuns.scopes)
      ensures diagnostics == old(diagnostics) + CheckAsmStmt(funs, old(AsmScope()), old(Scope()), s).1
      decreases s, 0
    {
      var saved := vars;
      vars := new ScopeStack(map[]);
      assert Flatten(vars.scopes) == map[];
      InsertWords(s.params);
      InsertWords(s.rets);
      CheckAsmBlockIn(s.body);
      vars := saved;
    }

    // ----- functions and objects -----

    method RegisterIn(fs: seq<FunctionDef>)
      modifies this`diagnostics, this`funs
      ensures funs == Register(old(funs), fs).0
      ensures diagnostics == old(diagnostics) + Register(old(funs), fs).1
    {
      for i := 0 to |fs|
        invariant Register(funs, fs[i..]).0 == Register(old(funs), fs).0
        invariant diagnostics + Register(funs, fs[i..]).1 == old(diagnostics) + Register(old(funs), fs).1
      {
        ghost var d := diagnostics;
        assert fs[i..][1..] == fs[i + 1..];
        if fs[i].name in funs { Report(DuplicateFunction(fs[i].name)); }
        funs := funs[fs[i].name := SigOf(fs[i])];
        Append2(d, [DuplicateFunction(fs[i].name)], Register(funs, fs[i + 1..]).1);
      }
    }

    method CheckFirstOrderIn(name: Name, args: seq<Arg>)
      modifies this`diagnostics
      ensures diagnostics == old(diagnostics) + FirstOrderArgs(name, args)
    {
      for i := 0 to |args|
        invariant diagnostics + FirstOrderArgs(name, args[i..]) == old(diagnostics) + FirstOrderArgs(name, args)
      {
        ghost var d := diagnostics;
        assert args[i..][1..] == args[i + 1..];
        if ContainsFunction(args[i].ty) { Report(FunctionTypeNotFirstOrder(name)); }
        Append2(d, [FunctionTypeNotFirstOrder(name)], FirstOrderArgs(name, args[i + 1..]));
      }
    }

    method BindArgsIn(args: seq<Arg>)
      requires vars.scopes != []
      modifies vars
      ensures |vars.scopes| == |old(vars.scopes)|
      ensures vars.scopes[..|vars.scopes| - 1] == old(vars.scopes)[..|old(vars.scopes)| - 1]
      ensures Scope() == BindArgs(old(Scope()), args)
    {
      for i := 0 to |args|
        invariant |vars.scopes| == |old(vars.scopes)|
        invariant vars.scopes[..|vars.scopes| - 1] == old(vars.scopes)[..|old(vars.scopes)| - 1]
        invariant BindArgs(Scope(), args[i..]) == BindArgs(old(Scope()), args)
      {
        assert args[i..][1..] == args[i + 1..];
        InsertVar(args[i].name, args[i].ty);
      }
    }

    /** The parameters and the result of a function may not hold functions. */
    method CheckSignatureIn(f: FunctionDef)
      requires Valid()
      modifies this`diagnostics
      ensures diagnostics == old(diagnostics) + FirstOrderArgs(f.name, f.args)
        + if ContainsFunction(f.ret) then [FunctionTypeNotFirstOrder(f.name)] else []
    {
      CheckFirstOrderIn(f.name, f.args);
      if ContainsFunction(f.ret) { Report(FunctionTypeNotFirstOrder(f.name)); }
    }

    /** The body of a function, in the scope of its arguments, which stays open. */
    method CheckScopedBodyIn(f: FunctionDef)
      requires Valid() && asmFuns.scopes == [map[]]
      modifies this`diagnostics, this`vars, this`ret, vars, asmFuns
      ensures Valid() && vars == old(vars) && asmFuns.scopes == [map[]] && ret == Some(f.ret)
      ensures |vars.scopes| == |old(vars.scopes)| + 1 && vars.scopes[..|vars.scopes| - 1] == old(vars.scopes)
      ensures diagnostics == old(diagnostics) + CheckBody(Context(), BindArgs(old(Scope()), f.args), f.body)
    {
      OpenScope(map[]);
      BindArgsIn(f.args);
      ret := Some(f.ret);
      CheckBodyIn(f.body);
    }

    method CheckFunctionIn(f: FunctionDef)
      requires Valid() && asmFuns.scopes == [map[]]
      modifies this`diagnostics, this`vars, this`ret, vars, asmFuns
      ensures Valid() && vars == old(vars) && asmFuns.scopes == [map[]] && vars.scopes == old(vars.scopes)
        && ret == old(ret)
      ensures diagnostics == old(diagnostics) + CheckFunction(Context().asm, funs, old(Scope()), f)
    {
      ghost var scope := Scope();
      CheckSignatureIn(f);
      var savedRet := ret;
      CheckScopedBodyIn(f);
      ghost var d' := CheckBody(Context(), BindArgs(scope, f.args), f.body);
      if RequiresTerminator(f.ret) && !BodyTerminates(f.body, db) { Report(MissingTerminator(f.name)); }
      ret := savedRet;
      CloseScope();
      assert vars.scopes == old(vars.scopes);
      Append4(old(diagnostics), FirstOrderArgs(f.name, f.args),
              if ContainsFunction(f.ret) then [FunctionTypeNotFirstOrder(f.name)] else [], d',
              if RequiresTerminator(f.ret) && !BodyTerminates(f.body, db) then [MissingTerminator(f.name)] else []);
    }

    method CheckFunctionsIn(fs: seq<FunctionDef>)
      requires Valid() && asmFuns.scopes == [map[]] && Scope() == map[]
      modifies this`diagnostics, this`vars, this`ret, vars, asmFuns
      ensures Valid() && vars == old(vars) && asmFuns.scopes == [map[]] && vars.scopes == old(vars.scopes)
        && ret == old(ret)
      ensures diagnostics == old(diagnostics) + CheckFunctions(Context().asm, funs, fs)
    {
      for i := 0 to |fs|
        invariant Valid() && vars == old(vars) && asmFuns.scopes == [map[]] && vars.scopes == old(vars.scopes)
          && ret == old(ret)
        invariant diagnostics + CheckFunctions(Context().asm, funs, fs[i..])
               == old(diagnostics) + CheckFunctions(Context().asm, funs, fs)
      {
        ghost var d := diagnostics;
        assert fs[i..][1..] == fs[i + 1..];
        CheckFunctionIn(fs[i]);
        Append2(d, CheckFunction(Context().asm, funs, map[], fs[i]), CheckFunctions(Context().asm, funs, fs[i + 1..]));
      }
    }

    /** The functions of an object are visible in its own code only, so `funs` is restored before its inner objects. */
    method CheckObjectIn(ob: Object)
      requires Valid() && asmFuns.scopes == [map[]] && Scope() == map[] && ret == None
      modifies this`diagnostics, this`vars, this`ret, this`funs, vars, asmFuns
      ensures Valid() && vars == old(vars) && asmFuns.scopes == [map[]] && vars.scopes == old(vars.scopes)
      ensures ret == None && funs == old(funs)
      ensures diagnostics == old(diagnostics) + CheckObject(Context().asm, funs, ob)
      decreases ob, 0
    {
      ghost var asm := Context().asm;
      var savedFuns := funs;
      RegisterIn(ob.functions);
      ghost var (inner, d1) := Register(savedFuns, ob.functions);
      OpenScope(map[]);
      CheckFunctionsIn(ob.functions);
      CheckBodyIn(ob.stmts);
      CloseScope();
      assert vars.scopes == old(vars.scopes);
      funs := savedFuns;
      ghost var d2 := CheckFunctions(asm, inner, ob.functions);
      ghost var d3 := CheckBody(Ctx(asm, inner, None), map[], ob.stmts);
      assert diagnostics == old(diagnostics) + d1 + d2 + d3;
      CheckObjectsIn(ob.inners);
      Append4(old(diagnostics), d1, d2, d3, CheckObjects(asm, funs, ob.inners));
    }

    method CheckObjectsIn(os: seq<Object>)
      requires Valid() && asmFuns.scopes == [map[]] && Scope() == map[] && ret == None
      modifies this`diagnostics, this`vars, this`ret, this`funs, vars, asmFuns
      ensures Valid() && vars == old(vars) && asmFuns.scopes == [map[]] && vars.scopes == old(vars.scopes)
      ensures ret == None && funs == old(funs)
      ensures diagnostics == old(diagnostics) + CheckObjects(Context().asm, funs, os)
      decreases os, 0
    {
      for i := 0 to |os|
        invariant Valid() && vars == old(vars) && asmFuns.scopes == [map[]] && vars.scopes == old(vars.scopes)
        invariant ret == None && funs == old(funs)
        invariant diagnostics + CheckObjects(Context().asm, funs, os[i..])
               == old(diagnostics) + CheckObjects(Context().asm, funs, os)
      {
        ghost var d := diagnostics;
        assert os[i..][1..] == os[i + 1..];
        CheckObjectIn(os[i]);
        Append2(d, CheckObject(Context().asm, funs, os[i]), CheckObjects(Context().asm, funs, os[i + 1..]));
      }
    }
  }

  method CheckProgramWithPrims(db: bool, prims: Funs, p: Program) returns (diagnostics: seq<Diag>)
    ensures diagnostics == CheckProgramWith(if db then Some(CheckAsm) else None, prims, p)
  {
    var env := new Env(db, prims);
    FlattenRoot(env.vars.scopes);
    env.RegisterIn(p.functions);
    env.CheckFunctionsIn(p.functions);
    ghost var (funs, d1) := Register(prims, p.functions);
    ghost var d2 := CheckFunctions(env.Context().asm, funs, p.functions);
    assert env.diagnostics == d1 + d2;
    env.CheckObjectsIn(p.objects);
    return env.diagnostics;
  }

  /** `check_program_inner`: its diagnostics are exactly those of `CheckProgram`, the checker that is proved sound. */
  method CheckProgramInner(db: bool, p: Program) returns (diagnostics: seq<Diag>)
    ensures diagnostics == CheckProgram(db, p)
  {
    diagnostics := CheckProgramWithPrims(db, BuiltinFuns(), p);
  }
}
