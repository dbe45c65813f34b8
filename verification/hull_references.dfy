/** What a type reference with two meanings does: exactly when two uses of one name can be exchanged through it. */
module HullReferences {
  import opened Wrappers
  import opened HullIr
  import opened HullTyping
  import opened HullEval
  import opened HullTypes
  import opened HullSoundness
  import opened HullProgramTypes
  import opened HullPrograms

  // `type_eq` takes a reference to a name for any use of the name, so a value of one use can leave as one of another.

  /** `if<t> true then x else x`, where `t` is a reference. */
  function Pass(t: Name): Expr {
    var x := Expr(NamedRef(t), Var("x"));
    Expr(NamedRef(t), If(NamedRef(t), Expr(Bool, BoolLit(true)), x, x))
  }

  /** `function g(x : t{a}) -> t{b} { return if<t> true then x else x }` */
  function Exchange(t: Name, a: Ty, b: Ty): FunctionDef {
    FunctionDef("g", [Arg("x", Named(t, a))], Named(t, b), [Return(Pass(t))])
  }

  function ExchangeProgram(t: Name, a: Ty, b: Ty): Program {
    Program([Exchange(t, a, b)], [])
  }

  // ----- it is accepted -----

  lemma PassChecked(funs: Funs, vars: Vars, t: Name, a: Ty)
    requires "x" in vars && vars["x"] == Named(t, a)
    ensures CheckExpr(funs, vars, Pass(t)).0 == NamedRef(t) && CheckExpr(funs, vars, Pass(t)).1 == []
  {
    var x := Expr(NamedRef(t), Var("x"));
    var yes := Expr(Bool, BoolLit(true));
    assert InferExpr(funs, vars, x).0 == Named(t, a) && InferExpr(funs, vars, x).1 == [];
    assert CheckExpr(funs, vars, x).0 == Named(t, a) && CheckExpr(funs, vars, x).1 == [];
    assert InferExpr(funs, vars, yes).0 == Bool && InferExpr(funs, vars, yes).1 == [];
    assert CheckExpr(funs, vars, yes).0 == Bool && CheckExpr(funs, vars, yes).1 == [];
    assert TypeEq(NamedRef(t), Named(t, a));
    assert InferExpr(funs, vars, Pass(t)).0 == NamedRef(t) && InferExpr(funs, vars, Pass(t)).1 == [];
  }

  lemma BodyChecked(cx: Ctx, vars: Vars, t: Name, a: Ty, b: Ty)
    requires "x" in vars && vars["x"] == Named(t, a) && cx.ret == Some(Named(t, b))
    ensures CheckBody(cx, vars, [Return(Pass(t))]) == []
  {
    var body := [Return(Pass(t))];
    PassChecked(cx.funs, vars, t, a);
    assert CheckStmt(cx, vars, body[0]) == [];
    assert body[1..] == [];
  }

  lemma ExchangeChecked(asm: Option<AsmChecker>, funs: Funs, t: Name, a: Ty, b: Ty)
    requires !ContainsFunction(a) && !ContainsFunction(b)
    ensures CheckFunction(asm, funs, map[], Exchange(t, a, b)) == []
  {
    var f := Exchange(t, a, b);
    assert f.args[1..] == [];
    assert FirstOrderArgs(f.name, f.args) == [];
    var vars: Vars := map["x" := Named(t, a)];
    assert BindArgs(map[], f.args) == vars;
    BodyChecked(Ctx(asm, funs, Some(f.ret)), vars, t, a, b);
    assert BodyTerminates(f.body, asm.Some?);
  }

  lemma SingleFunctionAccepted(asm: Option<AsmChecker>, prims: Funs, f: FunctionDef, fs: seq<FunctionDef>)
    requires f.name !in prims && fs == [f] && CheckFunction(asm, prims[f.name := SigOf(f)], map[], f) == []
    ensures CheckProgramWith(asm, prims, Program(fs, [])) == []
  {
    var funs := prims[f.name := SigOf(f)];
    assert fs[0] == f && fs[1..] == [];
    assert Register(funs, fs[1..]).0 == funs && Register(funs, fs[1..]).1 == [];
    assert Register(prims, fs).0 == funs && Register(prims, fs).1 == [];
    assert CheckFunctions(asm, funs, fs[1..]) == [];
    assert CheckFunctions(asm, funs, fs) == [];
    assert CheckObjects(asm, funs, []) == [];
  }

  /** It is accepted whatever first-order types its name wraps. */
  lemma ExchangeAccepted(asm: Option<AsmChecker>, prims: Funs, t: Name, a: Ty, b: Ty)
    requires "g" !in prims && !ContainsFunction(a) && !ContainsFunction(b)
    ensures CheckProgramWith(asm, prims, ExchangeProgram(t, a, b)) == []
  {
    var f := Exchange(t, a, b);
    ExchangeChecked(asm, prims["g" := SigOf(f)], t, a, b);
    SingleFunctionAccepted(asm, prims, f, [f]);
  }

  // ----- what it does -----

  lemma PassRuns(o: Oracle, c: Code, fuel: nat, env: Env, w: World, t: Name, v: Value)
    requires ReadVar(env, "x") == Success(v)
    ensures EvalExpr(o, c, fuel, env, w, Pass(t)) == Success((v, w))
  {
    var k := Pass(t).kind;
    assert EvalExpr(o, c, fuel, env, w, k.cond) == Success((BoolV(true), w));
    assert EvalExpr(o, c, fuel, env, w, k.thn) == Success((v, w));
  }

  /** The argument comes back, given fuel for the call. */
  lemma ExchangeRuns(o: Oracle, c: Code, fuel: nat, w: World, t: Name, a: Ty, b: Ty, v: Value)
    ensures CallFunction(o, c, Exchange(t, a, b), fuel, w, [v])
      == if fuel == 0 then Failure(Exhausted) else Success((v, w))
  {
    var f := Exchange(t, a, b);
    if fuel > 0 {
      var frame: Frame := map["x" := Slot(Named(t, a), Some(v))];
      assert f.args[1..] == [] && [v][1..] == [];
      assert BindFrame(map[], f.args, [v]) == frame;
      assert ReadVar([frame], "x") == Success(v);
      PassRuns(o, c, fuel - 1, [frame], w, t, v);
      assert ExecStmt(o, c, fuel - 1, [frame], w, f.body[0]) == Success(([frame], Returned(v), w));
    }
  }

  ghost predicate Included(d: Defs, a: Ty, b: Ty) {
    forall v :: HasType(d, v, a) ==> HasType(d, v, b)
  }

  lemma UseHasType(d: Defs, v: Value, t: Name, a: Ty)
    ensures HasType(d, v, Named(t, a)) <==> HasType(d, v, a)
  {
    HasTypeStrip(d, v, Named(t, a));
    HasTypeStrip(d, v, a);
  }

  lemma ExchangeReturns(d: Defs, prims: Funs, t: Name, a: Ty, b: Ty, o: Oracle, fuel: nat, w: World, args: seq<Value>)
    requires Included(d, a, b) && ArgsTyped(d, Exchange(t, a, b), args)
    ensures ReturnsTyped(d, Named(t, b),
      CallFunction(o, ProgramCode(prims, ExchangeProgram(t, a, b)), Exchange(t, a, b), fuel, w, args))
  {
    var v := args[0];
    assert args == [v];
    ExchangeRuns(o, ProgramCode(prims, ExchangeProgram(t, a, b)), fuel, w, t, a, b, v);
    UseHasType(d, v, t, a);
    UseHasType(d, v, t, b);
  }

  lemma ExchangeFails(d: Defs, prims: Funs, t: Name, a: Ty, b: Ty, v: Value, o: Oracle)
    requires HasType(d, v, a) && !HasType(d, v, b)
    ensures ArgsTyped(d, Exchange(t, a, b), [v])
    ensures !ReturnsTyped(d, Named(t, b),
      CallFunction(o, ProgramCode(prims, ExchangeProgram(t, a, b)), Exchange(t, a, b), 1, 0, [v]))
  {
    ExchangeRuns(o, ProgramCode(prims, ExchangeProgram(t, a, b)), 1, 0, t, a, b, v);
    UseHasType(d, v, t, a);
    UseHasType(d, v, t, b);
  }

  // ----- the theorems -----

  /** The program is sound exactly when every value of the one use is a value of the other. */
  lemma ExchangeIsSoundExactly(d: Defs, prims: Funs, t: Name, a: Ty, b: Ty)
    ensures NeverGoesWrong(d, prims, ExchangeProgram(t, a, b)) <==> Included(d, a, b)
  {
    var p, f := ExchangeProgram(t, a, b), Exchange(t, a, b);
    if Included(d, a, b) {
      forall g, o, fuel, w, args | g in p.functions && ArgsTyped(d, g, args)
        ensures ReturnsTyped(d, g.ret, CallFunction(o, ProgramCode(prims, p), g, fuel, w, args))
      {
        ExchangeReturns(d, prims, t, a, b, o, fuel, w, args);
      }
    } else {
      var v :| HasType(d, v, a) && !HasType(d, v, b);
      var o := Oracle((name, vs, w) => PrimHalt, (asm, env, w) => AsmHalt);
      ExchangeFails(d, prims, t, a, b, v, o);
      assert f in p.functions;
    }
  }

  /** Two uses of a referenced name are sound in both directions exactly when they have the same values. */
  lemma UsesAreExchangeableExactly(d: Defs, prims: Funs, t: Name, a: Ty, b: Ty)
    ensures
      NeverGoesWrong(d, prims, ExchangeProgram(t, a, b)) && NeverGoesWrong(d, prims, ExchangeProgram(t, b, a))
      <==> SameValues(d, a, b)
  {
    ExchangeIsSoundExactly(d, prims, t, a, b);
    ExchangeIsSoundExactly(d, prims, t, b, a);
  }

  /** A coherent program can contain both uses only when they have the same values. */
  lemma CoherentUsesAgree(d: Defs, t: Name, a: Ty, b: Ty)
    requires CoherentProgram(d, ExchangeProgram(t, a, b))
    ensures SameValues(d, a, b)
  {
    var p, f := ExchangeProgram(t, a, b), Exchange(t, a, b);
    assert p.functions[1..] == [];
    assert f.args[0] in f.args && f.body[1..] == [];
    assert Named(t, a) in FunctionTypes(f) && Named(t, b) in FunctionTypes(f);
    assert NamedRef(t) in ExprTypes(Pass(t));
    assert NamedRef(t) in StmtTypes(f.body[0]);
    assert NamedRef(t) in BodyTypes(f.body);
    assert FunctionTypes(f) <= ProgramTypes(p);
    assert Coherent(d, Named(t, a)) && Coherent(d, Named(t, b)) && Coherent(d, NamedRef(t));
    forall v
      ensures HasType(d, v, a) <==> HasType(d, v, b)
    {
      assert SameValues(d, a, d[t]) && SameValues(d, b, d[t]);
    }
  }

  lemma WordIsNoBool(d: Defs)
    ensures HasType(d, WordV(5), Word) && !HasType(d, WordV(5), Bool)
  {
    assert HasTypeN(d, 0, WordV(5), Word);
  }

  /**
   Without one meaning per reference the checker accepts a program whose function, declared to return a boolean, returns
   the word 5; no choice of definitions makes that program coherent.
   */
  lemma AmbiguousReferenceBreaksSoundness(asm: Option<AsmChecker>, prims: Funs, o: Oracle, d: Defs)
    requires "g" !in prims
    ensures CheckProgramWith(asm, prims, ExchangeProgram("T", Word, Bool)) == []
    ensures CallFunction(o, ProgramCode(prims, ExchangeProgram("T", Word, Bool)), Exchange("T", Word, Bool), 1, 0,
      [WordV(5)]) == Success((WordV(5), 0))
    ensures !HasType(d, WordV(5), Exchange("T", Word, Bool).ret)
    ensures !CoherentProgram(d, ExchangeProgram("T", Word, Bool))
  {
    ExchangeAccepted(asm, prims, "T", Word, Bool);
    ExchangeRuns(o, ProgramCode(prims, ExchangeProgram("T", Word, Bool)), 1, 0, "T", Word, Bool, WordV(5));
    WordIsNoBool(d);
    UseHasType(d, WordV(5), "T", Bool);
    if CoherentProgram(d, ExchangeProgram("T", Word, Bool)) {
      CoherentUsesAgree(d, "T", Word, Bool);
    }
  }
}
