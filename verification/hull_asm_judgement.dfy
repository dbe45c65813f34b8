/** When inline assembly is accepted, as rules over its syntax, and that the checker accepts exactly such assembly. */
module HullAsmJudgement {
  // The rules speak of words and counts; the checker works with types and lists of diagnostics.

  import opened Wrappers
  import opened HullIr
  import opened HullTyping
  import opened HullBuiltins
  import opened HullAsmTyping
  import opened HullAsmNames

  /** A function as assembly sees it: the words it takes and the words it gives. */
  datatype Shape = Shape(takes: nat, gives: nat)

  type Shapes = map<Name, Shape>

  function ShapeOf(sig: FunSig): Shape {
    Shape(|sig.args|, ReturnCount(sig.ret))
  }

  function ShapesOf(funs: Funs): Shapes {
    map x | x in funs :: ShapeOf(funs[x])
  }

  // ----- the rules -----

  /** `usr$` names a Hull function; otherwise a builtin comes first, then an assembly function, then a Hull one. */
  predicate Resolves(funs: Shapes, inner: Shapes, name: Name, shape: Shape) {
    if |name| >= 4 && name[..4] == "usr$" then name[4..] in funs && funs[name[4..]] == shape
    else if AsmBuiltinSig(name).Some? then ShapeOf(AsmBuiltinSig(name).value) == shape
    else if name in inner then inner[name] == shape
    else name in funs && funs[name] == shape
  }

  /** The expression is well formed and gives `n` words. */
  ghost predicate Gives(funs: Shapes, inner: Shapes, vars: Vars, e: YulExpr, n: nat)
    decreases e
  {
    match e
    case YulLit(_) => n == 1
    case YulIdent(x) => x in vars && ReturnCount(vars[x]) == n
    case YulCall(callee, args) =>
      && Resolves(funs, inner, callee, Shape(|args|, n))
      && forall i :: 0 <= i < |args| ==> IsOneWord(funs, inner, vars, args[i])
    case YulExprError => n == 1
  }

  /** It can stand where a word is needed. */
  ghost predicate IsOneWord(funs: Shapes, inner: Shapes, vars: Vars, e: YulExpr)
    decreases e
  {
    match e
    case YulLit(_) => true
    case YulIdent(x) => x in vars && StripNamed(vars[x]) == Word
    case YulCall(callee, args) =>
      && Resolves(funs, inner, callee, Shape(|args|, 1))
      && forall i :: 0 <= i < |args| ==> IsOneWord(funs, inner, vars, args[i])
    case YulExprError => true
  }

  /** It can stand as a statement. */
  ghost predicate IsNothing(funs: Shapes, inner: Shapes, vars: Vars, e: YulExpr) {
    match e
    case YulIdent(x) => x in vars && StripNamed(vars[x]) == Unit
    case YulCall(_, _) => Gives(funs, inner, vars, e, 0)
    case _ => false
  }

  /** `names` declared as words on top of `vars`. */
  function With(vars: Vars, names: set<Name>): Vars {
    vars + map x | x in names :: Word
  }

  /** No function is defined twice in the block, and `scope` holds those that are. */
  ghost predicate Defines(stmts: seq<YulStmt>, scope: Shapes) {
    && (forall i, j :: 0 <= i < j < |stmts| && stmts[i].YulFunctionDef? && stmts[j].YulFunctionDef? ==>
          stmts[i].name != stmts[j].name)
    && (forall i :: 0 <= i < |stmts| && stmts[i].YulFunctionDef? ==>
          stmts[i].name in scope && scope[stmts[i].name] == Shape(|stmts[i].params|, |stmts[i].rets|))
    && (forall x :: x in scope ==> exists i :: 0 <= i < |stmts| && stmts[i].YulFunctionDef? && stmts[i].name == x)
  }

  ghost predicate Ok(funs: Shapes, inner: Shapes, vars: Vars, s: YulStmt)
    decreases s, 1
  {
    match s
    case YulBlock(body) => BlockOk(funs, inner, vars, body)
    case YulLet(names, initial) => initial.Some? ==> Gives(funs, inner, vars, initial.value, |names|)
    case YulAssign(names, value) =>
      && (forall x :: x in names ==> x in vars && StripNamed(vars[x]) == Word)
      && Gives(funs, inner, vars, value, |names|)
    case YulExprStmt(e) => IsNothing(funs, inner, vars, e)
    case YulIf(cond, body) => IsOneWord(funs, inner, vars, cond) && BlockOk(funs, inner, vars, body)
    case YulFor(init, cond, post, body) =>
      exists scope :: Defines(init, scope) && LoopOk(funs, inner + scope, vars, s)
    case YulSwitch(e, cases, hasDefault, default) =>
      && IsOneWord(funs, inner, vars, e)
      && CasesOk(funs, inner, vars, cases)
      && (hasDefault ==> BlockOk(funs, inner, With(vars, CaseNames(cases, Leaking)), default))
    case YulFunctionDef(_, params, rets, body) =>
      BlockOk(funs, inner, With(map[], (set x | x in params) + (set x | x in rets)), body)
    case _ => true
  }

  /** A loop whose functions are known: condition, post and body see what `init` declares. */
  ghost predicate LoopOk(funs: Shapes, inner: Shapes, vars: Vars, s: YulStmt)
    requires s.YulFor?
    decreases s, 0
  {
    var vars1 := With(vars, AllNames(s.init, Leaking));
    && SeqOk(funs, inner, vars, s.init)
    && IsOneWord(funs, inner, vars1, s.cond)
    && BlockOk(funs, inner, vars1, s.post)
    && BlockOk(funs, inner, vars1, s.body)
  }

  /** The statements in order, each seeing what those before it leave declared. */
  ghost predicate SeqOk(funs: Shapes, inner: Shapes, vars: Vars, stmts: seq<YulStmt>)
    decreases stmts, 0
  {
    forall i :: 0 <= i < |stmts| ==> Ok(funs, inner, With(vars, AllNames(stmts[..i], Leaking)), stmts[i])
  }

  /** A block: its functions are visible throughout. */
  ghost predicate BlockOk(funs: Shapes, outer: Shapes, vars: Vars, stmts: seq<YulStmt>)
    decreases stmts, 1
  {
    exists scope :: Defines(stmts, scope) && SeqOk(funs, outer + scope, vars, stmts)
  }

  /** The cases of a `switch` in order. */
  ghost predicate CasesOk(funs: Shapes, inner: Shapes, vars: Vars, cases: seq<YulCase>)
    decreases cases, 0
  {
    forall i :: 0 <= i < |cases| ==> BlockOk(funs, inner, With(vars, CaseNames(cases[..i], Leaking)), cases[i].body)
  }

  // ----- what is declared -----

  lemma WithOne(vars: Vars, x: Name, names: set<Name>)
    ensures With(vars[x := Word], names) == With(vars, {x} + names)
  {
  }

  lemma NamesCons(names: seq<Name>)
    requires names != []
    ensures (set x | x in names) == {names[0]} + set x | x in names[1..]
  {
    assert names == [names[0]] + names[1..];
  }

  lemma {:induction false} DeclareWordsAre(vars: Vars, names: seq<Name>)
    ensures DeclareWords(vars, names) == With(vars, set x | x in names)
    decreases names
  {
    if names != [] {
      DeclareWordsAre(vars[names[0] := Word], names[1..]);
      WithOne(vars, names[0], set x | x in names[1..]);
      NamesCons(names);
    } else {
      assert (set x | x in names) == {};
    }
  }

  lemma WithTwice(vars: Vars, a: set<Name>, b: set<Name>)
    ensures With(With(vars, a), b) == With(vars, a + b)
    ensures With(vars, {}) == vars
  {
  }

  lemma {:induction false} VarsAfterStmt(funs: Funs, asmFuns: Funs, vars: Vars, s: YulStmt)
    ensures CheckAsmStmt(funs, asmFuns, vars, s).0 == With(vars, Names(s, Leaking))
    decreases s, 1
  {
    match s
    case YulLet(names, _) => DeclareWordsAre(vars, names);
    case YulIf(_, body) => VarsAfterBlock(funs, asmFuns, vars, body);
    case YulSwitch(_, _, _, _) => VarsAfterSwitch(funs, asmFuns, vars, s);
    case _ => WithTwice(vars, {}, {});
  }

  lemma {:induction false} VarsAfterSwitch(funs: Funs, asmFuns: Funs, vars: Vars, s: YulStmt)
    requires s.YulSwitch?
    ensures CheckAsmStmt(funs, asmFuns, vars, s).0 == With(vars, Names(s, Leaking))
    decreases s, 0
  {
    var names := CaseNames(s.cases, Leaking);
    VarsAfterCases(funs, asmFuns, vars, s.cases);
    if s.hasDefault {
      VarsAfterBlock(funs, asmFuns, With(vars, names), s.default);
      WithTwice(vars, names, AllNames(s.default, Leaking));
    } else {
      assert names + {} == names;
    }
  }

  lemma {:induction false} VarsAfterSeq(funs: Funs, asmFuns: Funs, vars: Vars, stmts: seq<YulStmt>)
    ensures CheckAsmSeq(funs, asmFuns, vars, stmts).0 == With(vars, AllNames(stmts, Leaking))
    decreases stmts, 0
  {
    if stmts == [] {
      WithTwice(vars, {}, {});
    } else {
      VarsAfterStmt(funs, asmFuns, vars, stmts[0]);
      VarsAfterSeq(funs, asmFuns, With(vars, Names(stmts[0], Leaking)), stmts[1..]);
      WithTwice(vars, Names(stmts[0], Leaking), AllNames(stmts[1..], Leaking));
    }
  }

  lemma {:induction false} VarsAfterBlock(funs: Funs, asmFuns: Funs, vars: Vars, stmts: seq<YulStmt>)
    ensures CheckAsmBlock(funs, asmFuns, vars, stmts).0 == With(vars, AllNames(stmts, Leaking))
    decreases stmts, 1
  {
    VarsAfterSeq(funs, asmFuns + Predeclare(map[], stmts).0, vars, stmts);
  }

  lemma {:induction false} VarsAfterCases(funs: Funs, asmFuns: Funs, vars: Vars, cases: seq<YulCase>)
    ensures CheckAsmCases(funs, asmFuns, vars, cases).0 == With(vars, CaseNames(cases, Leaking))
    decreases cases, 0
  {
    if cases == [] {
      WithTwice(vars, {}, {});
    } else {
      VarsAfterBlock(funs, asmFuns, vars, cases[0].body);
      VarsAfterCases(funs, asmFuns, With(vars, AllNames(cases[0].body, Leaking)), cases[1..]);
      WithTwice(vars, AllNames(cases[0].body, Leaking), CaseNames(cases[1..], Leaking));
    }
  }

  // ----- functions of a block -----

  lemma {:induction false} NReturnsCount(n: nat)
    ensures ReturnCount(NReturns(n)) == n
    ensures StripNamed(NReturns(n)) == NReturns(n)
    ensures NReturns(n) == Word <==> n == 1
    ensures NReturns(n) == Unit <==> n == 0
  {
    if n > 1 { NReturnsCount(n - 1); }
  }

  lemma DefinitionShape(s: YulStmt)
    requires s.YulFunctionDef?
    ensures ShapeOf(FunSig(Words(|s.params|), NReturns(|s.rets|))) == Shape(|s.params|, |s.rets|)
  {
    NReturnsCount(|s.rets|);
  }

  /** Some definition among the statements has the name. */
  ghost predicate DefinedIn(stmts: seq<YulStmt>, x: Name) {
    exists i :: 0 <= i < |stmts| && stmts[i].YulFunctionDef? && stmts[i].name == x
  }

  ghost predicate Distinct(stmts: seq<YulStmt>) {
    forall i, j :: 0 <= i < j < |stmts| && stmts[i].YulFunctionDef? && stmts[j].YulFunctionDef? ==>
      stmts[i].name != stmts[j].name
  }

  lemma DefinedInCons(stmts: seq<YulStmt>, x: Name)
    requires stmts != []
    ensures DefinedIn(stmts, x) <==> (stmts[0].YulFunctionDef? && stmts[0].name == x) || DefinedIn(stmts[1..], x)
  {
    if DefinedIn(stmts, x) {
      var i :| 0 <= i < |stmts| && stmts[i].YulFunctionDef? && stmts[i].name == x;
      if i > 0 { assert stmts[1..][i - 1].YulFunctionDef? && stmts[1..][i - 1].name == x; }
    }
    if DefinedIn(stmts[1..], x) {
      var i :| 0 <= i < |stmts[1..]| && stmts[1..][i].YulFunctionDef? && stmts[1..][i].name == x;
      assert stmts[i + 1].YulFunctionDef? && stmts[i + 1].name == x;
    }
  }

  lemma DistinctCons(stmts: seq<YulStmt>)
    requires stmts != []
    ensures Distinct(stmts) <==>
      Distinct(stmts[1..]) && (stmts[0].YulFunctionDef? ==> !DefinedIn(stmts[1..], stmts[0].name))
  {
    if Distinct(stmts) {
      forall i, j | 0 <= i < j < |stmts[1..]| && stmts[1..][i].YulFunctionDef? && stmts[1..][j].YulFunctionDef?
        ensures stmts[1..][i].name != stmts[1..][j].name
      {
        assert stmts[i + 1].name != stmts[j + 1].name;
      }
      forall i | 0 <= i < |stmts[1..]| && stmts[1..][i].YulFunctionDef? && stmts[0].YulFunctionDef?
        ensures stmts[1..][i].name != stmts[0].name
      {
        assert stmts[i + 1].name != stmts[0].name;
      }
    }
    if Distinct(stmts[1..]) && (stmts[0].YulFunctionDef? ==> !DefinedIn(stmts[1..], stmts[0].name)) {
      forall i, j | 0 <= i < j < |stmts| && stmts[i].YulFunctionDef? && stmts[j].YulFunctionDef?
        ensures stmts[i].name != stmts[j].name
      {
        assert stmts[1..][j - 1] == stmts[j];
        if i > 0 { assert stmts[1..][i - 1] == stmts[i]; }
      }
    }
  }

  /** Nothing is reported exactly when the names are new and distinct, and then the scope holds their shapes. */
  lemma {:induction false} PredeclareExactly(scope: Funs, stmts: seq<YulStmt>)
    ensures Predeclare(scope, stmts).1 == [] <==>
      Distinct(stmts) && forall x :: x in scope ==> !DefinedIn(stmts, x)
    ensures forall x :: x in Predeclare(scope, stmts).0 <==> x in scope || DefinedIn(stmts, x)
    decreases stmts
  {
    if stmts != [] {
      DistinctCons(stmts);
      forall x ensures DefinedIn(stmts, x) <==>
        (stmts[0].YulFunctionDef? && stmts[0].name == x) || DefinedIn(stmts[1..], x) { DefinedInCons(stmts, x); }
      if stmts[0].YulFunctionDef? {
        var sig := FunSig(Words(|stmts[0].params|), NReturns(|stmts[0].rets|));
        PredeclareExactly(scope[stmts[0].name := sig], stmts[1..]);
      } else {
        PredeclareExactly(scope, stmts[1..]);
      }
    }
  }

  lemma DefinitionAt(stmts: seq<YulStmt>, i: nat)
    requires i < |stmts| && stmts[i].YulFunctionDef?
    ensures DefinedIn(stmts, stmts[i].name)
  {
  }

  lemma {:induction false} PredeclaredEntries(scope: Funs, stmts: seq<YulStmt>)
    requires Predeclare(scope, stmts).1 == []
    ensures forall i :: 0 <= i < |stmts| && stmts[i].YulFunctionDef? ==>
      stmts[i].name in Predeclare(scope, stmts).0
      && ShapeOf(Predeclare(scope, stmts).0[stmts[i].name]) == Shape(|stmts[i].params|, |stmts[i].rets|)
    ensures forall x :: x in scope ==> x in Predeclare(scope, stmts).0 && Predeclare(scope, stmts).0[x] == scope[x]
    decreases stmts
  {
    if stmts != [] {
      PredeclareExactly(scope, stmts);
      if stmts[0].YulFunctionDef? {
        var scope1 := scope[stmts[0].name := FunSig(Words(|stmts[0].params|), NReturns(|stmts[0].rets|))];
        DefinitionAt(stmts, 0);
        PredeclaredEntries(scope1, stmts[1..]);
        DefinitionShape(stmts[0]);
        assert stmts[0].name in scope1;
      } else {
        PredeclaredEntries(scope, stmts[1..]);
      }
      forall i | 0 <= i < |stmts| && stmts[i].YulFunctionDef?
        ensures stmts[i].name in Predeclare(scope, stmts).0
        ensures ShapeOf(Predeclare(scope, stmts).0[stmts[i].name]) == Shape(|stmts[i].params|, |stmts[i].rets|)
      {
        if i > 0 { assert stmts[1..][i - 1] == stmts[i]; }
      }
    }
  }

  lemma PredeclaredDefines(stmts: seq<YulStmt>)
    requires Predeclare(map[], stmts).1 == []
    ensures Defines(stmts, ShapesOf(Predeclare(map[], stmts).0))
  {
    PredeclareExactly(map[], stmts);
    PredeclaredEntries(map[], stmts);
    forall x | x in ShapesOf(Predeclare(map[], stmts).0)
      ensures exists i :: 0 <= i < |stmts| && stmts[i].YulFunctionDef? && stmts[i].name == x
    {
      assert DefinedIn(stmts, x);
    }
  }

  lemma DefinesPredeclared(stmts: seq<YulStmt>, scope: Shapes)
    requires Defines(stmts, scope)
    ensures Predeclare(map[], stmts).1 == [] && scope == ShapesOf(Predeclare(map[], stmts).0)
  {
    PredeclareExactly(map[], stmts);
    assert Distinct(stmts);
    PredeclaredDefines(stmts);
    SameScope(stmts, scope, ShapesOf(Predeclare(map[], stmts).0));
  }

  lemma ScopeEntry(stmts: seq<YulStmt>, a: Shapes, b: Shapes, x: Name)
    requires Defines(stmts, a) && Defines(stmts, b) && x in a
    ensures x in b && a[x] == b[x]
  {
    var i :| 0 <= i < |stmts| && stmts[i].YulFunctionDef? && stmts[i].name == x;
    assert stmts[i].name in a && stmts[i].name in b;
  }

  lemma SameScope(stmts: seq<YulStmt>, a: Shapes, b: Shapes)
    requires Defines(stmts, a) && Defines(stmts, b)
    ensures a == b
  {
    forall x | x in a
      ensures x in b && a[x] == b[x]
    {
      ScopeEntry(stmts, a, b, x);
    }
    forall x | x in b
      ensures x in a
    {
      ScopeEntry(stmts, b, a, x);
    }
  }

  lemma ShapesOfBoth(outer: Funs, scope: Funs)
    ensures ShapesOf(outer + scope) == ShapesOf(outer) + ShapesOf(scope)
  {
  }

  // ----- expressions -----

  lemma BuiltinGives(name: Name)
    ensures AsmBuiltinSig(name).Some? ==> AsmBuiltinSig(name).value.ret == Word || AsmBuiltinSig(name).value.ret == Unit
  {
  }

  /** The types that assembly functions return tell their number of words. */
  ghost predicate Plain(t: Ty) {
    && (IsWordType(t) <==> ReturnCount(t) == 1)
    && (TypeEq(t, Unit) <==> ReturnCount(t) == 0)
  }

  lemma PlainReturns(n: nat)
    ensures Plain(NReturns(n)) && Plain(Word) && Plain(Unit)
  {
    NReturnsCount(n);
  }

  lemma WordSigShape(sig: FunSig)
    ensures ShapeOf(WordSig(sig)) == ShapeOf(sig) && Plain(WordSig(sig).ret)
  {
    NReturnsCount(ReturnCount(sig.ret));
    PlainReturns(ReturnCount(sig.ret));
  }

  lemma PrefixMeans(name: Name)
    ensures USR <= name <==> |name| >= 4 && name[..4] == "usr$"
    ensures |USR| == 4
  {
  }

  lemma LookupExactly(funs: Funs, asmFuns: Funs, name: Name, shape: Shape)
    ensures Resolves(ShapesOf(funs), ShapesOf(asmFuns), name, shape) <==>
      LookupAsmFun(funs, asmFuns, name).1 == [] && ShapeOf(LookupAsmFun(funs, asmFuns, name).0) == shape
    ensures Plain(LookupAsmFun(funs, asmFuns, name).0.ret)
  {
    PrefixMeans(name);
    PlainReturns(0);
    BuiltinGives(name);
    if name in asmFuns { WordSigShape(asmFuns[name]); }
    if name in funs { WordSigShape(funs[name]); }
    if |name| >= 4 && name[4..] in funs { WordSigShape(funs[name[4..]]); }
  }

  lemma {:induction false} ExprExactly(funs: Funs, asmFuns: Funs, vars: Vars, e: YulExpr)
    ensures var (t, d) := CheckAsmExpr(funs, asmFuns, vars, e);
      && (IsOneWord(ShapesOf(funs), ShapesOf(asmFuns), vars, e) <==> d == [] && IsWordType(t))
      && forall n: nat :: Gives(ShapesOf(funs), ShapesOf(asmFuns), vars, e, n) <==> d == [] && ReturnCount(t) == n
    decreases e
  {
    if e.YulCall? { CallExactly(funs, asmFuns, vars, e); }
  }

  lemma {:induction false} CallExactly(funs: Funs, asmFuns: Funs, vars: Vars, e: YulExpr)
    requires e.YulCall?
    ensures var (t, d) := CheckAsmExpr(funs, asmFuns, vars, e);
      && (IsOneWord(ShapesOf(funs), ShapesOf(asmFuns), vars, e) <==> d == [] && IsWordType(t))
      && forall n: nat :: Gives(ShapesOf(funs), ShapesOf(asmFuns), vars, e, n) <==> d == [] && ReturnCount(t) == n
    decreases e, 0
  {
    var fs, inner := ShapesOf(funs), ShapesOf(asmFuns);
    var (sig, d) := LookupAsmFun(funs, asmFuns, e.callee);
    ArgsExactly(funs, asmFuns, vars, e.args);
    LookupExactly(funs, asmFuns, e.callee, Shape(|e.args|, 1));
    forall n: nat
      ensures Resolves(fs, inner, e.callee, Shape(|e.args|, n)) <==>
        d == [] && |sig.args| == |e.args| && ReturnCount(sig.ret) == n
    {
      LookupExactly(funs, asmFuns, e.callee, Shape(|e.args|, n));
    }
  }

  ghost predicate EachIsWord(funs: Shapes, inner: Shapes, vars: Vars, args: seq<YulExpr>) {
    forall i :: 0 <= i < |args| ==> IsOneWord(funs, inner, vars, args[i])
  }

  /** A property of every element, of the first one and of the rest. */
  lemma EachCons<T>(p: T -> bool, s: seq<T>, first: T, rest: seq<T>)
    requires s == [first] + rest
    ensures (forall i :: 0 <= i < |s| ==> p(s[i])) <==> p(first) && forall i :: 0 <= i < |rest| ==> p(rest[i])
  {
    assert s[0] == first;
    forall i | 0 <= i < |rest| ensures rest[i] == s[i + 1] { }
    forall i | 0 < i < |s| ensures s[i] == rest[i - 1] { }
    if forall i :: 0 <= i < |s| ==> p(s[i]) {
      forall i | 0 <= i < |rest| ensures p(rest[i]) {
        assert p(s[i + 1]);
      }
    }
  }

  lemma EachIsWordCons(funs: Shapes, inner: Shapes, vars: Vars, args: seq<YulExpr>, first: YulExpr, rest: seq<YulExpr>)
    requires args == [first] + rest
    ensures EachIsWord(funs, inner, vars, args) <==>
      IsOneWord(funs, inner, vars, first) && EachIsWord(funs, inner, vars, rest)
  {
    EachCons(e => IsOneWord(funs, inner, vars, e), args, first, rest);
  }

  lemma {:induction false} ArgsExactly(funs: Funs, asmFuns: Funs, vars: Vars, args: seq<YulExpr>)
    ensures CheckAsmArgs(funs, asmFuns, vars, args) == [] <==>
      EachIsWord(ShapesOf(funs), ShapesOf(asmFuns), vars, args)
    decreases args, 1
  {
    if args != [] {
      ExprExactly(funs, asmFuns, vars, args[0]);
      ArgsExactly(funs, asmFuns, vars, args[1..]);
      assert args == [args[0]] + args[1..];
      EachIsWordCons(ShapesOf(funs), ShapesOf(asmFuns), vars, args, args[0], args[1..]);
    }
  }

  lemma ArgExactly(funs: Funs, asmFuns: Funs, vars: Vars, e: YulExpr)
    ensures CheckAsmArg(funs, asmFuns, vars, e) == [] <==> IsOneWord(ShapesOf(funs), ShapesOf(asmFuns), vars, e)
  {
    ExprExactly(funs, asmFuns, vars, e);
  }

  lemma NothingExactly(funs: Funs, asmFuns: Funs, vars: Vars, e: YulExpr)
    ensures IsNothing(ShapesOf(funs), ShapesOf(asmFuns), vars, e) <==>
      CheckAsmExpr(funs, asmFuns, vars, e).1 == [] && TypeEq(CheckAsmExpr(funs, asmFuns, vars, e).0, Unit)
  {
    ExprExactly(funs, asmFuns, vars, e);
    if e.YulCall? { LookupExactly(funs, asmFuns, e.callee, Shape(|e.args|, 0)); }
  }

  lemma {:induction false} TargetsExactly(vars: Vars, names: seq<Name>)
    ensures CheckAsmTargets(vars, names) == [] <==> forall x :: x in names ==> x in vars && StripNamed(vars[x]) == Word
    decreases names
  {
    if names != [] {
      TargetsExactly(vars, names[1..]);
      assert names == [names[0]] + names[1..];
    }
  }

  // ----- statements -----

  lemma FirstNames(stmts: seq<YulStmt>, i: nat)
    requires i < |stmts|
    ensures AllNames(stmts[..i + 1], Leaking) == Names(stmts[0], Leaking) + AllNames(stmts[1..][..i], Leaking)
  {
    assert stmts[..i + 1][0] == stmts[0] && stmts[..i + 1][1..] == stmts[1..][..i];
  }

  lemma SeqOkCons(funs: Shapes, inner: Shapes, vars: Vars, stmts: seq<YulStmt>)
    requires stmts != []
    ensures SeqOk(funs, inner, vars, stmts) <==>
      Ok(funs, inner, vars, stmts[0]) && SeqOk(funs, inner, With(vars, Names(stmts[0], Leaking)), stmts[1..])
  {
    var vars1 := With(vars, Names(stmts[0], Leaking));
    assert stmts[..0] == [];
    WithTwice(vars, {}, {});
    forall i | 0 <= i < |stmts| - 1
      ensures With(vars, AllNames(stmts[..i + 1], Leaking)) == With(vars1, AllNames(stmts[1..][..i], Leaking))
      ensures stmts[i + 1] == stmts[1..][i]
    {
      FirstNames(stmts, i);
      WithTwice(vars, Names(stmts[0], Leaking), AllNames(stmts[1..][..i], Leaking));
    }
    if SeqOk(funs, inner, vars, stmts) {
      assert Ok(funs, inner, With(vars, AllNames(stmts[..0], Leaking)), stmts[0]);
      forall i | 0 <= i < |stmts[1..]|
        ensures Ok(funs, inner, With(vars1, AllNames(stmts[1..][..i], Leaking)), stmts[1..][i])
      {
        assert Ok(funs, inner, With(vars, AllNames(stmts[..i + 1], Leaking)), stmts[i + 1]);
      }
    }
    if Ok(funs, inner, vars, stmts[0]) && SeqOk(funs, inner, vars1, stmts[1..]) {
      forall i | 0 <= i < |stmts|
        ensures Ok(funs, inner, With(vars, AllNames(stmts[..i], Leaking)), stmts[i])
      {
        if i > 0 {
          assert Ok(funs, inner, With(vars1, AllNames(stmts[1..][..i - 1], Leaking)), stmts[1..][i - 1]);
        }
      }
    }
  }

  lemma FirstCaseNames(cases: seq<YulCase>, i: nat)
    requires i < |cases|
    ensures CaseNames(cases[..i + 1], Leaking) == AllNames(cases[0].body, Leaking) + CaseNames(cases[1..][..i], Leaking)
  {
    assert cases[..i + 1][0] == cases[0] && cases[..i + 1][1..] == cases[1..][..i];
  }

  lemma CasesOkCons(funs: Shapes, inner: Shapes, vars: Vars, cases: seq<YulCase>)
    requires cases != []
    ensures CasesOk(funs, inner, vars, cases) <==>
      BlockOk(funs, inner, vars, cases[0].body)
      && CasesOk(funs, inner, With(vars, AllNames(cases[0].body, Leaking)), cases[1..])
  {
    var vars1 := With(vars, AllNames(cases[0].body, Leaking));
    assert cases[..0] == [];
    WithTwice(vars, {}, {});
    forall i | 0 <= i < |cases| - 1
      ensures With(vars, CaseNames(cases[..i + 1], Leaking)) == With(vars1, CaseNames(cases[1..][..i], Leaking))
      ensures cases[i + 1] == cases[1..][i]
    {
      FirstCaseNames(cases, i);
      WithTwice(vars, AllNames(cases[0].body, Leaking), CaseNames(cases[1..][..i], Leaking));
    }
    if CasesOk(funs, inner, vars, cases) {
      assert BlockOk(funs, inner, With(vars, CaseNames(cases[..0], Leaking)), cases[0].body);
      forall i | 0 <= i < |cases[1..]|
        ensures BlockOk(funs, inner, With(vars1, CaseNames(cases[1..][..i], Leaking)), cases[1..][i].body)
      {
        assert BlockOk(funs, inner, With(vars, CaseNames(cases[..i + 1], Leaking)), cases[i + 1].body);
      }
    }
    if BlockOk(funs, inner, vars, cases[0].body) && CasesOk(funs, inner, vars1, cases[1..]) {
      forall i | 0 <= i < |cases|
        ensures BlockOk(funs, inner, With(vars, CaseNames(cases[..i], Leaking)), cases[i].body)
      {
        if i > 0 {
          assert BlockOk(funs, inner, With(vars1, CaseNames(cases[1..][..i - 1], Leaking)), cases[1..][i - 1].body);
        }
      }
    }
  }

  lemma {:induction false} SeqExactly(funs: Funs, asmFuns: Funs, vars: Vars, stmts: seq<YulStmt>)
    ensures CheckAsmSeq(funs, asmFuns, vars, stmts).1 == [] <==>
      SeqOk(ShapesOf(funs), ShapesOf(asmFuns), vars, stmts)
    decreases stmts, 0
  {
    if stmts != [] {
      SeqOkCons(ShapesOf(funs), ShapesOf(asmFuns), vars, stmts);
      StmtExactly(funs, asmFuns, vars, stmts[0]);
      VarsAfterStmt(funs, asmFuns, vars, stmts[0]);
      SeqExactly(funs, asmFuns, With(vars, Names(stmts[0], Leaking)), stmts[1..]);
    }
  }

  lemma BlockOkWith(funs: Shapes, outer: Shapes, vars: Vars, stmts: seq<YulStmt>, scope: Shapes)
    requires Defines(stmts, scope)
    ensures BlockOk(funs, outer, vars, stmts) <==> SeqOk(funs, outer + scope, vars, stmts)
  {
    forall other | Defines(stmts, other)
      ensures other == scope
    {
      SameScope(stmts, other, scope);
    }
  }

  /** A block is accepted exactly when the rules allow it. */
  lemma {:induction false} BlockExactly(funs: Funs, asmFuns: Funs, vars: Vars, stmts: seq<YulStmt>)
    ensures CheckAsmBlock(funs, asmFuns, vars, stmts).1 == [] <==>
      BlockOk(ShapesOf(funs), ShapesOf(asmFuns), vars, stmts)
    decreases stmts, 1
  {
    var scope := Predeclare(map[], stmts).0;
    SeqExactly(funs, asmFuns + scope, vars, stmts);
    ShapesOfBoth(asmFuns, scope);
    if Predeclare(map[], stmts).1 == [] {
      PredeclaredDefines(stmts);
      BlockOkWith(ShapesOf(funs), ShapesOf(asmFuns), vars, stmts, ShapesOf(scope));
    } else {
      forall other: Shapes
        ensures !Defines(stmts, other)
      {
        if Defines(stmts, other) { DefinesPredeclared(stmts, other); }
      }
    }
  }

  lemma {:induction false} CasesExactly(funs: Funs, asmFuns: Funs, vars: Vars, cases: seq<YulCase>)
    ensures CheckAsmCases(funs, asmFuns, vars, cases).1 == [] <==>
      CasesOk(ShapesOf(funs), ShapesOf(asmFuns), vars, cases)
    decreases cases, 0
  {
    if cases != [] {
      CasesOkCons(ShapesOf(funs), ShapesOf(asmFuns), vars, cases);
      BlockExactly(funs, asmFuns, vars, cases[0].body);
      VarsAfterBlock(funs, asmFuns, vars, cases[0].body);
      CasesExactly(funs, asmFuns, With(vars, AllNames(cases[0].body, Leaking)), cases[1..]);
    }
  }

  lemma {:induction false} LoopExactly(funs: Funs, asmFuns: Funs, vars: Vars, s: YulStmt)
    requires s.YulFor?
    ensures CheckAsmStmt(funs, asmFuns, vars, s).1 == [] <==> Ok(ShapesOf(funs), ShapesOf(asmFuns), vars, s)
    decreases s, 0
  {
    var (scope, d0) := Predeclare(map[], s.init);
    var inner, vars1 := asmFuns + scope, With(vars, AllNames(s.init, Leaking));
    SeqExactly(funs, inner, vars, s.init);
    VarsAfterSeq(funs, inner, vars, s.init);
    ArgExactly(funs, inner, vars1, s.cond);
    BlockExactly(funs, inner, vars1, s.post);
    BlockExactly(funs, inner, vars1, s.body);
    ShapesOfBoth(asmFuns, scope);
    if d0 == [] {
      PredeclaredDefines(s.init);
      forall other | Defines(s.init, other)
        ensures other == ShapesOf(scope)
      {
        SameScope(s.init, other, ShapesOf(scope));
      }
    } else {
      forall other: Shapes
        ensures !Defines(s.init, other)
      {
        if Defines(s.init, other) { DefinesPredeclared(s.init, other); }
      }
    }
  }

  lemma {:induction false} SwitchExactly(funs: Funs, asmFuns: Funs, vars: Vars, s: YulStmt)
    requires s.YulSwitch?
    ensures CheckAsmStmt(funs, asmFuns, vars, s).1 == [] <==> Ok(ShapesOf(funs), ShapesOf(asmFuns), vars, s)
    decreases s, 0
  {
    ArgExactly(funs, asmFuns, vars, s.e);
    CasesExactly(funs, asmFuns, vars, s.cases);
    VarsAfterCases(funs, asmFuns, vars, s.cases);
    if s.hasDefault {
      BlockExactly(funs, asmFuns, With(vars, CaseNames(s.cases, Leaking)), s.default);
    }
  }

  lemma {:induction false} DefinitionExactly(funs: Funs, asmFuns: Funs, vars: Vars, s: YulStmt)
    requires s.YulFunctionDef?
    ensures CheckAsmStmt(funs, asmFuns, vars, s).1 == [] <==> Ok(ShapesOf(funs), ShapesOf(asmFuns), vars, s)
    decreases s, 0
  {
    var ps, rs := set x | x in s.params, set x | x in s.rets;
    DeclareWordsAre(map[], s.params);
    DeclareWordsAre(With(map[], ps), s.rets);
    WithTwice(map[], ps, rs);
    BlockExactly(funs, asmFuns, With(map[], ps + rs), s.body);
  }

  lemma SimpleExactly(funs: Funs, asmFuns: Funs, vars: Vars, s: YulStmt)
    requires s.YulLet? || s.YulAssign? || s.YulExprStmt?
    ensures CheckAsmStmt(funs, asmFuns, vars, s).1 == [] <==> Ok(ShapesOf(funs), ShapesOf(asmFuns), vars, s)
  {
    match s
    case YulLet(_, initial) =>
      if initial.Some? { ExprExactly(funs, asmFuns, vars, initial.value); }
    case YulAssign(names, value) =>
      TargetsExactly(vars, names);
      ExprExactly(funs, asmFuns, vars, value);
    case YulExprStmt(e) => NothingExactly(funs, asmFuns, vars, e);
  }

  /** A statement is accepted exactly when the rules allow it. */
  lemma {:induction false} StmtExactly(funs: Funs, asmFuns: Funs, vars: Vars, s: YulStmt)
    ensures CheckAsmStmt(funs, asmFuns, vars, s).1 == [] <==> Ok(ShapesOf(funs), ShapesOf(asmFuns), vars, s)
    decreases s, 1
  {
    match s
    case YulBlock(body) => BlockExactly(funs, asmFuns, vars, body);
    case YulIf(cond, body) =>
      ArgExactly(funs, asmFuns, vars, cond);
      BlockExactly(funs, asmFuns, vars, body);
    case YulFor(_, _, _, _) => LoopExactly(funs, asmFuns, vars, s);
    case YulSwitch(_, _, _, _) => SwitchExactly(funs, asmFuns, vars, s);
    case YulFunctionDef(_, _, _, _) => DefinitionExactly(funs, asmFuns, vars, s);
    case YulLet(_, _) => SimpleExactly(funs, asmFuns, vars, s);
    case YulAssign(_, _) => SimpleExactly(funs, asmFuns, vars, s);
    case YulExprStmt(_) => SimpleExactly(funs, asmFuns, vars, s);
    case _ =>
  }
}
