/** What accepted assembly assigns: word variables of the scopes around it, as far as the checker's scopes are right. */
module HullAsmTargets {
  // The checker gives the bodies of `if` and `switch` no scope of their own, so a variable declared there hides the one
  // around the block from the statements behind the `if`. In Yul it does not.

  import opened Wrappers
  import opened HullIr
  import opened HullTyping
  import opened HullAsmTyping
  import opened HullAsmNames
  import opened HullAsmJudgement

  ghost predicate AllWords(vars: Vars, names: set<Name>) {
    forall x :: x in names ==> x in vars && StripNamed(vars[x]) == Word
  }

  lemma {:induction false} AssignsWords(funs: Shapes, inner: Shapes, vars: Vars, locals: set<Name>, s: YulStmt)
    requires Ok(funs, inner, With(vars, locals), s)
    ensures AllWords(vars, Targets(s, locals, Leaking))
    decreases s, 0
  {
    match s
    case YulBlock(body) => BlockAssignsWords(funs, inner, vars, locals, body);
    case YulIf(_, body) => BlockAssignsWords(funs, inner, vars, locals, body);
    case YulFor(init, _, post, body) =>
      var scope :| Defines(init, scope) && LoopOk(funs, inner + scope, With(vars, locals), s);
      WithTwice(vars, locals, AllNames(init, Leaking));
      SeqAssignsWords(funs, inner + scope, vars, locals, init);
      BlockAssignsWords(funs, inner + scope, vars, locals + AllNames(init, Leaking), post);
      BlockAssignsWords(funs, inner + scope, vars, locals + AllNames(init, Leaking), body);
    case YulSwitch(_, cases, hasDefault, default) =>
      CasesAssignWords(funs, inner, vars, locals, cases);
      if hasDefault {
        WithTwice(vars, locals, CaseNames(cases, Leaking));
        BlockAssignsWords(funs, inner, vars, locals + CaseNames(cases, Leaking), default);
      }
    case _ =>
  }

  lemma {:induction false} SeqAssignsWords(
    funs: Shapes, inner: Shapes, vars: Vars, locals: set<Name>, stmts: seq<YulStmt>)
    requires SeqOk(funs, inner, With(vars, locals), stmts)
    ensures AllWords(vars, AllTargets(stmts, locals, Leaking))
    decreases stmts, 0
  {
    if stmts != [] {
      SeqOkCons(funs, inner, With(vars, locals), stmts);
      WithTwice(vars, locals, Names(stmts[0], Leaking));
      AssignsWords(funs, inner, vars, locals, stmts[0]);
      SeqAssignsWords(funs, inner, vars, locals + Names(stmts[0], Leaking), stmts[1..]);
    }
  }

  lemma {:induction false} BlockAssignsWords(
    funs: Shapes, outer: Shapes, vars: Vars, locals: set<Name>, stmts: seq<YulStmt>)
    requires BlockOk(funs, outer, With(vars, locals), stmts)
    ensures AllWords(vars, AllTargets(stmts, locals, Leaking))
    decreases stmts, 1
  {
    var scope :| Defines(stmts, scope) && SeqOk(funs, outer + scope, With(vars, locals), stmts);
    SeqAssignsWords(funs, outer + scope, vars, locals, stmts);
  }

  lemma {:induction false} CasesAssignWords(
    funs: Shapes, inner: Shapes, vars: Vars, locals: set<Name>, cases: seq<YulCase>)
    requires CasesOk(funs, inner, With(vars, locals), cases)
    ensures AllWords(vars, CaseTargets(cases, locals, Leaking))
    decreases cases, 0
  {
    if cases != [] {
      CasesOkCons(funs, inner, With(vars, locals), cases);
      WithTwice(vars, locals, AllNames(cases[0].body, Leaking));
      BlockAssignsWords(funs, inner, vars, locals, cases[0].body);
      CasesAssignWords(funs, inner, vars, locals + AllNames(cases[0].body, Leaking), cases[1..]);
    }
  }

  /** A block without diagnostics assigns only variables of word types, in the scopes of the checker. */
  lemma AcceptedAssignsWords(funs: Funs, vars: Vars, stmts: seq<YulStmt>)
    requires CheckAsm(funs, vars, stmts) == []
    ensures AllWords(vars, AllTargets(stmts, {}, Leaking))
  {
    BlockExactly(funs, map[], vars, stmts);
    WithTwice(vars, {}, {});
    BlockAssignsWords(ShapesOf(funs), ShapesOf(map[]), vars, {}, stmts);
  }

  // ----- the scopes of Yul -----

  /** The variables that a block assigns in Yul and that the checker takes for local ones. */
  function Mistaken(stmts: seq<YulStmt>): set<Name> {
    AllTargets(stmts, {}, Scoped) - AllTargets(stmts, {}, Leaking)
  }

  /** In Yul, an accepted block assigns only variables of word types exactly when those are. */
  lemma YulAssignsWordsExactly(funs: Funs, vars: Vars, stmts: seq<YulStmt>)
    requires CheckAsm(funs, vars, stmts) == []
    ensures AllWords(vars, AllTargets(stmts, {}, Scoped)) <==> AllWords(vars, Mistaken(stmts))
  {
    AcceptedAssignsWords(funs, vars, stmts);
    forall x | x in AllTargets(stmts, {}, Scoped) && x !in Mistaken(stmts)
      ensures x in AllTargets(stmts, {}, Leaking)
    {
    }
  }

  /** `{ if 1 { let b := 1 } b := 2 }` */
  function HidingBlock(): seq<YulStmt> {
    [YulIf(YulLit("1"), [YulLet(["b"], Some(YulLit("1")))]), YulAssign(["b"], YulLit("2"))]
  }

  lemma HidingTargets(stmts: seq<YulStmt>)
    requires stmts == HidingBlock()
    ensures "b" in AllTargets(stmts, {}, Scoped)
  {
    assert stmts[1..] == [stmts[1]];
    assert Names(stmts[0], Scoped) == {};
    assert "b" in Targets(stmts[1], {}, Scoped);
  }

  lemma WithoutFunctions(funs: Shapes, outer: Shapes, vars: Vars, stmts: seq<YulStmt>)
    requires SeqOk(funs, outer, vars, stmts) && forall i :: 0 <= i < |stmts| ==> !stmts[i].YulFunctionDef?
    ensures BlockOk(funs, outer, vars, stmts)
  {
    assert Defines(stmts, map[]);
    assert outer + map[] == outer;
  }

  lemma OneStatement(funs: Shapes, inner: Shapes, vars: Vars, s: YulStmt)
    requires Ok(funs, inner, vars, s)
    ensures SeqOk(funs, inner, vars, [s])
  {
    SeqOkCons(funs, inner, vars, [s]);
    assert [s][1..] == [];
  }

  lemma TwoStatements(funs: Shapes, inner: Shapes, vars: Vars, a: YulStmt, b: YulStmt)
    requires Ok(funs, inner, vars, a) && Ok(funs, inner, With(vars, Names(a, Leaking)), b)
    ensures SeqOk(funs, inner, vars, [a, b])
  {
    SeqOkCons(funs, inner, vars, [a, b]);
    OneStatement(funs, inner, With(vars, Names(a, Leaking)), b);
    assert [a, b][1..] == [b];
  }

  lemma HidingBody(funs: Shapes, vars: Vars, body: seq<YulStmt>)
    requires body == [YulLet(["b"], Some(YulLit("1")))]
    ensures BlockOk(funs, map[], vars, body) && AllNames(body, Leaking) == {"b"}
  {
    OneStatement(funs, map[], vars, body[0]);
    WithoutFunctions(funs, map[], vars, body);
    assert body[1..] == [];
  }

  lemma HidingIsAccepted(funs: Shapes, vars: Vars, stmts: seq<YulStmt>)
    requires stmts == HidingBlock()
    ensures BlockOk(funs, map[], vars, stmts)
  {
    HidingBody(funs, vars, stmts[0].body);
    TwoStatements(funs, map[], vars, stmts[0], stmts[1]);
    assert stmts == [stmts[0], stmts[1]];
    WithoutFunctions(funs, map[], vars, stmts);
  }

  /** Whatever type the variable around the block has, the block is accepted, and in Yul it stores a word in it. */
  lemma HidingBlockStores(funs: Funs, t: Ty)
    ensures CheckAsm(funs, map["b" := t], HidingBlock()) == []
    ensures AllWords(map["b" := t], AllTargets(HidingBlock(), {}, Scoped)) <==> StripNamed(t) == Word
  {
    HidingBlockIsChecked(funs, map["b" := t], HidingBlock());
    HidingTargets(HidingBlock());
    OnlyTarget(HidingBlock());
  }

  lemma HidingBlockIsChecked(funs: Funs, vars: Vars, stmts: seq<YulStmt>)
    requires stmts == HidingBlock()
    ensures CheckAsm(funs, vars, stmts) == []
  {
    HidingIsAccepted(ShapesOf(funs), vars, stmts);
    BlockExactly(funs, map[], vars, stmts);
    assert ShapesOf(map[]) == map[];
  }

  lemma OnlyTarget(stmts: seq<YulStmt>)
    requires stmts == HidingBlock()
    ensures forall x :: x in AllTargets(stmts, {}, Scoped) ==> x == "b"
  {
    assert stmts[1..] == [stmts[1]] && stmts[1..][1..] == [];
    var body := stmts[0].body;
    assert body[1..] == [] && Targets(body[0], {}, Scoped) == {};
  }
}
