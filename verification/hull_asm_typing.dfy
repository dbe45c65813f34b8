/** The checks of inline assembly (crates/hull/src/check.rs:613-824). */
module HullAsmTyping {
  import opened Wrappers
  import opened HullIr
  import opened HullTyping
  import opened HullBuiltins

  /** `n_returns`: the type of `count` words side by side. */
  function NReturns(count: nat): Ty {
    if count == 0 then Unit
    else if count == 1 then Word
    else Product(Word, NReturns(count - 1))
  }

  function WordSig(sig: FunSig): FunSig {
    FunSig(Words(|sig.args|), NReturns(ReturnCount(sig.ret)))
  }

  const USR := "usr$"

  /** `lookup_asm_fun`. */
  function LookupAsmFun(funs: Funs, asmFuns: Funs, name: Name): (FunSig, seq<Diag>) {
    if USR <= name then
      var key := name[|USR|..];
      if key in funs then (WordSig(funs[key]), []) else (FunSig([], Unit), [UndefinedFunction(name)])
    else
      match AsmBuiltinSig(name)
      case Some(sig) => (sig, [])
      case None =>
        if name in asmFuns then (WordSig(asmFuns[name]), [])
        else if name in funs then (WordSig(funs[name]), [])
        else (FunSig([], Unit), [UndefinedFunction(name)])
  }

  function CheckAsmExpr(funs: Funs, asmFuns: Funs, vars: Vars, e: YulExpr): (Ty, seq<Diag>)
    decreases e, 0
  {
    match e
    case YulLit(_) => (Word, [])
    case YulIdent(x) => if x in vars then (vars[x], []) else (Word, [UndefinedVariable(x)])
    case YulCall(callee, args) =>
      var (sig, d) := LookupAsmFun(funs, asmFuns, callee);
      if |sig.args| != |args| then (sig.ret, d + [ArityMismatch(callee, |sig.args|, |args|)])
      else (sig.ret, d + CheckAsmArgs(funs, asmFuns, vars, args))
    case YulExprError => (Word, [])
  }

  function CheckAsmArgs(funs: Funs, asmFuns: Funs, vars: Vars, args: seq<YulExpr>): seq<Diag>
    decreases args, 0
  {
    if args == [] then []
    else CheckAsmArg(funs, asmFuns, vars, args[0]) + CheckAsmArgs(funs, asmFuns, vars, args[1..])
  }

  function CheckAsmArg(funs: Funs, asmFuns: Funs, vars: Vars, e: YulExpr): seq<Diag>
    decreases e, 1
  {
    var (t, d) := CheckAsmExpr(funs, asmFuns, vars, e);
    if IsWordType(t) then d
    else if TypeEq(t, Unit) then d + [AssemblyVoidArgument]
    else d + [AssemblyExpectedWordArgument(t)]
  }

  function DeclareWords(vars: Vars, names: seq<Name>): Vars
    decreases names
  {
    if names == [] then vars else DeclareWords(vars[names[0] := Word], names[1..])
  }

  function CheckAsmTargets(vars: Vars, names: seq<Name>): seq<Diag> {
    if names == [] then [] else CheckAsmTarget(vars, names[0]) + CheckAsmTargets(vars, names[1..])
  }

  function CheckAsmTarget(vars: Vars, name: Name): seq<Diag> {
    if name !in vars then [UndefinedVariable(name)]
    else if !IsWordType(vars[name]) then [AssemblyExpectedWordAssignment(name, vars[name])]
    else []
  }

  function ExpectCount(expected: nat, actual: nat): seq<Diag> {
    if actual == expected then [] else [AssemblyReturnCountMismatch(expected, actual)]
  }

  /** `predeclare_asm_functions` on a scope that holds `scope` already. */
  function Predeclare(scope: Funs, stmts: seq<YulStmt>): (Funs, seq<Diag>)
    decreases stmts
  {
    if stmts == [] then (scope, [])
    else if stmts[0].YulFunctionDef? then
      var f := stmts[0];
      var (rest, d) := Predeclare(scope[f.name := FunSig(Words(|f.params|), NReturns(|f.rets|))], stmts[1..]);
      (rest, (if f.name in scope then [DuplicateFunction(f.name)] else []) + d)
    else Predeclare(scope, stmts[1..])
  }

  /** The bodies of `if` and `switch` get no variable scope of their own, so a block returns its variables. */
  function CheckAsmBlock(funs: Funs, asmFuns: Funs, vars: Vars, stmts: seq<YulStmt>): (Vars, seq<Diag>)
    decreases stmts, 1
  {
    var (scope, d1) := Predeclare(map[], stmts);
    var (vars', d2) := CheckAsmSeq(funs, asmFuns + scope, vars, stmts);
    (vars', d1 + d2)
  }

  function CheckAsmSeq(funs: Funs, asmFuns: Funs, vars: Vars, stmts: seq<YulStmt>): (Vars, seq<Diag>)
    decreases stmts, 0
  {
    if stmts == [] then (vars, [])
    else
      var (vars1, d1) := CheckAsmStmt(funs, asmFuns, vars, stmts[0]);
      var (vars2, d2) := CheckAsmSeq(funs, asmFuns, vars1, stmts[1..]);
      (vars2, d1 + d2)
  }

  function CheckAsmCases(funs: Funs, asmFuns: Funs, vars: Vars, cases: seq<YulCase>): (Vars, seq<Diag>)
    decreases cases, 0
  {
    if cases == [] then (vars, [])
    else
      var (vars1, d1) := CheckAsmBlock(funs, asmFuns, vars, cases[0].body);
      var (vars2, d2) := CheckAsmCases(funs, asmFuns, vars1, cases[1..]);
      (vars2, d1 + d2)
  }

  function CheckAsmStmt(funs: Funs, asmFuns: Funs, vars: Vars, s: YulStmt): (Vars, seq<Diag>)
    decreases s, 0
  {
    match s
    case YulBlock(body) => (vars, CheckAsmBlock(funs, asmFuns, vars, body).1)
    case YulLet(names, initial) =>
      (match initial
       case None => (DeclareWords(vars, names), [])
       case Some(e) =>
         var (t, d) := CheckAsmExpr(funs, asmFuns, vars, e);
         (DeclareWords(vars, names), d + ExpectCount(|names|, ReturnCount(t))))
    case YulAssign(names, value) =>
      var (t, d) := CheckAsmExpr(funs, asmFuns, vars, value);
      (vars, CheckAsmTargets(vars, names) + d + ExpectCount(|names|, ReturnCount(t)))
    case YulExprStmt(e) =>
      var (t, d) := CheckAsmExpr(funs, asmFuns, vars, e);
      (vars, d + if TypeEq(t, Unit) then [] else [AssemblyExpressionNotUnit(t)])
    case YulIf(cond, body) =>
      var d1 := CheckAsmArg(funs, asmFuns, vars, cond);
      var (vars', d2) := CheckAsmBlock(funs, asmFuns, vars, body);
      (vars', d1 + d2)
    case YulFor(init, cond, post, body) =>
      var (scope, d0) := Predeclare(map[], init);
      var inner := asmFuns + scope;
      var (vars1, d1) := CheckAsmSeq(funs, inner, vars, init);
      (vars, d0 + d1 + CheckAsmArg(funs, inner, vars1, cond)
             + CheckAsmBlock(funs, inner, vars1, post).1
             + CheckAsmBlock(funs, inner, vars1, body).1)
    case YulSwitch(e, cases, hasDefault, default) =>
      var d1 := CheckAsmArg(funs, asmFuns, vars, e);
      var (vars1, d2) := CheckAsmCases(funs, asmFuns, vars, cases);
      if hasDefault then
        var (vars2, d3) := CheckAsmBlock(funs, asmFuns, vars1, default);
        (vars2, d1 + d2 + d3)
      else (vars1, d1 + d2)
    case YulFunctionDef(_, params, rets, body) =>
      (vars, CheckAsmBlock(funs, asmFuns, DeclareWords(DeclareWords(map[], params), rets), body).1)
    case _ => (vars, [])
  }

  // ----- whole programs -----

  /** The assembly checker of `check_program_with_db`. */
  function CheckAsm(funs: Funs, vars: Vars, asm: seq<YulStmt>): seq<Diag> {
    CheckAsmBlock(funs, map[], vars, asm).1
  }

  /** `check_program_with_db`, and without a database `check_program`. */
  function CheckProgram(db: bool, p: Program): (r: seq<Diag>) {
    CheckProgramWith(if db then Some(CheckAsm) else None, BuiltinFuns(), p)
  }
}
