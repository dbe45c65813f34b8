/** What an assembly block declares, and which variables of the scopes around it the block assigns. */
module HullAsmNames {
  import opened HullIr

  /** How far a `let` in the body of an `if` or a `switch` reaches. */
  datatype Reach = Leaking | Scoped

  /** What a statement leaves declared for the statements behind it. */
  function Names(s: YulStmt, reach: Reach): set<Name>
    decreases s, 0
  {
    match s
    case YulLet(names, _) => set x | x in names
    case YulIf(_, body) => if reach.Scoped? then {} else AllNames(body, reach)
    case YulSwitch(_, cases, hasDefault, default) =>
      if reach.Scoped? then {}
      else CaseNames(cases, reach) + if hasDefault then AllNames(default, reach) else {}
    case _ => {}
  }

  function AllNames(stmts: seq<YulStmt>, reach: Reach): set<Name>
    decreases stmts, 0
  {
    if stmts == [] then {} else Names(stmts[0], reach) + AllNames(stmts[1..], reach)
  }

  function CaseNames(cases: seq<YulCase>, reach: Reach): set<Name>
    decreases cases, 0
  {
    if cases == [] then {} else AllNames(cases[0].body, reach) + CaseNames(cases[1..], reach)
  }

  /** The variables that a statement assigns other than those in `locals`; a function assigns only its own. */
  function Targets(s: YulStmt, locals: set<Name>, reach: Reach): set<Name>
    decreases s, 0
  {
    match s
    case YulBlock(body) => AllTargets(body, locals, reach)
    case YulAssign(names, _) => (set x | x in names) - locals
    case YulIf(_, body) => AllTargets(body, locals, reach)
    case YulFor(init, _, post, body) =>
      var inner := locals + AllNames(init, reach);
      AllTargets(init, locals, reach) + AllTargets(post, inner, reach) + AllTargets(body, inner, reach)
    case YulSwitch(_, cases, hasDefault, default) =>
      var inner := if reach.Scoped? then locals else locals + CaseNames(cases, reach);
      CaseTargets(cases, locals, reach) + if hasDefault then AllTargets(default, inner, reach) else {}
    case _ => {}
  }

  function AllTargets(stmts: seq<YulStmt>, locals: set<Name>, reach: Reach): set<Name>
    decreases stmts, 0
  {
    if stmts == [] then {}
    else Targets(stmts[0], locals, reach) + AllTargets(stmts[1..], locals + Names(stmts[0], reach), reach)
  }

  function CaseTargets(cases: seq<YulCase>, locals: set<Name>, reach: Reach): set<Name>
    decreases cases, 0
  {
    if cases == [] then {}
    else
      var next := if reach.Scoped? then locals else locals + AllNames(cases[0].body, reach);
      AllTargets(cases[0].body, locals, reach) + CaseTargets(cases[1..], next, reach)
  }
}
