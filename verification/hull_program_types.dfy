/** The types that a Hull program declares and names, and what they have to satisfy for references to have a meaning. */
module HullProgramTypes {
  import opened HullIr
  import opened HullTypes
  import opened HullSoundness

  // Annotations of expressions are not among them: the checker compares them, and nothing is read at them.

  function ExprTypes(e: Expr): set<Ty>
    decreases e
  {
    match e.kind
    case WordLit(_) => {}
    case BoolLit(_) => {}
    case UnitLit => {}
    case Var(_) => {}
    case Pair(a, b) => ExprTypes(a) + ExprTypes(b)
    case Fst(a) => ExprTypes(a)
    case Snd(a) => ExprTypes(a)
    case Inl(t, a) => {t} + ExprTypes(a)
    case Inr(t, a) => {t} + ExprTypes(a)
    case InK(_, t, a) => {t} + ExprTypes(a)
    case Call(_, args) => ArgTypes(args)
    case If(t, a, b, c) => {t} + ExprTypes(a) + ExprTypes(b) + ExprTypes(c)
  }

  function ArgTypes(args: seq<Expr>): set<Ty>
    decreases args
  {
    if args == [] then {} else ExprTypes(args[0]) + ArgTypes(args[1..])
  }

  function BodyTypes(body: seq<Stmt>): set<Ty>
    decreases body
  {
    if body == [] then {} else StmtTypes(body[0]) + BodyTypes(body[1..])
  }

  function AltTypes(alts: seq<Alt>): set<Ty>
    decreases alts
  {
    if alts == [] then {} else BodyTypes(alts[0].body) + AltTypes(alts[1..])
  }

  function StmtTypes(s: Stmt): set<Ty>
    decreases s
  {
    match s
    case Let(_, t) => {t}
    case Assign(l, r) => ExprTypes(l) + ExprTypes(r)
    case ExprStmt(e) => ExprTypes(e)
    case Return(e) => ExprTypes(e)
    case Block(body) => BodyTypes(body)
    case For(init, cond, post, body) => BodyTypes(init) + ExprTypes(cond) + BodyTypes(post) + BodyTypes(body)
    case Match(t, e, alts) => {t} + ExprTypes(e) + AltTypes(alts)
    case _ => {}
  }

  function FunctionTypes(f: FunctionDef): set<Ty> {
    (set a | a in f.args :: a.ty) + {f.ret} + BodyTypes(f.body)
  }

  function FunctionsTypes(fs: seq<FunctionDef>): set<Ty> {
    if fs == [] then {} else FunctionTypes(fs[0]) + FunctionsTypes(fs[1..])
  }

  function ObjectsTypes(os: seq<Object>): set<Ty>
    decreases os
  {
    if os == [] then {}
    else
      FunctionsTypes(os[0].functions) + BodyTypes(os[0].stmts) + ObjectsTypes(os[0].inners) + ObjectsTypes(os[1..])
  }

  function ProgramTypes(p: Program): set<Ty> {
    FunctionsTypes(p.functions) + ObjectsTypes(p.objects)
  }

  ghost predicate AllCoherent(d: Defs, ts: set<Ty>) {
    forall t | t in ts :: Coherent(d, t)
  }

  /** Every type reference in the program has one meaning, given by `d`. */
  ghost predicate CoherentProgram(d: Defs, p: Program) {
    AllCoherent(d, ProgramTypes(p))
  }

  /** The same by a test on the types and the definitions. */
  predicate MatchingProgram(d: Defs, p: Program) {
    DefsMatch(d) && forall t | t in ProgramTypes(p) :: Matching(d, t)
  }

  lemma MatchingProgramIsCoherent(d: Defs, p: Program)
    requires MatchingProgram(d, p)
    ensures CoherentProgram(d, p)
  {
    forall t | t in ProgramTypes(p)
      ensures Coherent(d, t)
    {
      MatchingIsCoherent(d, t);
    }
  }

  // ----- from the types of a program to its parts -----

  lemma {:induction false} ExprPart(d: Defs, e: Expr)
    requires AllCoherent(d, ExprTypes(e))
    ensures CoherentExpr(d, e)
    decreases e
  {
    match e.kind
    case Pair(a, b) =>
      ExprPart(d, a);
      ExprPart(d, b);
    case Fst(a) => ExprPart(d, a);
    case Snd(a) => ExprPart(d, a);
    case Inl(_, a) => ExprPart(d, a);
    case Inr(_, a) => ExprPart(d, a);
    case InK(_, _, a) => ExprPart(d, a);
    case Call(_, args) => ArgsPart(d, args);
    case If(_, a, b, c) =>
      ExprPart(d, a);
      ExprPart(d, b);
      ExprPart(d, c);
    case _ =>
  }

  lemma {:induction false} ArgsPart(d: Defs, args: seq<Expr>)
    requires AllCoherent(d, ArgTypes(args))
    ensures forall a | a in args :: CoherentExpr(d, a)
    decreases args
  {
    if args != [] {
      ExprPart(d, args[0]);
      ArgsPart(d, args[1..]);
      assert args == [args[0]] + args[1..];
    }
  }

  lemma {:induction false} BodyPart(d: Defs, body: seq<Stmt>)
    requires AllCoherent(d, BodyTypes(body))
    ensures CoherentBody(d, body)
    decreases body
  {
    if body != [] {
      StmtPart(d, body[0]);
      BodyPart(d, body[1..]);
    }
  }

  lemma {:induction false} AltsPart(d: Defs, alts: seq<Alt>)
    requires AllCoherent(d, AltTypes(alts))
    ensures CoherentAlts(d, alts)
    decreases alts
  {
    if alts != [] {
      BodyPart(d, alts[0].body);
      AltsPart(d, alts[1..]);
    }
  }

  lemma {:induction false} StmtPart(d: Defs, s: Stmt)
    requires AllCoherent(d, StmtTypes(s))
    ensures CoherentStmt(d, s)
    decreases s
  {
    match s
    case Assign(l, r) =>
      ExprPart(d, l);
      ExprPart(d, r);
    case ExprStmt(e) => ExprPart(d, e);
    case Return(e) => ExprPart(d, e);
    case Block(body) => BodyPart(d, body);
    case For(init, cond, post, body) =>
      BodyPart(d, init);
      ExprPart(d, cond);
      BodyPart(d, post);
      BodyPart(d, body);
    case Match(_, e, alts) =>
      ExprPart(d, e);
      AltsPart(d, alts);
    case _ =>
  }

  lemma {:induction false} FunctionsPart(d: Defs, fs: seq<FunctionDef>)
    requires AllCoherent(d, FunctionsTypes(fs))
    ensures forall f | f in fs :: CoherentFunction(d, f)
    decreases fs
  {
    if fs != [] {
      BodyPart(d, fs[0].body);
      FunctionsPart(d, fs[1..]);
      assert fs == [fs[0]] + fs[1..];
    }
  }
}
