/** The text of Hull types and expressions (crates/hull/src/pretty.rs). */
module HullPrinter {
  // `TyTo` and `ExprTo` are the same texts in front of what comes behind them; `HullReader` reads them back.

  import opened HullIr
  import WordLiterals

  // ----- printing -----

  function Joined(parts: seq<string>): string {
    if parts == [] then "" else if |parts| == 1 then parts[0] else parts[0] + ", " + Joined(parts[1..])
  }

  function WriteTy(t: Ty): string {
    match t
    case Word => "word"
    case Bool => "bool"
    case Unit => "unit"
    case Product(lhs, rhs) => "(" + WriteTy(lhs) + " * " + WriteTy(rhs) + ")"
    case Sum(lhs, rhs) => "(" + WriteTy(lhs) + " + " + WriteTy(rhs) + ")"
    case Named(name, inner) => name + "{" + WriteTy(inner) + "}"
    case NamedRef(name) => name
    case Function(params, ret) => "(" + Joined(WriteTys(params)) + " -> " + WriteTy(ret) + ")"
  }

  function WriteTys(ts: seq<Ty>): seq<string> {
    if ts == [] then [] else [WriteTy(ts[0])] + WriteTys(ts[1..])
  }

  function WriteExpr(e: Expr): string {
    match e.kind
    case WordLit(literal) => literal
    case BoolLit(b) => if b then "true" else "false"
    case UnitLit => "()"
    case Var(name) => name
    case Pair(e1, e2) => "(" + WriteExpr(e1) + ", " + WriteExpr(e2) + ")"
    case Fst(e1) => "fst(" + WriteExpr(e1) + ")"
    case Snd(e1) => "snd(" + WriteExpr(e1) + ")"
    case Inl(target, e1) => "inl<" + WriteTy(target) + ">(" + WriteExpr(e1) + ")"
    case Inr(target, e1) => "inr<" + WriteTy(target) + ">(" + WriteExpr(e1) + ")"
    case InK(index, target, e1) =>
      "in(" + WordLiterals.Decimal(index) + ")<" + WriteTy(target) + ">(" + WriteExpr(e1) + ")"
    case Call(callee, args) => callee + "(" + Joined(WriteExprs(args)) + ")"
    case If(target, cond, thn, els) =>
      "if<" + WriteTy(target) + "> " + WriteExpr(cond) + " then (" + WriteExpr(thn) + ") else (" + WriteExpr(els) + ")"
  }

  function WriteExprs(es: seq<Expr>): seq<string> {
    if es == [] then [] else [WriteExpr(es[0])] + WriteExprs(es[1..])
  }

  // ----- what may be printed -----

  /** A character that does not end a name. */
  predicate NameChar(c: char) {
    c != ' ' && c != '(' && c != ')' && c != ',' && c != '<' && c != '>' && c != '{' && c != '}'
  }

  predicate Digit(c: char) {
    '0' <= c <= '9'
  }

  predicate Atom(s: string) {
    s != "" && forall i :: 0 <= i < |s| ==> NameChar(s[i])
  }

  predicate TypeName(name: Name) {
    Atom(name) && name != "word" && name != "bool" && name != "unit"
  }

  predicate Keyword(s: string) {
    || s == "true" || s == "false" || s == "fst" || s == "snd"
    || s == "inl" || s == "inr" || s == "in" || s == "if"
  }

  predicate ValueName(name: Name) {
    Atom(name) && !Digit(name[0]) && !Keyword(name)
  }

  predicate NumberText(s: string) {
    Atom(s) && Digit(s[0])
  }

  /** The names in the type are identifiers and no keywords. */
  predicate PrintableTy(t: Ty) {
    match t
    case Word => true
    case Bool => true
    case Unit => true
    case Product(lhs, rhs) => PrintableTy(lhs) && PrintableTy(rhs)
    case Sum(lhs, rhs) => PrintableTy(lhs) && PrintableTy(rhs)
    case Named(name, inner) => TypeName(name) && PrintableTy(inner)
    case NamedRef(name) => TypeName(name)
    case Function(params, ret) => (forall p | p in params :: PrintableTy(p)) && PrintableTy(ret)
  }

  predicate PrintableExpr(e: Expr) {
    match e.kind
    case WordLit(literal) => NumberText(literal)
    case BoolLit(_) => true
    case UnitLit => true
    case Var(name) => ValueName(name)
    case Pair(e1, e2) => PrintableExpr(e1) && PrintableExpr(e2)
    case Fst(e1) => PrintableExpr(e1)
    case Snd(e1) => PrintableExpr(e1)
    case Inl(target, e1) => PrintableTy(target) && PrintableExpr(e1)
    case Inr(target, e1) => PrintableTy(target) && PrintableExpr(e1)
    case InK(_, target, e1) => PrintableTy(target) && PrintableExpr(e1)
    case Call(callee, args) => ValueName(callee) && forall a | a in args :: PrintableExpr(a)
    case If(target, cond, thn, els) =>
      PrintableTy(target) && PrintableExpr(cond) && PrintableExpr(thn) && PrintableExpr(els)
  }

  // ----- printing in front of a text -----

  /** What may follow a name without becoming part of it, nor of a longer form. */
  predicate Follow(s: string) {
    s == "" || s[0] == ' ' || s[0] == ',' || s[0] == ')' || s[0] == '>' || s[0] == '}'
  }

  function TyTo(t: Ty, s: string): string
    decreases t, 1
  {
    match t
    case Product(lhs, rhs) => "(" + TyTo(lhs, " * " + TyTo(rhs, ")" + s))
    case Sum(lhs, rhs) => "(" + TyTo(lhs, " + " + TyTo(rhs, ")" + s))
    case Function(params, ret) => "(" + TysTo(params, " -> " + TyTo(ret, ")" + s))
    case _ => TyAtom(t) + TyTail(t, s)
  }

  function TyAtom(t: Ty): string
    requires !t.Product? && !t.Sum? && !t.Function?
  {
    match t
    case Word => "word"
    case Bool => "bool"
    case Unit => "unit"
    case Named(name, _) => name
    case NamedRef(name) => name
  }

  function TyTail(t: Ty, s: string): string
    decreases t, 0
  {
    if t.Named? then "{" + TyTo(t.inner, "}" + s) else s
  }

  function TysTo(ts: seq<Ty>, s: string): string {
    if ts == [] then s else TyTo(ts[0], MoreTysTo(ts[1..], s))
  }

  function MoreTysTo(ts: seq<Ty>, s: string): string {
    if ts == [] then s else ", " + TyTo(ts[0], MoreTysTo(ts[1..], s))
  }

  lemma InFront(a: string, b: string, c: string, d: string, e: string, s: string)
    ensures a + b + c + d + e + s == a + (b + (c + (d + (e + s))))
  {
  }

  lemma {:induction false} TyToWrites(t: Ty, s: string)
    ensures TyTo(t, s) == WriteTy(t) + s
    decreases t
  {
    match t
    case Word =>
    case Bool =>
    case Unit =>
    case NamedRef(_) =>
    case Named(name, inner) =>
      TyToWrites(inner, "}" + s);
      InFront("", name, "{", WriteTy(inner), "}", s);
      assert "" + name == name && "" + (name + TyTail(t, s)) == name + TyTail(t, s);
    case Product(lhs, rhs) =>
      TyToWrites(rhs, ")" + s);
      TyToWrites(lhs, " * " + TyTo(rhs, ")" + s));
      InFront("(", WriteTy(lhs), " * ", WriteTy(rhs), ")", s);
    case Sum(lhs, rhs) =>
      TyToWrites(rhs, ")" + s);
      TyToWrites(lhs, " + " + TyTo(rhs, ")" + s));
      InFront("(", WriteTy(lhs), " + ", WriteTy(rhs), ")", s);
    case Function(params, ret) =>
      TyToWrites(ret, ")" + s);
      TysToWrites(params, " -> " + TyTo(ret, ")" + s));
      InFront("(", Joined(WriteTys(params)), " -> ", WriteTy(ret), ")", s);
  }

  lemma Behind(head: string, rest: string, s: string)
    ensures head + (", " + (rest + s)) == head + ", " + rest + s
  {
  }

  lemma JoinedTys(ts: seq<Ty>)
    requires ts != []
    ensures Joined(WriteTys(ts))
      == if ts[1..] == [] then WriteTy(ts[0]) else WriteTy(ts[0]) + ", " + Joined(WriteTys(ts[1..]))
  {
    assert WriteTys(ts)[1..] == WriteTys(ts[1..]);
  }

  lemma {:induction false} TysToWrites(ts: seq<Ty>, s: string)
    ensures TysTo(ts, s) == Joined(WriteTys(ts)) + s
    decreases ts
  {
    if ts != [] {
      TyToWrites(ts[0], MoreTysTo(ts[1..], s));
      JoinedTys(ts);
      if ts[1..] != [] {
        TysToWrites(ts[1..], s);
        Behind(WriteTy(ts[0]), Joined(WriteTys(ts[1..])), s);
      }
    }
  }

  // ----- expressions -----

  predicate IsAtomExpr(e: Expr) {
    !e.kind.UnitLit? && !e.kind.Pair?
  }

  function ExprAtom(e: Expr): string
    requires IsAtomExpr(e)
  {
    match e.kind
    case WordLit(literal) => literal
    case BoolLit(b) => if b then "true" else "false"
    case Var(name) => name
    case Fst(_) => "fst"
    case Snd(_) => "snd"
    case Inl(_, _) => "inl"
    case Inr(_, _) => "inr"
    case InK(_, _, _) => "in"
    case Call(callee, _) => callee
    case If(_, _, _, _) => "if"
  }

  function ExprTo(e: Expr, s: string): string
    decreases e, 1
  {
    match e.kind
    case UnitLit => "(" + (")" + s)
    case Pair(e1, e2) => "(" + ExprTo(e1, ", " + ExprTo(e2, ")" + s))
    case _ => ExprAtom(e) + ExprTail(e, s)
  }

  function Argument(e: Expr, s: string): string
    decreases e, 2
  {
    "(" + ExprTo(e, ")" + s)
  }

  function ExprTail(e: Expr, s: string): string
    requires IsAtomExpr(e)
    decreases e, 0
  {
    match e.kind
    case WordLit(_) => s
    case BoolLit(_) => s
    case Var(_) => s
    case Fst(e1) => Argument(e1, s)
    case Snd(e1) => Argument(e1, s)
    case Inl(target, e1) => "<" + TyTo(target, ">" + Argument(e1, s))
    case Inr(target, e1) => "<" + TyTo(target, ">" + Argument(e1, s))
    case InK(index, target, e1) =>
      "(" + (WordLiterals.Decimal(index) + (")<" + TyTo(target, ">" + Argument(e1, s))))
    case Call(_, args) => "(" + ExprsTo(args, ")" + s)
    case If(target, cond, thn, els) =>
      "<" + TyTo(target, "> " + ExprTo(cond, " then " + Argument(thn, " else " + Argument(els, s))))
  }

  function ExprsTo(es: seq<Expr>, s: string): string {
    if es == [] then s else ExprTo(es[0], MoreExprsTo(es[1..], s))
  }

  function MoreExprsTo(es: seq<Expr>, s: string): string {
    if es == [] then s else ", " + ExprTo(es[0], MoreExprsTo(es[1..], s))
  }

  lemma InFrontOfTwo(a: string, b: string, c: string, s: string)
    ensures a + b + c + s == a + (b + (c + s))
  {
  }

  lemma {:induction false} ArgumentWrites(e: Expr, s: string)
    ensures Argument(e, s) == "(" + WriteExpr(e) + ")" + s
    decreases e, 2
  {
    ExprToWrites(e, ")" + s);
    InFrontOfTwo("(", WriteExpr(e), ")", s);
  }

  lemma {:induction false} ExprToWrites(e: Expr, s: string)
    ensures ExprTo(e, s) == WriteExpr(e) + s
    decreases e, 1
  {
    match e.kind
    case WordLit(_) =>
    case BoolLit(_) =>
    case UnitLit =>
    case Var(_) =>
    case Pair(_, _) => PairWrites(e, s);
    case Fst(_) => ProjectionWrites(e, s);
    case Snd(_) => ProjectionWrites(e, s);
    case Inl(_, _) => SideWrites(e, s);
    case Inr(_, _) => SideWrites(e, s);
    case InK(_, _, _) => InKWrites(e, s);
    case Call(_, _) => CallWrites(e, s);
    case If(_, _, _, _) => IfWrites(e, s);
  }

  lemma {:induction false} PairWrites(e: Expr, s: string)
    requires e.kind.Pair?
    ensures ExprTo(e, s) == WriteExpr(e) + s
    decreases e, 0
  {
    ExprToWrites(e.kind.e2, ")" + s);
    ExprToWrites(e.kind.e1, ", " + ExprTo(e.kind.e2, ")" + s));
    InFront("(", WriteExpr(e.kind.e1), ", ", WriteExpr(e.kind.e2), ")", s);
  }

  lemma {:induction false} ProjectionWrites(e: Expr, s: string)
    requires e.kind.Fst? || e.kind.Snd?
    ensures ExprTo(e, s) == WriteExpr(e) + s
    decreases e, 0
  {
    ArgumentWrites(e.kind.e, s);
    if e.kind.Fst? {
      Applied("fst", "fst(", WriteExpr(e.kind.e), s);
    } else {
      Applied("snd", "snd(", WriteExpr(e.kind.e), s);
    }
  }

  lemma {:induction false} CallWrites(e: Expr, s: string)
    requires e.kind.Call?
    ensures ExprTo(e, s) == WriteExpr(e) + s
    decreases e, 0
  {
    ExprsToWrites(e.kind.args, ")" + s);
    CallInFront(e.kind.callee, Joined(WriteExprs(e.kind.args)), s);
  }

  lemma Applied(name: string, front: string, w: string, s: string)
    requires front == name + "("
    ensures name + ("(" + w + ")" + s) == front + w + ")" + s
  {
  }

  lemma CallInFront(callee: string, args: string, s: string)
    ensures callee + ("(" + (args + (")" + s))) == callee + "(" + args + ")" + s
  {
  }

  lemma IndexInFront(d: string, x: string)
    ensures "in" + ("(" + (d + (")<" + x))) == "in(" + d + ")" + ("<" + x)
    ensures "in(" + d + ")<" == "in(" + d + ")" + "<"
  {
  }

  lemma {:induction false} InKWrites(e: Expr, s: string)
    requires e.kind.InK?
    ensures ExprTo(e, s) == WriteExpr(e) + s
    decreases e, 0
  {
    var k := e.kind;
    var d := WordLiterals.Decimal(k.index);
    InjectionWrites("in(" + d + ")", k.target, k.e, s);
    IndexInFront(d, TyTo(k.target, ">" + Argument(k.e, s)));
  }

  lemma {:induction false} SideWrites(e: Expr, s: string)
    requires e.kind.Inl? || e.kind.Inr?
    ensures ExprTo(e, s) == WriteExpr(e) + s
    decreases e, 0
  {
    var k := e.kind;
    InjectionWrites(if k.Inl? then "inl" else "inr", k.target, k.e, s);
    assert "inl<" == "inl" + "<" && "inr<" == "inr" + "<";
  }

  lemma {:induction false} InjectionWrites(name: string, target: Ty, e: Expr, s: string)
    ensures name + ("<" + TyTo(target, ">" + Argument(e, s)))
      == name + "<" + WriteTy(target) + ">(" + WriteExpr(e) + ")" + s
    decreases e, 3
  {
    ArgumentWrites(e, s);
    TyToWrites(target, ">" + Argument(e, s));
    var w := WriteExpr(e);
    InFront(name, "<", WriteTy(target), ">", "(" + w + ")", s);
    assert ">(" == ">" + "(";
    assert name + "<" + WriteTy(target) + ">" + ("(" + w + ")") == name + "<" + WriteTy(target) + ">(" + w + ")";
  }

  lemma {:induction false} ExprsToWrites(es: seq<Expr>, s: string)
    ensures ExprsTo(es, s) == Joined(WriteExprs(es)) + s
    decreases es
  {
    if es != [] {
      ExprToWrites(es[0], MoreExprsTo(es[1..], s));
      JoinedOne(WriteExpr(es[0]), WriteExprs(es[1..]));
      if es[1..] != [] {
        ExprsToWrites(es[1..], s);
        CommaInFront(WriteExpr(es[0]), Joined(WriteExprs(es[1..])), s);
      }
    }
  }

  lemma JoinedOne(w: string, rest: seq<string>)
    ensures Joined([w] + rest) == if rest == [] then w else w + ", " + Joined(rest)
  {
    assert ([w] + rest)[1..] == rest;
  }

  lemma CommaInFront(w: string, rest: string, s: string)
    ensures w + (", " + (rest + s)) == w + ", " + rest + s
  {
  }

  lemma {:induction false} IfWrites(e: Expr, s: string)
    requires e.kind.If?
    ensures ExprTo(e, s) == WriteExpr(e) + s
    decreases e, 0
  {
    var k := e.kind;
    ArgumentWrites(k.els, s);
    var x := " else " + Argument(k.els, s);
    ArgumentWrites(k.thn, x);
    var y := " then " + Argument(k.thn, x);
    ExprToWrites(k.cond, y);
    TyToWrites(k.target, "> " + ExprTo(k.cond, y));
    IfInFront(WriteTy(k.target), WriteExpr(k.cond), WriteExpr(k.thn), WriteExpr(k.els), s);
  }

  lemma IfInFront(t: string, c: string, a: string, b: string, s: string)
    ensures "if" + ("<" + (t + ("> " + (c + (" then " + ("(" + a + ")" + (" else " + ("(" + b + ")" + s))))))))
      == "if<" + t + "> " + c + " then (" + a + ") else (" + b + ")" + s
  {
    assert "if<" == "if" + "<" && " then (" == " then " + "(" && ") else (" == ")" + " else " + "(";
    var x := " else " + ("(" + b + ")" + s);
    assert x == " else (" + b + ")" + s;
    assert " then " + ("(" + a + ")" + x) == " then (" + a + ") else (" + b + ")" + s;
  }
}
