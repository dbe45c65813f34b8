/** A reader for the text of Hull types and expressions, which reads back whatever the printer writes. */
module HullReader {
  // A recursive descent with keywords, operators and delimiters of its own. Annotated types are not printed, so the
  // reader gives an expression without them.

  import opened Wrappers
  import opened HullIr
  import opened HullPrinter
  import WordLiterals

  datatype Parse<+T> = Read(value: T, rest: string) | Unreadable

  // ----- names and marks -----

  const DELIMITERS := " (),<>{}"

  /** The text behind a mark. */
  function Behind(mark: string, s: string): (r: Option<string>)
    ensures r.Some? ==> |r.value| + |mark| == |s|
  {
    if mark <= s then Some(s[|mark|..]) else None
  }

  function NameLength(s: string): (n: nat)
    ensures n <= |s|
  {
    if s == "" || s[0] in DELIMITERS then 0 else 1 + NameLength(s[1..])
  }

  // ----- types -----

  function ReadTy(s: string): (r: Parse<Ty>)
    ensures r.Read? ==> |r.rest| < |s|
    decreases |s|, 1
  {
    if s == "" then Unreadable
    else if s[0] == '(' then ReadGroup(s[1..])
    else
      var n := NameLength(s);
      if n == 0 then Unreadable else ReadNamed(s[..n], s[n..])
  }

  /** Behind a name. */
  function ReadNamed(name: string, s: string): (r: Parse<Ty>)
    ensures r.Read? ==> |r.rest| <= |s|
    decreases |s|, 2
  {
    match name
    case "word" => Read(Word, s)
    case "bool" => Read(Bool, s)
    case "unit" => Read(Unit, s)
    case _ =>
      match Behind("{", s)
      case None => Read(NamedRef(name), s)
      case Some(inside) =>
        match ReadTy(inside)
        case Unreadable => Unreadable
        case Read(inner, r) =>
          match Behind("}", r)
          case None => Unreadable
          case Some(rest) => Read(Named(name, inner), rest)
  }

  /** Behind an opening parenthesis. */
  function ReadGroup(s: string): (r: Parse<Ty>)
    ensures r.Read? ==> |r.rest| <= |s|
    decreases |s|, 3
  {
    if " -> " <= s then ReadMore([], s)
    else
      match ReadTy(s)
      case Unreadable => Unreadable
      case Read(first, r) =>
        if " * " <= r then ReadSecond(first, true, r[3..])
        else if " + " <= r then ReadSecond(first, false, r[3..])
        else ReadMore([first], r)
  }

  function ReadSecond(first: Ty, product: bool, s: string): (r: Parse<Ty>)
    ensures r.Read? ==> |r.rest| <= |s|
    decreases |s|, 2
  {
    match ReadTy(s)
    case Unreadable => Unreadable
    case Read(second, r) =>
      match Behind(")", r)
      case None => Unreadable
      case Some(rest) => Read(if product then Product(first, second) else Sum(first, second), rest)
  }

  /** Behind some parameters of a function type. */
  function ReadMore(params: seq<Ty>, s: string): (r: Parse<Ty>)
    ensures r.Read? ==> |r.rest| <= |s|
    decreases |s|, 2
  {
    match Behind(" -> ", s)
    case Some(result) =>
      (match ReadTy(result)
       case Unreadable => Unreadable
       case Read(ret, r) =>
         match Behind(")", r)
         case None => Unreadable
         case Some(rest) => Read(Function(params, ret), rest))
    case None =>
      match Behind(", ", s)
      case None => Unreadable
      case Some(next) =>
        match ReadTy(next)
        case Unreadable => Unreadable
        case Read(param, r) => ReadMore(params + [param], r)
  }

  // ----- expressions -----

  function Plain(kind: ExprKind): Expr {
    Expr(Unit, kind)
  }

  /** The expression without its annotations. */
  function Bare(e: Expr): Expr {
    match e.kind
    case Pair(e1, e2) => Plain(Pair(Bare(e1), Bare(e2)))
    case Fst(e1) => Plain(Fst(Bare(e1)))
    case Snd(e1) => Plain(Snd(Bare(e1)))
    case Inl(target, e1) => Plain(Inl(target, Bare(e1)))
    case Inr(target, e1) => Plain(Inr(target, Bare(e1)))
    case InK(index, target, e1) => Plain(InK(index, target, Bare(e1)))
    case Call(callee, args) => Plain(Call(callee, BareAll(args)))
    case If(target, cond, thn, els) => Plain(If(target, Bare(cond), Bare(thn), Bare(els)))
    case _ => Plain(e.kind)
  }

  function BareAll(es: seq<Expr>): seq<Expr> {
    if es == [] then [] else [Bare(es[0])] + BareAll(es[1..])
  }

  function ReadExpr(s: string): (r: Parse<Expr>)
    ensures r.Read? ==> |r.rest| < |s|
    decreases |s|, 1
  {
    if s == "" then Unreadable
    else if s[0] == '(' then ReadPair(s[1..])
    else
      var n := NameLength(s);
      if n == 0 then Unreadable else ReadForm(s[..n], s[n..])
  }

  /** Behind an opening parenthesis. */
  function ReadPair(s: string): (r: Parse<Expr>)
    ensures r.Read? ==> |r.rest| <= |s|
    decreases |s|, 2
  {
    match Behind(")", s)
    case Some(rest) => Read(Plain(UnitLit), rest)
    case None =>
      match ReadExpr(s)
      case Unreadable => Unreadable
      case Read(e1, r1) =>
        match Behind(", ", r1)
        case None => Unreadable
        case Some(second) =>
          match ReadExpr(second)
          case Unreadable => Unreadable
          case Read(e2, r2) =>
            match Behind(")", r2)
            case None => Unreadable
            case Some(rest) => Read(Plain(Pair(e1, e2)), rest)
  }

  /** Behind a keyword, a number or a name. */
  function ReadForm(word: string, s: string): (r: Parse<Expr>)
    requires word != ""
    ensures r.Read? ==> |r.rest| <= |s|
    decreases |s|, 4
  {
    if '0' <= word[0] <= '9' then Read(Plain(WordLit(word)), s)
    else
      match word
      case "true" => Read(Plain(BoolLit(true)), s)
      case "false" => Read(Plain(BoolLit(false)), s)
      case "fst" =>
        (match ReadArgument(s)
         case Unreadable => Unreadable
         case Read(e, rest) => Read(Plain(Fst(e)), rest))
      case "snd" =>
        (match ReadArgument(s)
         case Unreadable => Unreadable
         case Read(e, rest) => Read(Plain(Snd(e)), rest))
      case "inl" =>
        (match ReadTargeted(s)
         case Unreadable => Unreadable
         case Read(p, rest) => Read(Plain(Inl(p.0, p.1)), rest))
      case "inr" =>
        (match ReadTargeted(s)
         case Unreadable => Unreadable
         case Read(p, rest) => Read(Plain(Inr(p.0, p.1)), rest))
      case "in" => ReadIndexed(s)
      case "if" => ReadIf(s)
      case _ =>
        match Behind("(", s)
        case None => Read(Plain(Var(word)), s)
        case Some(inside) =>
          match ReadArgs(inside)
          case Unreadable => Unreadable
          case Read(args, rest) => Read(Plain(Call(word, args)), rest)
  }

  /** An expression in parentheses. */
  function ReadArgument(s: string): (r: Parse<Expr>)
    ensures r.Read? ==> |r.rest| < |s|
    decreases |s|, 2
  {
    match Behind("(", s)
    case None => Unreadable
    case Some(inside) =>
      match ReadExpr(inside)
      case Unreadable => Unreadable
      case Read(e, r) =>
        match Behind(")", r)
        case None => Unreadable
        case Some(rest) => Read(e, rest)
  }

  /** A type in angle brackets. */
  function ReadTarget(s: string): (r: Parse<Ty>)
    ensures r.Read? ==> |r.rest| < |s|
  {
    match Behind("<", s)
    case None => Unreadable
    case Some(inside) =>
      match ReadTy(inside)
      case Unreadable => Unreadable
      case Read(t, r) =>
        match Behind(">", r)
        case None => Unreadable
        case Some(rest) => Read(t, rest)
  }

  function ReadTargeted(s: string): (r: Parse<(Ty, Expr)>)
    ensures r.Read? ==> |r.rest| < |s|
    decreases |s|, 3
  {
    match ReadTarget(s)
    case Unreadable => Unreadable
    case Read(t, r) =>
      match ReadArgument(r)
      case Unreadable => Unreadable
      case Read(e, rest) => Read((t, e), rest)
  }

  function ReadIndexed(s: string): (r: Parse<Expr>)
    ensures r.Read? ==> |r.rest| <= |s|
    decreases |s|, 3
  {
    match Behind("(", s)
    case None => Unreadable
    case Some(inside) =>
      var n := NameLength(inside);
      match (WordLiterals.LiteralValue(inside[..n]), Behind(")", inside[n..]))
      case (Some(index), Some(r)) =>
        (match ReadTargeted(r)
         case Unreadable => Unreadable
         case Read(p, rest) => Read(Plain(InK(index, p.0, p.1)), rest))
      case _ => Unreadable
  }

  function ReadIf(s: string): (r: Parse<Expr>)
    ensures r.Read? ==> |r.rest| <= |s|
    decreases |s|, 3
  {
    match ReadTarget(s)
    case Unreadable => Unreadable
    case Read(target, r0) =>
      match Behind(" ", r0)
      case None => Unreadable
      case Some(r1) =>
        match ReadExpr(r1)
        case Unreadable => Unreadable
        case Read(cond, r2) => ReadBranches(target, cond, r2)
  }

  function ReadBranches(target: Ty, cond: Expr, s: string): (r: Parse<Expr>)
    ensures r.Read? ==> |r.rest| <= |s|
    decreases |s|, 3
  {
    match Behind(" then ", s)
    case None => Unreadable
    case Some(r0) =>
      match ReadArgument(r0)
      case Unreadable => Unreadable
      case Read(thn, r1) =>
        match Behind(" else ", r1)
        case None => Unreadable
        case Some(r2) =>
          match ReadArgument(r2)
          case Unreadable => Unreadable
          case Read(els, rest) => Read(Plain(If(target, cond, thn, els)), rest)
  }

  /** The arguments of a call, behind the opening parenthesis. */
  function ReadArgs(s: string): (r: Parse<seq<Expr>>)
    ensures r.Read? ==> |r.rest| <= |s|
    decreases |s|, 3
  {
    match Behind(")", s)
    case Some(rest) => Read([], rest)
    case None =>
      match ReadExpr(s)
      case Unreadable => Unreadable
      case Read(e, r) => ReadMoreArgs([e], r)
  }

  function ReadMoreArgs(args: seq<Expr>, s: string): (r: Parse<seq<Expr>>)
    ensures r.Read? ==> |r.rest| <= |s|
    decreases |s|, 3
  {
    match Behind(")", s)
    case Some(rest) => Read(args, rest)
    case None =>
      match Behind(", ", s)
      case None => Unreadable
      case Some(next) =>
        match ReadExpr(next)
        case Unreadable => Unreadable
        case Read(e, r) => ReadMoreArgs(args + [e], r)
  }

  // ----- names and marks are read -----

  lemma MarkIsRead(mark: string, s: string)
    ensures Behind(mark, mark + s) == Some(s)
  {
  }

  lemma OtherMark(mark: string, s: string)
    requires mark != "" && (s == "" || s[0] != mark[0] || (|mark| > 1 && |s| > 1 && s[1] != mark[1]))
    ensures Behind(mark, s) == None && !(mark <= s)
  {
  }

  lemma Delimiters(c: char)
    ensures c in DELIMITERS <==> !NameChar(c)
  {
  }

  predicate Ends(s: string) {
    s == "" || !NameChar(s[0])
  }

  lemma {:induction false} NameEnds(name: string, s: string)
    requires (forall i :: 0 <= i < |name| ==> NameChar(name[i])) && Ends(s)
    ensures NameLength(name + s) == |name|
    decreases |name|
  {
    var all := name + s;
    if all != "" { Delimiters(all[0]); }
    if name != "" {
      assert all[1..] == name[1..] + s;
      NameEnds(name[1..], s);
    } else {
      assert all == s;
    }
  }

  lemma NameIsRead(name: string, s: string)
    requires Atom(name) && Ends(s)
    ensures ReadTy(name + s) == ReadNamed(name, s)
    ensures ReadExpr(name + s) == ReadForm(name, s)
  {
    NameEnds(name, s);
    var all := name + s;
    assert all[0] == name[0] && NameChar(name[0]);
    assert all[..|name|] == name && all[|name|..] == s;
  }

  lemma ParenthesisIsRead(s: string)
    ensures ReadTy("(" + s) == ReadGroup(s) && ReadExpr("(" + s) == ReadPair(s)
  {
    var all := "(" + s;
    assert all[0] == '(' && all[1..] == s;
  }

  // ----- types are read -----

  lemma TyStarts(t: Ty, s: string)
    requires PrintableTy(t)
    ensures TyTo(t, s) != "" && (NameChar(TyTo(t, s)[0]) || TyTo(t, s)[0] == '(')
  {
  }

  /** Whatever is printed behind a type, the type is read and the rest is left. */
  lemma {:induction false} TyIsRead(t: Ty, s: string)
    requires PrintableTy(t) && Follow(s)
    ensures ReadTy(TyTo(t, s)) == Read(t, s)
    decreases t, 2
  {
    match t
    case Word => NameIsRead("word", s);
    case Bool => NameIsRead("bool", s);
    case Unit => NameIsRead("unit", s);
    case NamedRef(name) =>
      NameIsRead(name, s);
      OtherMark("{", s);
    case Named(_, _) => NamedIsRead(t, s);
    case Product(_, _) => BinaryIsRead(t, s);
    case Sum(_, _) => BinaryIsRead(t, s);
    case Function(_, _) => FunctionIsRead(t, s);
  }

  lemma {:induction false} NamedIsRead(t: Ty, s: string)
    requires PrintableTy(t) && t.Named?
    ensures ReadTy(TyTo(t, s)) == Read(t, s)
    decreases t, 0
  {
    var inside := TyTo(t.inner, "}" + s);
    NameIsRead(t.name, "{" + inside);
    MarkIsRead("{", inside);
    TyIsRead(t.inner, "}" + s);
    MarkIsRead("}", s);
  }

  lemma {:induction false} SecondIsRead(first: Ty, product: bool, t: Ty, s: string)
    requires PrintableTy(t)
    ensures ReadSecond(first, product, TyTo(t, ")" + s))
      == Read(if product then Product(first, t) else Sum(first, t), s)
    decreases t, 3
  {
    TyIsRead(t, ")" + s);
    MarkIsRead(")", s);
  }

  lemma {:induction false} BinaryIsRead(t: Ty, s: string)
    requires PrintableTy(t) && (t.Product? || t.Sum?)
    ensures ReadTy(TyTo(t, s)) == Read(t, s)
    decreases t, 0
  {
    var second := TyTo(t.rhs, ")" + s);
    var mark := if t.Product? then " * " else " + ";
    var inside := TyTo(t.lhs, mark + second);
    ParenthesisIsRead(inside);
    TyStarts(t.lhs, mark + second);
    OtherMark(" -> ", inside);
    TyIsRead(t.lhs, mark + second);
    assert (mark + second)[3..] == second;
    if t.Sum? { OtherMark(" * ", mark + second); }
    SecondIsRead(t.lhs, t.Product?, t.rhs, s);
  }

  lemma {:induction false} FunctionIsRead(t: Ty, s: string)
    requires PrintableTy(t) && t.Function?
    ensures ReadTy(TyTo(t, s)) == Read(t, s)
    decreases t, 1
  {
    var tail := " -> " + TyTo(t.ret, ")" + s);
    var inside := TysTo(t.params, tail);
    ParenthesisIsRead(inside);
    if t.params == [] {
      MoreIsRead(t, [], [], s);
    } else {
      var rest := MoreTysTo(t.params[1..], tail);
      assert t.params[0] in t.params;
      TyStarts(t.params[0], rest);
      OtherMark(" -> ", inside);
      TyIsRead(t.params[0], rest);
      OtherMark(" * ", rest);
      OtherMark(" + ", rest);
      assert t.params == [t.params[0]] + t.params[1..];
      MoreIsRead(t, [t.params[0]], t.params[1..], s);
    }
  }

  lemma MoreStep(read: seq<Ty>, t: Ty, rest: string)
    requires ReadTy(TyTo(t, rest)) == Read(t, rest)
    ensures ReadMore(read, ", " + TyTo(t, rest)) == ReadMore(read + [t], rest)
  {
    OtherMark(" -> ", ", " + TyTo(t, rest));
    MarkIsRead(", ", TyTo(t, rest));
  }

  lemma {:induction false} ResultIsRead(params: seq<Ty>, ret: Ty, s: string)
    requires PrintableTy(ret)
    ensures ReadMore(params, " -> " + TyTo(ret, ")" + s)) == Read(Function(params, ret), s)
    decreases ret, 3
  {
    MarkIsRead(" -> ", TyTo(ret, ")" + s));
    TyIsRead(ret, ")" + s);
    MarkIsRead(")", s);
  }

  lemma {:induction false} MoreIsRead(t: Ty, done: seq<Ty>, left: seq<Ty>, s: string)
    requires t.Function? && PrintableTy(t) && t.params == done + left
    ensures ReadMore(done, MoreTysTo(left, " -> " + TyTo(t.ret, ")" + s))) == Read(t, s)
    decreases t, 0, |left|
  {
    if left == [] {
      ResultIsRead(done, t.ret, s);
      assert done == t.params;
    } else {
      var rest := MoreTysTo(left[1..], " -> " + TyTo(t.ret, ")" + s));
      NextOf(t.params, done, left);
      TyIsRead(left[0], rest);
      MoreStep(done, left[0], rest);
      MoreIsRead(t, done + [left[0]], left[1..], s);
    }
  }

  // ----- expressions are read -----

  lemma ExprStarts(e: Expr, s: string)
    requires PrintableExpr(e)
    ensures ExprTo(e, s) != "" && (NameChar(ExprTo(e, s)[0]) || ExprTo(e, s)[0] == '(')
  {
  }

  lemma AtomOfExpr(e: Expr, s: string)
    requires PrintableExpr(e) && IsAtomExpr(e) && Follow(s)
    ensures Atom(ExprAtom(e)) && Ends(ExprTail(e, s))
  {
  }

  /** The forms that start with a name or a keyword. */
  lemma FormIsRead(e: Expr, s: string)
    requires PrintableExpr(e) && IsAtomExpr(e) && Follow(s)
    ensures ReadExpr(ExprTo(e, s)) == ReadForm(ExprAtom(e), ExprTail(e, s))
  {
    AtomOfExpr(e, s);
    NameIsRead(ExprAtom(e), ExprTail(e, s));
  }

  lemma {:induction false} ArgumentIsRead(e: Expr, s: string)
    requires PrintableExpr(e)
    ensures ReadArgument(Argument(e, s)) == Read(Bare(e), s)
    decreases e, 5
  {
    MarkIsRead("(", ExprTo(e, ")" + s));
    ExprIsRead(e, ")" + s);
    MarkIsRead(")", s);
  }

  lemma TargetIsRead(t: Ty, s: string)
    requires PrintableTy(t)
    ensures ReadTarget("<" + TyTo(t, ">" + s)) == Read(t, s)
  {
    MarkIsRead("<", TyTo(t, ">" + s));
    TyIsRead(t, ">" + s);
    MarkIsRead(">", s);
  }

  lemma {:induction false} TargetedIsRead(t: Ty, e: Expr, s: string)
    requires PrintableTy(t) && PrintableExpr(e)
    ensures ReadTargeted("<" + TyTo(t, ">" + Argument(e, s))) == Read((t, Bare(e)), s)
    decreases e, 6
  {
    TargetIsRead(t, Argument(e, s));
    ArgumentIsRead(e, s);
  }

  lemma LeafIsRead(e: Expr, s: string)
    requires PrintableExpr(e) && Follow(s)
    requires e.kind.WordLit? || e.kind.BoolLit? || e.kind.Var?
    ensures ReadForm(ExprAtom(e), ExprTail(e, s)) == Read(Bare(e), s)
  {
    if e.kind.Var? { OtherMark("(", s); }
  }

  lemma {:induction false} ProjectionIsRead(e: Expr, s: string)
    requires PrintableExpr(e) && (e.kind.Fst? || e.kind.Snd?)
    ensures ReadForm(ExprAtom(e), ExprTail(e, s)) == Read(Bare(e), s)
    decreases e, 2
  {
    ArgumentIsRead(e.kind.e, s);
  }

  lemma {:induction false} InjectionIsRead(e: Expr, s: string)
    requires PrintableExpr(e) && (e.kind.Inl? || e.kind.Inr?)
    ensures ReadForm(ExprAtom(e), ExprTail(e, s)) == Read(Bare(e), s)
    decreases e, 2
  {
    TargetedIsRead(e.kind.target, e.kind.e, s);
  }

  lemma {:induction false} FormIsBare(e: Expr, s: string)
    requires PrintableExpr(e) && IsAtomExpr(e) && Follow(s)
    ensures ReadForm(ExprAtom(e), ExprTail(e, s)) == Read(Bare(e), s)
    decreases e, 3
  {
    match e.kind
    case Fst(_) => ProjectionIsRead(e, s);
    case Snd(_) => ProjectionIsRead(e, s);
    case Inl(_, _) => InjectionIsRead(e, s);
    case Inr(_, _) => InjectionIsRead(e, s);
    case InK(_, _, _) => IndexedIsRead(e, s);
    case Call(_, _) => CallIsRead(e, s);
    case If(_, _, _, _) => IfIsRead(e, s);
    case _ => LeafIsRead(e, s);
  }

  lemma UnitIsRead(s: string)
    ensures ReadPair(")" + s) == Read(Plain(UnitLit), s)
  {
    MarkIsRead(")", s);
  }

  /** Whatever is printed behind an expression, the expression is read without its annotations and the rest is left. */
  lemma {:induction false} ExprIsRead(e: Expr, s: string)
    requires PrintableExpr(e) && Follow(s)
    ensures ReadExpr(ExprTo(e, s)) == Read(Bare(e), s)
    decreases e, 4
  {
    if IsAtomExpr(e) {
      FormIsRead(e, s);
      FormIsBare(e, s);
    } else if e.kind.Pair? {
      PairIsRead(e, s);
    } else {
      ParenthesisIsRead(")" + s);
      UnitIsRead(s);
    }
  }

  lemma {:induction false} PairIsRead(e: Expr, s: string)
    requires PrintableExpr(e) && e.kind.Pair?
    ensures ReadExpr(ExprTo(e, s)) == Read(Bare(e), s)
    decreases e, 0
  {
    var second := ExprTo(e.kind.e2, ")" + s);
    var inside := ExprTo(e.kind.e1, ", " + second);
    ParenthesisIsRead(inside);
    ExprStarts(e.kind.e1, ", " + second);
    OtherMark(")", inside);
    ExprIsRead(e.kind.e1, ", " + second);
    MarkIsRead(", ", second);
    ExprIsRead(e.kind.e2, ")" + s);
    MarkIsRead(")", s);
  }

  lemma {:induction false} DigitsAreNameChars(n: nat)
    ensures forall c | c in WordLiterals.Digits(n) :: NameChar(c)
  {
    if n > 0 {
      DigitsAreNameChars(n / 10);
    }
  }

  lemma IndexIsRead(index: nat, s: string)
    ensures var inside := WordLiterals.Decimal(index) + (")" + s);
      var n := NameLength(inside);
      && WordLiterals.LiteralValue(inside[..n]) == Some(index)
      && Behind(")", inside[n..]) == Some(s)
  {
    var d := WordLiterals.Decimal(index);
    DigitsAreNameChars(index);
    NameEnds(d, ")" + s);
    var inside := d + (")" + s);
    assert inside[..|d|] == d && inside[|d|..] == ")" + s;
    WordLiterals.DecimalRoundTrip(index);
    MarkIsRead(")", s);
  }

  lemma SplitMark(x: string)
    ensures ")<" + x == ")" + ("<" + x)
  {
  }

  lemma IndexedText(e: Expr, s: string, targeted: string)
    requires e.kind.InK? && targeted == "<" + TyTo(e.kind.target, ">" + Argument(e.kind.e, s))
    ensures ExprTail(e, s) == "(" + (WordLiterals.Decimal(e.kind.index) + (")" + targeted))
  {
    SplitMark(TyTo(e.kind.target, ">" + Argument(e.kind.e, s)));
  }

  lemma IndexedTextIsRead(index: nat, targeted: string, t: Ty, e: Expr, s: string)
    requires ReadTargeted(targeted) == Read((t, e), s)
    ensures ReadIndexed("(" + (WordLiterals.Decimal(index) + (")" + targeted))) == Read(Plain(InK(index, t, e)), s)
  {
    MarkIsRead("(", WordLiterals.Decimal(index) + (")" + targeted));
    IndexIsRead(index, targeted);
  }

  lemma {:induction false} IndexedTailIsRead(e: Expr, s: string)
    requires PrintableExpr(e) && e.kind.InK?
    ensures ReadIndexed(ExprTail(e, s)) == Read(Bare(e), s)
    decreases e, 0
  {
    var k := e.kind;
    var targeted := "<" + TyTo(k.target, ">" + Argument(k.e, s));
    IndexedText(e, s, targeted);
    TargetedIsRead(k.target, k.e, s);
    IndexedTextIsRead(k.index, targeted, k.target, Bare(k.e), s);
  }

  lemma IndexedForm(x: string)
    ensures ReadForm("in", x) == ReadIndexed(x)
  {
  }

  lemma IfForm(x: string)
    ensures ReadForm("if", x) == ReadIf(x)
  {
  }

  lemma {:induction false} IndexedIsRead(e: Expr, s: string)
    requires PrintableExpr(e) && e.kind.InK?
    ensures ReadForm(ExprAtom(e), ExprTail(e, s)) == Read(Bare(e), s)
    decreases e, 1
  {
    IndexedForm(ExprTail(e, s));
    IndexedTailIsRead(e, s);
  }

  lemma {:induction false} IfIsRead(e: Expr, s: string)
    requires PrintableExpr(e) && e.kind.If?
    ensures ReadForm(ExprAtom(e), ExprTail(e, s)) == Read(Bare(e), s)
    decreases e, 2
  {
    IfForm(ExprTail(e, s));
    IfTailIsRead(e, s);
  }

  lemma IfText(e: Expr, s: string, branches: string, cond: string)
    requires e.kind.If? && cond == ExprTo(e.kind.cond, branches)
    requires branches == " then " + Argument(e.kind.thn, " else " + Argument(e.kind.els, s))
    ensures ExprTail(e, s) == "<" + TyTo(e.kind.target, ">" + (" " + cond))
  {
    assert "> " + cond == ">" + (" " + cond);
  }

  lemma {:induction false} IfTailIsRead(e: Expr, s: string)
    requires PrintableExpr(e) && e.kind.If?
    ensures ReadIf(ExprTail(e, s)) == Read(Bare(e), s)
    decreases e, 1
  {
    var k := e.kind;
    var branches := " then " + Argument(k.thn, " else " + Argument(k.els, s));
    var cond := ExprTo(k.cond, branches);
    IfText(e, s, branches, cond);
    TargetIsRead(k.target, " " + cond);
    MarkIsRead(" ", cond);
    ExprIsRead(k.cond, branches);
    BranchesAreRead(e, Bare(k.cond), s);
  }

  lemma {:induction false} BranchesAreRead(e: Expr, cond: Expr, s: string)
    requires PrintableExpr(e) && e.kind.If?
    ensures ReadBranches(e.kind.target, cond, " then " + Argument(e.kind.thn, " else " + Argument(e.kind.els, s)))
      == Read(Plain(If(e.kind.target, cond, Bare(e.kind.thn), Bare(e.kind.els))), s)
    decreases e, 0
  {
    var k := e.kind;
    var tail := " else " + Argument(k.els, s);
    MarkIsRead(" then ", Argument(k.thn, tail));
    ArgumentIsRead(k.thn, tail);
    MarkIsRead(" else ", Argument(k.els, s));
    ArgumentIsRead(k.els, s);
  }

  lemma {:induction false} CallIsRead(e: Expr, s: string)
    requires PrintableExpr(e) && e.kind.Call?
    ensures ReadForm(ExprAtom(e), ExprTail(e, s)) == Read(Bare(e), s)
    decreases e, 2
  {
    MarkIsRead("(", ExprsTo(e.kind.args, ")" + s));
    AllArgsAreRead(e, s);
  }

  lemma FirstBare(es: seq<Expr>)
    requires es != []
    ensures BareAll(es[..1]) == [Bare(es[0])]
  {
    assert es[..1][1..] == [];
  }

  lemma {:induction false} AllArgsAreRead(e: Expr, s: string)
    requires PrintableExpr(e) && e.kind.Call?
    ensures ReadArgs(ExprsTo(e.kind.args, ")" + s)) == Read(BareAll(e.kind.args), s)
    decreases e, 1
  {
    var args := e.kind.args;
    if args == [] {
      MarkIsRead(")", s);
    } else {
      var rest := MoreExprsTo(args[1..], ")" + s);
      assert args[0] in args;
      ExprStarts(args[0], rest);
      OtherMark(")", ExprsTo(args, ")" + s));
      ExprIsRead(args[0], rest);
      FirstBare(args);
      ArgsAreRead(e, args[..1], args[1..], s);
    }
  }

  lemma {:induction false} BareAllAppend(es: seq<Expr>, e: Expr)
    ensures BareAll(es + [e]) == BareAll(es) + [Bare(e)]
    decreases |es|
  {
    var all := es + [e];
    if es == [] {
      assert all[1..] == [];
    } else {
      assert all[1..] == es[1..] + [e];
      BareAllAppend(es[1..], e);
    }
  }

  lemma MoreArgsStep(read: seq<Expr>, e: Expr, rest: string)
    requires ReadExpr(ExprTo(e, rest)) == Read(Bare(e), rest)
    ensures ReadMoreArgs(read, ", " + ExprTo(e, rest)) == ReadMoreArgs(read + [Bare(e)], rest)
  {
    OtherMark(")", ", " + ExprTo(e, rest));
    MarkIsRead(", ", ExprTo(e, rest));
  }

  lemma NextOf<T>(all: seq<T>, done: seq<T>, left: seq<T>)
    requires all == done + left && left != []
    ensures left[0] in all && all == done + [left[0]] + left[1..]
  {
    assert all[|done|] == left[0];
    assert left == [left[0]] + left[1..];
  }

  lemma {:induction false} ArgsAreRead(e: Expr, done: seq<Expr>, left: seq<Expr>, s: string)
    requires PrintableExpr(e) && e.kind.Call? && e.kind.args == done + left
    ensures ReadMoreArgs(BareAll(done), MoreExprsTo(left, ")" + s)) == Read(BareAll(e.kind.args), s)
    decreases e, 0, |left|
  {
    if left == [] {
      MarkIsRead(")", s);
      assert done == e.kind.args;
    } else {
      var rest := MoreExprsTo(left[1..], ")" + s);
      NextOf(e.kind.args, done, left);
      ExprIsRead(left[0], rest);
      MoreArgsStep(BareAll(done), left[0], rest);
      BareAllAppend(done, left[0]);
      ArgsAreRead(e, done + [left[0]], left[1..], s);
    }
  }

  // ----- the printed texts -----

  /** The text of a type reads back as the type. */
  lemma TypeRoundTrip(t: Ty)
    requires PrintableTy(t)
    ensures ReadTy(WriteTy(t)) == Read(t, "")
  {
    TyToWrites(t, "");
    assert WriteTy(t) + "" == WriteTy(t);
    TyIsRead(t, "");
  }

  /** The text of an expression reads back as the expression without its annotations. */
  lemma ExpressionRoundTrip(e: Expr)
    requires PrintableExpr(e)
    ensures ReadExpr(WriteExpr(e)) == Read(Bare(e), "")
  {
    ExprToWrites(e, "");
    assert WriteExpr(e) + "" == WriteExpr(e);
    ExprIsRead(e, "");
  }

  /** So the text of a type determines it. */
  lemma TypesAreUniquelyReadable(t: Ty, u: Ty)
    requires PrintableTy(t) && PrintableTy(u) && WriteTy(t) == WriteTy(u)
    ensures t == u
  {
    TypeRoundTrip(t);
    TypeRoundTrip(u);
  }

  /** The text of an expression determines it, but for the annotated types. */
  lemma ExpressionsAreUniquelyReadable(e: Expr, f: Expr)
    requires PrintableExpr(e) && PrintableExpr(f) && WriteExpr(e) == WriteExpr(f)
    ensures Bare(e) == Bare(f)
  {
    ExpressionRoundTrip(e);
    ExpressionRoundTrip(f);
  }
}
