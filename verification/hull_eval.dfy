/** A fuel-bounded evaluator for Hull programs. */
module HullEval {
  // `Wrong` is what a type checker has to rule out; `Trapped` is what crates/hull/src/check.rs does not claim to rule
  // out: reading a variable that was declared and never assigned, a `match` without a matching arm, an assignment whose
  // left side is no place, a malformed word literal, and a `break` or `continue` outside a loop.
  //
  // Builtins and inline assembly are an arbitrary oracle over an arbitrary world. A builtin answers a number that is
  // read at its result type, or halts. An assembly block stores words in variables that it assigns, in any order, or
  // halts; storing a word in a variable that is not there or not a word is wrong.

  import opened Wrappers
  import opened HullIr
  import opened HullTyping
  import opened HullAsmNames
  import WordLiterals

  const TWO_256: nat := WordLiterals.TWO_256

  datatype Value =
    | WordV(n: nat)
    | BoolV(b: bool)
    | UnitV
    | PairV(fst: Value, snd: Value)
    | InlV(payload: Value)
    | InrV(payload: Value)

  datatype Trap = Uninitialised(name: Name) | NoMatch | NotAPlace | MalformedLiteral | StrayLoopExit

  datatype Fault =
    UndefinedName(name: Name) | BadProjection | BadCondition | BadCall(callee: Name) | BadMatch | BadStore(name: Name)

  datatype Stop = Halted | Exhausted | Trapped(trap: Trap) | Wrong(fault: Fault)

  /** A variable: the type it was declared with, and its value once assigned. */
  datatype Slot = Slot(ty: Ty, value: Option<Value>)
  type Frame = map<Name, Slot>
  type Env = seq<Frame>

  type World = nat
  datatype PrimStep = PrimHalt | PrimDone(result: nat, world: World)
  datatype AsmStep = AsmHalt | AsmDone(writes: seq<(Name, nat)>, world: World)
  datatype Oracle = Oracle(prim: (Name, seq<Value>, World) -> PrimStep,
                           asm: (seq<YulStmt>, Env, World) -> AsmStep)

  /** The functions a piece of code can call: builtins, those of the program, and those of its object. */
  datatype Code = Code(prims: Funs, top: map<Name, FunctionDef>, local: map<Name, FunctionDef>)

  datatype Flow = Next | Returned(value: Value) | Broke | Continued

  type Run<T> = Result<T, Stop>

  // ----- environments -----

  function Lookup(env: Env, x: Name): Option<Slot> {
    if env == [] then None
    else if x in env[|env| - 1] then Some(env[|env| - 1][x])
    else Lookup(env[..|env| - 1], x)
  }

  /** Replaces the value of the innermost `x`. */
  function Store(env: Env, x: Name, v: Value): (r: Env)
    ensures |r| == |env|
  {
    if env == [] then []
    else
      var last := |env| - 1;
      if x in env[last] then env[..last] + [env[last][x := Slot(env[last][x].ty, Some(v))]]
      else Store(env[..last], x, v) + [env[last]]
  }

  /** Declares `x` in the innermost scope, without a value. */
  function DeclareVar(env: Env, x: Name, t: Ty): Env
    requires env != []
  {
    env[..|env| - 1] + [env[|env| - 1][x := Slot(t, None)]]
  }

  function Pop(env: Env): Env
    requires env != []
  {
    env[..|env| - 1]
  }

  /** Leaves the innermost scope of a run. */
  function ExitScope(r: Run<(Env, Flow, World)>): (outer: Run<(Env, Flow, World)>)
    requires r.Success? ==> r.value.0 != []
    ensures outer.Success? <==> r.Success?
    ensures r.Success? ==> outer.value == (Pop(r.value.0), r.value.1, r.value.2)
    ensures r.Failure? ==> outer == r
  {
    var (env, flow, w) :- r;
    Success((Pop(env), flow, w))
  }

  /** The slots of the variables that the statements declare in their own scope. */
  function FreshSlots(vars: Vars): Frame {
    map x | x in vars :: Slot(vars[x], None)
  }

  function BindFrame(frame: Frame, args: seq<Arg>, values: seq<Value>): Frame
    requires |args| == |values|
    decreases args
  {
    if args == [] then frame
    else BindFrame(frame[args[0].name := Slot(args[0].ty, Some(values[0]))], args[1..], values[1..])
  }

  /** The stores of an assembly step, as far as they are to the given variables. */
  function StoreWords(env: Env, targets: set<Name>, writes: seq<(Name, nat)>): (r: Run<Env>)
    ensures r.Success? ==> |r.value| == |env|
    decreases writes
  {
    if writes == [] then Success(env)
    else
      var (x, n) := writes[0];
      if x !in targets then StoreWords(env, targets, writes[1..])
      else
        match Lookup(env, x)
        case None => Failure(Wrong(UndefinedName(x)))
        case Some(slot) =>
          if !IsWordType(slot.ty) then Failure(Wrong(BadStore(x)))
          else StoreWords(Store(env, x, WordV(n % TWO_256)), targets, writes[1..])
  }

  // ----- values -----

  function LiteralValue(s: string): Run<Value> {
    match WordLiterals.LiteralValue(s)
    case Some(n) => Success(WordV(n % TWO_256))
    case None => Failure(Trapped(MalformedLiteral))
  }

  function Truth(v: Value): Run<bool> {
    match v
    case BoolV(b) => Success(b)
    case InlV(UnitV) => Success(false)
    case InrV(UnitV) => Success(true)
    case _ => Failure(Wrong(BadCondition))
  }

  /** `in(k)` for a nested sum is one `inl` or `inr` per level of the target. */
  function Inject(target: Ty, k: nat, v: Value): Run<Value>
    decreases target
  {
    match StripNamed(target)
    case Sum(l, r) => if k == 0 then Success(InlV(v)) else var inner :- Inject(r, k - 1, v); Success(InrV(inner))
    case _ => if k == 0 then Success(v) else Failure(Wrong(BadMatch))
  }

  /** The payload of the `k`-th summand, `None` when the value lies in another one. */
  function Project(target: Ty, k: nat, v: Value): Run<Option<Value>>
    decreases target
  {
    match StripNamed(target)
    case Sum(l, r) =>
      if !v.InlV? && !v.InrV? then Failure(Wrong(BadMatch))
      else if k == 0 then Success(if v.InlV? then Some(v.payload) else None)
      else if v.InrV? then Project(r, k - 1, v.payload)
      else Success(None)
    case _ => if k == 0 then Success(Some(v)) else Failure(Wrong(BadMatch))
  }

  /** What the pattern binds, or `None` when the value does not match. */
  function MatchPat(target: Ty, pat: Pat, v: Value): Run<Option<Value>> {
    match pat
    case VarPat(_) => Success(Some(v))
    case Wildcard => Success(Some(v))
    case InlPat =>
      if v.InlV? then Success(Some(v.payload)) else if v.InrV? then Success(None) else Failure(Wrong(BadMatch))
    case InrPat =>
      if v.InrV? then Success(Some(v.payload)) else if v.InlV? then Success(None) else Failure(Wrong(BadMatch))
    case InKPat(k) => Project(target, k, v)
    case IntLit(s) =>
      if !v.WordV? then Failure(Wrong(BadMatch))
      else
        var lit :- LiteralValue(s);
        Success(if lit == v then Some(v) else None)
  }

  /** The value of a result type without stack slots, for a body that runs to its end. */
  function EmptyValue(t: Ty): Value {
    match t
    case Product(l, r) => PairV(EmptyValue(l), EmptyValue(r))
    case Named(_, inner) => EmptyValue(inner)
    case _ => UnitV
  }

  predicate PrimArgOk(t: Ty, v: Value) {
    if t.Word? then v.WordV? else v.InlV? || v.InrV?
  }

  function PrimResult(ret: Ty, n: nat): Value {
    if ret.Word? then WordV(n % TWO_256)
    else if ret.Unit? then UnitV
    else if n % 2 == 0 then InlV(UnitV)
    else InrV(UnitV)
  }

  function CallPrim(o: Oracle, funs: Funs, callee: Name, args: seq<Value>, w: World): Run<(Value, World)> {
    if callee !in funs then Failure(Wrong(UndefinedName(callee)))
    else
      var sig := funs[callee];
      if |args| != |sig.args| || exists i :: 0 <= i < |args| && !PrimArgOk(sig.args[i], args[i])
      then Failure(Wrong(BadCall(callee)))
      else
        match o.prim(callee, args, w)
        case PrimHalt => Failure(Halted)
        case PrimDone(n, w') => Success((PrimResult(sig.ret, n), w'))
  }

  // ----- places -----

  function ReadVar(env: Env, x: Name): Run<Value> {
    match Lookup(env, x)
    case None => Failure(Wrong(UndefinedName(x)))
    case Some(slot) => (match slot.value case None => Failure(Trapped(Uninitialised(x))) case Some(v) => Success(v))
  }

  function ReadPlace(env: Env, place: Expr): Run<Value>
    decreases place
  {
    match place.kind
    case Var(x) => ReadVar(env, x)
    case Fst(e) => var v :- ReadPlace(env, e); if v.PairV? then Success(v.fst) else Failure(Wrong(BadProjection))
    case Snd(e) => var v :- ReadPlace(env, e); if v.PairV? then Success(v.snd) else Failure(Wrong(BadProjection))
    case _ => Failure(Trapped(NotAPlace))
  }

  /** Assignment to a variable or to a component of one. */
  function WritePlace(env: Env, place: Expr, v: Value): (r: Run<Env>)
    ensures r.Success? ==> |r.value| == |env|
    decreases place
  {
    match place.kind
    case Var(x) => if Lookup(env, x).None? then Failure(Wrong(UndefinedName(x))) else Success(Store(env, x, v))
    case Fst(e) =>
      var whole :- ReadPlace(env, e);
      if whole.PairV? then WritePlace(env, e, PairV(v, whole.snd)) else Failure(Wrong(BadProjection))
    case Snd(e) =>
      var whole :- ReadPlace(env, e);
      if whole.PairV? then WritePlace(env, e, PairV(whole.fst, v)) else Failure(Wrong(BadProjection))
    case _ => Failure(Trapped(NotAPlace))
  }

  // ----- expressions and statements -----

  function EvalExpr(o: Oracle, c: Code, fuel: nat, env: Env, w: World, e: Expr): (r: Run<(Value, World)>)
    decreases fuel, 1, e
  {
    match e.kind
    case WordLit(s) => var v :- LiteralValue(s); Success((v, w))
    case BoolLit(b) => Success((BoolV(b), w))
    case UnitLit => Success((UnitV, w))
    case Var(x) => var v :- ReadVar(env, x); Success((v, w))
    case Pair(e1, e2) =>
      var (v1, w1) :- EvalExpr(o, c, fuel, env, w, e1);
      var (v2, w2) :- EvalExpr(o, c, fuel, env, w1, e2);
      Success((PairV(v1, v2), w2))
    case Fst(inner) =>
      var (v, w1) :- EvalExpr(o, c, fuel, env, w, inner);
      if v.PairV? then Success((v.fst, w1)) else Failure(Wrong(BadProjection))
    case Snd(inner) =>
      var (v, w1) :- EvalExpr(o, c, fuel, env, w, inner);
      if v.PairV? then Success((v.snd, w1)) else Failure(Wrong(BadProjection))
    case Inl(_, inner) => var (v, w1) :- EvalExpr(o, c, fuel, env, w, inner); Success((InlV(v), w1))
    case Inr(_, inner) => var (v, w1) :- EvalExpr(o, c, fuel, env, w, inner); Success((InrV(v), w1))
    case InK(k, target, inner) =>
      var (v, w1) :- EvalExpr(o, c, fuel, env, w, inner);
      var injected :- Inject(target, k, v);
      Success((injected, w1))
    case Call(callee, args) =>
      var (vs, w1) :- EvalArgs(o, c, fuel, env, w, args);
      if callee in c.local then CallFunction(o, c, c.local[callee], fuel, w1, vs)
      else if callee in c.top then CallFunction(o, Code(c.prims, c.top, map[]), c.top[callee], fuel, w1, vs)
      else CallPrim(o, c.prims, callee, vs, w1)
    case If(_, cond, thn, els) =>
      var (v, w1) :- EvalExpr(o, c, fuel, env, w, cond);
      var b :- Truth(v);
      if b then EvalExpr(o, c, fuel, env, w1, thn) else EvalExpr(o, c, fuel, env, w1, els)
  }

  function EvalArgs(o: Oracle, c: Code, fuel: nat, env: Env, w: World, args: seq<Expr>): (r: Run<(seq<Value>, World)>)
    decreases fuel, 1, args
  {
    if args == [] then Success(([], w))
    else
      var (v, w1) :- EvalExpr(o, c, fuel, env, w, args[0]);
      var (vs, w2) :- EvalArgs(o, c, fuel, env, w1, args[1..]);
      Success(([v] + vs, w2))
  }

  /** Runs `f` in the code `c` that it was declared in. */
  function CallFunction(
    o: Oracle, c: Code, f: FunctionDef, fuel: nat, w: World, args: seq<Value>): (r: Run<(Value, World)>)
    decreases fuel, 0
  {
    if |args| != |f.args| then Failure(Wrong(BadCall(f.name)))
    else if fuel == 0 then Failure(Exhausted)
    else
      var (env, flow, w1) :- ExecBody(o, c, fuel - 1, [BindFrame(map[], f.args, args)], w, f.body);
      match flow
      case Returned(v) => Success((v, w1))
      case Next => Success((EmptyValue(f.ret), w1))
      case _ => Failure(Trapped(StrayLoopExit))
  }

  function ExecBody(o: Oracle, c: Code, fuel: nat, env: Env, w: World, body: seq<Stmt>): (r: Run<(Env, Flow, World)>)
    requires env != []
    ensures r.Success? ==> |r.value.0| == |env|
    decreases fuel, 1, body
  {
    if body == [] then Success((env, Next, w))
    else
      var (env1, flow, w1) :- ExecStmt(o, c, fuel, env, w, body[0]);
      if flow.Next? then ExecBody(o, c, fuel, env1, w1, body[1..]) else Success((env1, flow, w1))
  }

  function ExecStmt(o: Oracle, c: Code, fuel: nat, env: Env, w: World, s: Stmt): (r: Run<(Env, Flow, World)>)
    requires env != []
    ensures r.Success? ==> |r.value.0| == |env|
    decreases fuel, 1, s, 1
  {
    match s
    case Let(x, t) => Success((DeclareVar(env, x, t), Next, w))
    case Assign(lhs, rhs) =>
      var (v, w1) :- EvalExpr(o, c, fuel, env, w, rhs);
      var env1 :- WritePlace(env, lhs, v);
      Success((env1, Next, w1))
    case ExprStmt(e) =>
      var (_, w1) :- EvalExpr(o, c, fuel, env, w, e);
      Success((env, Next, w1))
    case Return(e) =>
      var (v, w1) :- EvalExpr(o, c, fuel, env, w, e);
      Success((env, Returned(v), w1))
    case Block(body) => ExitScope(ExecBody(o, c, fuel, env + [map[]], w, body))
    case For(init, cond, post, body) =>
      var (env1, flow, w1) :- ExecBody(o, c, fuel, env + [map[]], w, init);
      if !flow.Next? then Failure(Trapped(StrayLoopExit))
      else
        ExitScope(ExecLoop(o, c, fuel, env1, FreshSlots(DeclareAll(map[], post)), w1, s))
    case Break => Success((env, Broke, w))
    case Continue => Success((env, Continued, w))
    case Match(target, scrutinee, alts) =>
      var (v, w1) :- EvalExpr(o, c, fuel, env, w, scrutinee);
      ExecAlts(o, c, fuel, env, w1, target, v, alts)
    case Assembly(asm) =>
      if AsmBlockTerminates(asm, true) then Failure(Halted)
      else
        (match o.asm(asm, env, w)
         case AsmHalt => Failure(Halted)
         case AsmDone(writes, w1) =>
           var env1 :- StoreWords(env, AllTargets(asm, {}, Leaking), writes);
           Success((env1, Next, w1)))
    case Revert(_) => Failure(Halted)
    case Comment(_) => Success((env, Next, w))
  }

  /**
   A loop whose init has run.  As in code generation (crates/yul/src/translate/lower.rs:291-316), the variables that
   `post` declares are allocated with the loop, so `body` can name them; `slots` holds them between the iterations.
   */
  function ExecLoop(
    o: Oracle, c: Code, fuel: nat, env: Env, slots: Frame, w: World, s: Stmt): (r: Run<(Env, Flow, World)>)
    requires env != [] && s.For?
    ensures r.Success? ==> |r.value.0| == |env|
    decreases fuel, 1, s, 0
  {
    var (v, w1) :- EvalExpr(o, c, fuel, env, w, s.cond);
    var b :- Truth(v);
    if !b then Success((env, Next, w1))
    else
      var (env1, flow, w2) :- ExecBody(o, c, fuel, env + [slots] + [map[]], w1, s.body);
      var env2 := Pop(Pop(env1));
      if flow.Broke? then Success((env2, Next, w2))
      else if flow.Returned? then Success((env2, flow, w2))
      else
        var (env3, flow3, w3) :- ExecBody(o, c, fuel, env2 + [map[]], w2, s.post);
        if !flow3.Next? then Failure(Trapped(StrayLoopExit))
        else if fuel == 0 then Failure(Exhausted)
        else ExecLoop(o, c, fuel - 1, Pop(env3), env3[|env3| - 1], w3, s)
  }

  function ExecAlts(o: Oracle, c: Code, fuel: nat, env: Env, w: World, target: Ty, v: Value, alts: seq<Alt>)
    : (r: Run<(Env, Flow, World)>)
    requires env != []
    ensures r.Success? ==> |r.value.0| == |env|
    decreases fuel, 1, alts
  {
    if alts == [] then Failure(Trapped(NoMatch))
    else
      var bound :- MatchPat(target, alts[0].pat, v);
      match bound
      case None => ExecAlts(o, c, fuel, env, w, target, v, alts[1..])
      case Some(payload) =>
        var ty := match PayloadType(target, alts[0].pat) case Some(t) => t case None => Unit;
        var frame := map[alts[0].binder := Slot(ty, Some(payload))];
        ExitScope(ExecBody(o, c, fuel, env + [frame], w, alts[0].body))
  }
}
