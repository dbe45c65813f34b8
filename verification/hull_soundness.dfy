/** Type soundness: a program without diagnostics never goes wrong. */
module HullSoundness {
  import opened Wrappers
  import opened HullIr
  import opened HullTyping
  import opened HullAsmNames
  import opened HullEval
  import opened HullTypes

  // ----- coherence of everything a program writes down -----

  ghost predicate CoherentExpr(d: Defs, e: Expr)
    decreases e
  {
    match e.kind
    case Pair(a, b) => CoherentExpr(d, a) && CoherentExpr(d, b)
    case Fst(a) => CoherentExpr(d, a)
    case Snd(a) => CoherentExpr(d, a)
    case Inl(t, a) => Coherent(d, t) && CoherentExpr(d, a)
    case Inr(t, a) => Coherent(d, t) && CoherentExpr(d, a)
    case InK(_, t, a) => Coherent(d, t) && CoherentExpr(d, a)
    case Call(_, args) => forall a | a in args :: CoherentExpr(d, a)
    case If(t, a, b, c) => Coherent(d, t) && CoherentExpr(d, a) && CoherentExpr(d, b) && CoherentExpr(d, c)
    case _ => true
  }

  ghost predicate CoherentBody(d: Defs, body: seq<Stmt>)
    decreases body, 0
  {
    body != [] ==> CoherentStmt(d, body[0]) && CoherentBody(d, body[1..])
  }

  ghost predicate CoherentAlts(d: Defs, alts: seq<Alt>)
    decreases alts, 0
  {
    alts != [] ==> CoherentBody(d, alts[0].body) && CoherentAlts(d, alts[1..])
  }

  ghost predicate CoherentStmt(d: Defs, s: Stmt)
    decreases s, 0
  {
    match s
    case Let(_, t) => Coherent(d, t)
    case Assign(l, r) => CoherentExpr(d, l) && CoherentExpr(d, r)
    case ExprStmt(e) => CoherentExpr(d, e)
    case Return(e) => CoherentExpr(d, e)
    case Block(body) => CoherentBody(d, body)
    case For(init, cond, post, body) =>
      CoherentBody(d, init) && CoherentExpr(d, cond) && CoherentBody(d, post) && CoherentBody(d, body)
    case Match(t, e, alts) => Coherent(d, t) && CoherentExpr(d, e) && CoherentAlts(d, alts)
    case _ => true
  }

  ghost predicate CoherentFunction(d: Defs, f: FunctionDef) {
    (forall a | a in f.args :: Coherent(d, a.ty)) && Coherent(d, f.ret) && CoherentBody(d, f.body)
  }

  // ----- the invariant of a run -----

  function FrameTypes(f: Frame): Vars {
    map x | x in f :: f[x].ty
  }

  function Shapes(env: Env): (r: seq<Vars>)
    ensures |r| == |env|
  {
    seq(|env|, i requires 0 <= i < |env| => FrameTypes(env[i]))
  }

  /** The visible names, the innermost declaration winning. */
  function View(shapes: seq<Vars>): Vars {
    if shapes == [] then map[] else View(shapes[..|shapes| - 1]) + shapes[|shapes| - 1]
  }

  ghost predicate SlotOk(d: Defs, s: Slot) {
    Coherent(d, s.ty) && (s.value.Some? ==> HasType(d, s.value.value, s.ty))
  }

  ghost predicate FrameOk(d: Defs, f: Frame) {
    forall x | x in f :: SlotOk(d, f[x])
  }

  ghost predicate FramesOk(d: Defs, env: Env) {
    forall f | f in env :: FrameOk(d, f)
  }

  /** `env` holds well-typed slots for exactly the variables that `vars` declares. */
  ghost predicate EnvOk(d: Defs, env: Env, vars: Vars) {
    env != [] && FramesOk(d, env) && View(Shapes(env)) == vars
  }

  function Sigs(c: Code): Funs {
    c.prims + (map x | x in c.top :: SigOf(c.top[x])) + (map x | x in c.local :: SigOf(c.local[x]))
  }

  function TopOnly(c: Code): Code {
    Code(c.prims, c.top, map[])
  }

  ghost predicate FunctionOk(d: Defs, asm: Option<AsmChecker>, funs: Funs, f: FunctionDef) {
    CoherentFunction(d, f) && CheckFunction(asm, funs, map[], f) == []
  }

  /** A block that the assembly checker accepts assigns to word variables only. */
  ghost predicate SafeAsm(asm: Option<AsmChecker>) {
    asm.Some? ==> forall funs, vars, stmts {:trigger asm.value(funs, vars, stmts)} ::
      asm.value(funs, vars, stmts) == [] ==> WordTargets(vars, AllTargets(stmts, {}, Leaking))
  }

  /** Every function was checked against the functions that its own body can call. */
  ghost predicate CodeOk(d: Defs, asm: Option<AsmChecker>, c: Code) {
    && SafeAsm(asm)
    && PrimFuns(c.prims)
    && c.top.Keys !! c.prims.Keys
    && c.local.Keys !! c.prims.Keys
    && c.local.Keys !! c.top.Keys
    && (forall x | x in c.top :: FunctionOk(d, asm, Sigs(TopOnly(c)), c.top[x]))
    && (forall x | x in c.local :: FunctionOk(d, asm, Sigs(c), c.local[x]))
  }

  // ----- environments -----

  lemma ShapesPush(env: Env, f: Frame)
    ensures Shapes(env + [f]) == Shapes(env) + [FrameTypes(f)]
    ensures View(Shapes(env + [f])) == View(Shapes(env)) + FrameTypes(f)
  {
    var s := Shapes(env + [f]);
    assert s == Shapes(env) + [FrameTypes(f)];
    assert s[..|s| - 1] == Shapes(env);
  }

  lemma ShapesTop(env: Env)
    requires env != []
    ensures Shapes(env) == Shapes(Pop(env)) + [FrameTypes(env[|env| - 1])]
    ensures View(Shapes(env)) == View(Shapes(Pop(env))) + FrameTypes(env[|env| - 1])
  {
    assert env == Pop(env) + [env[|env| - 1]];
    ShapesPush(Pop(env), env[|env| - 1]);
  }

  lemma {:induction false} LookupOk(d: Defs, env: Env, x: Name)
    requires FramesOk(d, env)
    ensures Lookup(env, x).Some? <==> x in View(Shapes(env))
    ensures x in View(Shapes(env)) ==>
      SlotOk(d, Lookup(env, x).value) && Lookup(env, x).value.ty == View(Shapes(env))[x]
    decreases |env|
  {
    if env != [] {
      ShapesTop(env);
      assert env[|env| - 1] in env;
      forall f | f in Pop(env) ensures f in env { }
      LookupOk(d, Pop(env), x);
    }
  }

  lemma {:induction false} StoreOk(d: Defs, env: Env, x: Name, v: Value)
    requires FramesOk(d, env) && Lookup(env, x).Some? && HasType(d, v, Lookup(env, x).value.ty)
    ensures FramesOk(d, Store(env, x, v)) && Shapes(Store(env, x, v)) == Shapes(env)
    decreases |env|
  {
    var last := env[|env| - 1];
    var env' := Store(env, x, v);
    assert last in env;
    forall f | f in Pop(env) ensures f in env { }
    ShapesTop(env);
    if x in last {
      var f' := last[x := Slot(last[x].ty, Some(v))];
      assert SlotOk(d, last[x]);
      assert FrameTypes(f') == FrameTypes(last);
      ShapesPush(Pop(env), f');
    } else {
      StoreOk(d, Pop(env), x, v);
      ShapesPush(Store(Pop(env), x, v), last);
    }
  }

  lemma ReplaceTop(d: Defs, env: Env, f: Frame)
    requires env != [] && FramesOk(d, env) && FrameOk(d, f)
    ensures FramesOk(d, Pop(env) + [f]) && Pop(Pop(env) + [f]) == Pop(env)
  {
    forall g | g in Pop(env) + [f] ensures FrameOk(d, g) {
      if g in Pop(env) { assert g in env; }
    }
  }

  lemma UninitialisedSlot(d: Defs, f: Frame, x: Name, t: Ty)
    requires FrameOk(d, f) && Coherent(d, t)
    ensures FrameOk(d, f[x := Slot(t, None)])
    ensures FrameTypes(f[x := Slot(t, None)]) == FrameTypes(f)[x := t]
  {
    var f2 := f[x := Slot(t, None)];
    forall y | y in f2 ensures SlotOk(d, f2[y]) {
      if y != x { assert SlotOk(d, f[y]); }
    }
  }

  lemma DeclareVarOk(d: Defs, env: Env, x: Name, t: Ty)
    requires env != [] && FramesOk(d, env) && Coherent(d, t)
    ensures var env' := DeclareVar(env, x, t);
      FramesOk(d, env') && Pop(env') == Pop(env)
      && FrameTypes(env'[|env'| - 1]) == FrameTypes(env[|env| - 1])[x := t]
  {
    var f := env[|env| - 1];
    assert f in env;
    UninitialisedSlot(d, f, x, t);
    ReplaceTop(d, env, f[x := Slot(t, None)]);
  }

  lemma WordIsTyped(d: Defs, n: nat, t: Ty)
    requires IsWordType(t)
    ensures HasType(d, WordV(n % TWO_256), t)
  {
    var v := WordV(n % TWO_256);
    assert HasTypeN(d, 0, v, Word);
    HasTypeStrip(d, v, t);
  }

  /** All targets are visible variables of word types. */
  predicate WordTargets(vars: Vars, targets: set<Name>) {
    forall x | x in targets :: x in vars && IsWordType(vars[x])
  }

  lemma {:induction false} StoreWordsOk(d: Defs, env: Env, targets: set<Name>, writes: seq<(Name, nat)>)
    requires FramesOk(d, env) && WordTargets(View(Shapes(env)), targets)
    ensures StoreWords(env, targets, writes).Success?
    ensures FramesOk(d, StoreWords(env, targets, writes).value)
    ensures Shapes(StoreWords(env, targets, writes).value) == Shapes(env)
    decreases writes
  {
    if writes != [] {
      var (x, n) := writes[0];
      if x in targets {
        LookupOk(d, env, x);
        WordIsTyped(d, n, View(Shapes(env))[x]);
        StoreOk(d, env, x, WordV(n % TWO_256));
        StoreWordsOk(d, Store(env, x, WordV(n % TWO_256)), targets, writes[1..]);
      } else {
        StoreWordsOk(d, env, targets, writes[1..]);
      }
    }
  }

  lemma {:induction false} DeclareAllPlus(a: Vars, b: Vars, stmts: seq<Stmt>)
    ensures DeclareAll(a + b, stmts) == a + DeclareAll(b, stmts)
    decreases stmts
  {
    if stmts != [] {
      assert Declare(a + b, stmts[0]) == a + Declare(b, stmts[0]);
      DeclareAllPlus(a, Declare(b, stmts[0]), stmts[1..]);
    }
  }

  lemma {:induction false} DeclareAllCoherent(d: Defs, vars: Vars, stmts: seq<Stmt>)
    requires CoherentBody(d, stmts) && forall x | x in vars :: Coherent(d, vars[x])
    ensures forall x | x in DeclareAll(vars, stmts) :: Coherent(d, DeclareAll(vars, stmts)[x])
    decreases stmts
  {
    if stmts != [] { DeclareAllCoherent(d, Declare(vars, stmts[0]), stmts[1..]); }
  }

  lemma EmptyFrame(vars: Vars)
    ensures FrameTypes(map[]) == map[] && vars + map[] == vars && vars + FrameTypes(map[]) == vars
  {
  }

  /** Entering a scope whose frame declares `vars'` on top of `vars`. */
  lemma PushOk(d: Defs, env: Env, vars: Vars, f: Frame)
    requires EnvOk(d, env, vars) && FrameOk(d, f)
    ensures EnvOk(d, env + [f], vars + FrameTypes(f))
  {
    ShapesPush(env, f);
  }

  lemma {:induction false} BindFrameOk(d: Defs, frame: Frame, args: seq<Arg>, values: seq<Value>)
    requires |args| == |values| && FrameOk(d, frame)
    requires forall i | 0 <= i < |args| :: Coherent(d, args[i].ty) && HasType(d, values[i], args[i].ty)
    ensures FrameOk(d, BindFrame(frame, args, values))
    ensures FrameTypes(BindFrame(frame, args, values)) == BindArgs(FrameTypes(frame), args)
    decreases args
  {
    if args != [] {
      var slot := Slot(args[0].ty, Some(values[0]));
      var frame' := frame[args[0].name := slot];
      assert SlotOk(d, slot);
      assert FrameTypes(frame') == FrameTypes(frame)[args[0].name := args[0].ty];
      BindFrameOk(d, frame', args[1..], values[1..]);
    }
  }

  // ----- values -----

  lemma {:induction false} NthPayloadCoherent(d: Defs, target: Ty, k: nat)
    requires Coherent(d, target) && NthSumPayload(target, k).Some?
    ensures Coherent(d, NthSumPayload(target, k).value)
    decreases target
  {
    CoherentStrip(d, target);
    var s := StripNamed(target);
    if s.Sum? && k > 0 { NthPayloadCoherent(d, s.rhs, k - 1); }
  }

  lemma {:induction false} InjectTyped(d: Defs, target: Ty, k: nat, v: Value)
    requires NthSumPayload(target, k).Some? && HasType(d, v, NthSumPayload(target, k).value)
    ensures Inject(target, k, v).Success? && HasType(d, Inject(target, k, v).value, target)
    decreases target
  {
    var s := StripNamed(target);
    if s.Sum? {
      if k == 0 {
        HasTypeInl(d, v, s.lhs, s.rhs);
      } else {
        InjectTyped(d, s.rhs, k - 1, v);
        HasTypeInr(d, Inject(s.rhs, k - 1, v).value, s.lhs, s.rhs);
      }
      HasTypeStrip(d, Inject(target, k, v).value, target);
    } else {
      HasTypeStrip(d, v, target);
    }
  }

  lemma SumValue(d: Defs, v: Value, t: Ty)
    requires StripNamed(t).Sum? && HasType(d, v, t)
    ensures v.InlV? || v.InrV?
    ensures v.InlV? ==> HasType(d, v.payload, StripNamed(t).lhs)
    ensures v.InrV? ==> HasType(d, v.payload, StripNamed(t).rhs)
  {
    HasTypeStrip(d, v, t);
    var n: nat :| HasTypeN(d, n, v, StripNamed(t));
    if v.InlV? {
      HasTypeInl(d, v.payload, StripNamed(t).lhs, StripNamed(t).rhs);
    } else {
      HasTypeInr(d, v.payload, StripNamed(t).lhs, StripNamed(t).rhs);
    }
  }

  lemma ProductValue(d: Defs, v: Value, t: Ty)
    requires StripNamed(t).Product? && HasType(d, v, t)
    ensures v.PairV? && HasType(d, v.fst, StripNamed(t).lhs) && HasType(d, v.snd, StripNamed(t).rhs)
  {
    HasTypeStrip(d, v, t);
    var n: nat :| HasTypeN(d, n, v, StripNamed(t));
    HasTypePair(d, v.fst, v.snd, StripNamed(t).lhs, StripNamed(t).rhs);
  }

  lemma {:induction false} ProjectTyped(d: Defs, target: Ty, k: nat, v: Value)
    requires NthSumPayload(target, k).Some? && HasType(d, v, target)
    ensures Project(target, k, v).Success?
    ensures Project(target, k, v).value.Some? ==>
      HasType(d, Project(target, k, v).value.value, NthSumPayload(target, k).value)
    decreases target
  {
    var s := StripNamed(target);
    if s.Sum? {
      SumValue(d, v, target);
      if k > 0 && v.InrV? { ProjectTyped(d, s.rhs, k - 1, v.payload); }
    } else {
      HasTypeStrip(d, v, target);
    }
  }

  ghost predicate MatchOutcome(d: Defs, payload: Ty, r: Run<Option<Value>>) {
    match r
    case Success(bound) => bound.Some? ==> HasType(d, bound.value, payload)
    case Failure(stop) => !stop.Wrong?
  }

  lemma MatchTyped(d: Defs, target: Ty, pat: Pat, v: Value)
    requires Coherent(d, target) && HasType(d, v, target) && PayloadType(target, pat).Some?
    ensures Coherent(d, PayloadType(target, pat).value)
    ensures MatchOutcome(d, PayloadType(target, pat).value, MatchPat(target, pat, v))
  {
    CoherentStrip(d, target);
    match pat
    case VarPat(_) =>
    case Wildcard =>
    case InlPat => SumValue(d, v, target);
    case InrPat => SumValue(d, v, target);
    case InKPat(k) => NthPayloadCoherent(d, target, k); ProjectTyped(d, target, k, v);
    case IntLit(_) => HasTypeStrip(d, v, target);
  }

  lemma {:induction false} EmptyValueTyped(d: Defs, t: Ty)
    requires ReturnCount(t) == 0
    ensures HasType(d, EmptyValue(t), t)
    decreases t
  {
    match t
    case Unit => assert HasTypeN(d, 0, UnitV, Unit);
    case Product(l, r) =>
      EmptyValueTyped(d, l);
      EmptyValueTyped(d, r);
      HasTypePair(d, EmptyValue(l), EmptyValue(r), l, r);
    case Named(_, inner) =>
      EmptyValueTyped(d, inner);
      HasTypeStrip(d, EmptyValue(t), t);
      HasTypeStrip(d, EmptyValue(t), inner);
    case _ =>
  }

  lemma TruthTyped(d: Defs, v: Value, t: Ty)
    requires IsBoolLike(t) && HasType(d, v, t)
    ensures Truth(v).Success?
  {
    var s := StripNamed(t);
    if s.Sum? {
      SumValue(d, v, t);
      HasTypeStrip(d, v.payload, s.lhs);
      HasTypeStrip(d, v.payload, s.rhs);
    } else {
      HasTypeStrip(d, v, t);
    }
  }

  lemma LiteralTyped(d: Defs, s: string)
    ensures LiteralValue(s).Success? ==> LiteralValue(s).value.WordV? && HasType(d, LiteralValue(s).value, Word)
  {
    if LiteralValue(s).Success? { assert HasTypeN(d, 0, LiteralValue(s).value, Word); }
  }

  lemma PrimTyped(d: Defs, o: Oracle, funs: Funs, callee: Name, args: seq<Value>, w: World)
    requires PrimFuns(funs) && callee in funs && |args| == |funs[callee].args|
    requires forall i | 0 <= i < |args| :: HasType(d, args[i], funs[callee].args[i])
    ensures match CallPrim(o, funs, callee, args, w)
            case Success((v, _)) => HasType(d, v, funs[callee].ret)
            case Failure(stop) => !stop.Wrong?
  {
    var sig := funs[callee];
    forall i | 0 <= i < |args| ensures PrimArgOk(sig.args[i], args[i]) {
      assert PrimArgTy(sig.args[i]);
      if sig.args[i] == BOOL_SUM { SumValue(d, args[i], sig.args[i]); }
    }
    if o.prim(callee, args, w).PrimDone? {
      var v := PrimResult(sig.ret, o.prim(callee, args, w).result);
      assert HasTypeN(d, 0, v, sig.ret);
    }
  }

  // ----- places -----

  ghost predicate ExprOutcome(d: Defs, t: Ty, r: Run<Value>) {
    match r
    case Success(v) => HasType(d, v, t)
    case Failure(stop) => !stop.Wrong?
  }

  lemma {:induction false} ReadPlaceTyped(d: Defs, funs: Funs, env: Env, vars: Vars, place: Expr)
    requires EnvOk(d, env, vars) && CheckExpr(funs, vars, place).1 == []
    ensures ExprOutcome(d, CheckExpr(funs, vars, place).0, ReadPlace(env, place))
    decreases place
  {
    match place.kind
    case Var(x) => LookupOk(d, env, x);
    case Fst(e) =>
      ReadPlaceTyped(d, funs, env, vars, e);
      if ReadPlace(env, e).Success? { ProductValue(d, ReadPlace(env, e).value, CheckExpr(funs, vars, e).0); }
    case Snd(e) =>
      ReadPlaceTyped(d, funs, env, vars, e);
      if ReadPlace(env, e).Success? { ProductValue(d, ReadPlace(env, e).value, CheckExpr(funs, vars, e).0); }
    case _ =>
  }

  lemma {:induction false} WritePlaceTyped(d: Defs, funs: Funs, env: Env, vars: Vars, place: Expr, v: Value)
    requires EnvOk(d, env, vars) && CheckExpr(funs, vars, place).1 == []
    requires HasType(d, v, CheckExpr(funs, vars, place).0)
    ensures match WritePlace(env, place, v)
            case Success(env') => FramesOk(d, env') && Shapes(env') == Shapes(env)
            case Failure(stop) => !stop.Wrong?
    decreases place
  {
    match place.kind
    case Var(x) =>
      LookupOk(d, env, x);
      StoreOk(d, env, x, v);
    case Fst(e) =>
      ReadPlaceTyped(d, funs, env, vars, e);
      if ReadPlace(env, e).Success? {
        WriteComponent(d, funs, vars, e, ReadPlace(env, e).value, v, true);
        WritePlaceTyped(d, funs, env, vars, e, PairV(v, ReadPlace(env, e).value.snd));
      }
    case Snd(e) =>
      ReadPlaceTyped(d, funs, env, vars, e);
      if ReadPlace(env, e).Success? {
        WriteComponent(d, funs, vars, e, ReadPlace(env, e).value, v, false);
        WritePlaceTyped(d, funs, env, vars, e, PairV(ReadPlace(env, e).value.fst, v));
      }
    case _ =>
  }

  lemma WriteComponent(d: Defs, funs: Funs, vars: Vars, e: Expr, whole: Value, v: Value, first: bool)
    requires var t := CheckExpr(funs, vars, e).0;
      && HasType(d, whole, t) && StripNamed(t).Product?
      && HasType(d, v, if first then StripNamed(t).lhs else StripNamed(t).rhs)
    ensures whole.PairV?
    ensures HasType(d, if first then PairV(v, whole.snd) else PairV(whole.fst, v), CheckExpr(funs, vars, e).0)
  {
    var t := CheckExpr(funs, vars, e).0;
    ProductValue(d, whole, t);
    var v' := if first then PairV(v, whole.snd) else PairV(whole.fst, v);
    HasTypePair(d, v'.fst, v'.snd, StripNamed(t).lhs, StripNamed(t).rhs);
    HasTypeStrip(d, v', t);
  }

  // ----- the fundamental lemmas, by induction on fuel and syntax -----

  ghost predicate EvalOutcome(d: Defs, t: Ty, r: Run<(Value, World)>) {
    match r
    case Success(out) => HasType(d, out.0, t)
    case Failure(stop) => !stop.Wrong?
  }

  ghost predicate ArgsOutcome(d: Defs, ts: seq<Ty>, r: Run<(seq<Value>, World)>) {
    match r
    case Success(out) => |out.0| == |ts| && forall i | 0 <= i < |ts| :: HasType(d, out.0[i], ts[i])
    case Failure(stop) => !stop.Wrong?
  }

  ghost predicate FlowOk(d: Defs, ret: Option<Ty>, flow: Flow) {
    flow.Returned? ==> ret.Some? && HasType(d, flow.value, ret.value)
  }

  /** A statement keeps the types of all enclosing scopes; when it completes, its own scope declares `top`. */
  ghost predicate ExecOutcome(d: Defs, ret: Option<Ty>, env: Env, top: Vars, r: Run<(Env, Flow, World)>)
    requires env != []
    requires r.Success? ==> |r.value.0| == |env|
  {
    match r
    case Success(out) =>
      && FramesOk(d, out.0)
      && Shapes(Pop(out.0)) == Shapes(Pop(env))
      && FlowOk(d, ret, out.1)
      && (out.1.Next? ==> FrameTypes(out.0[|out.0| - 1]) == top)
    case Failure(stop) => !stop.Wrong?
  }

  ghost predicate CtxOk(d: Defs, c: Code, cx: Ctx) {
    CodeOk(d, cx.asm, c) && cx.funs == Sigs(c) && (cx.ret.Some? ==> Coherent(d, cx.ret.value))
  }

  lemma SigCoherent(d: Defs, c: Code, cx: Ctx, callee: Name)
    requires CtxOk(d, c, cx) && callee in cx.funs
    ensures Coherent(d, cx.funs[callee].ret) && forall t | t in cx.funs[callee].args :: Coherent(d, t)
  {
    if callee in c.local {
      SigOfCoherent(d, c.local[callee]);
    } else if callee in c.top {
      SigOfCoherent(d, c.top[callee]);
    } else {
      assert PrimSig(c.prims[callee]);
      forall t | t in c.prims[callee].args ensures Coherent(d, t) { assert PrimArgTy(t); }
    }
  }

  lemma SigOfCoherent(d: Defs, f: FunctionDef)
    requires CoherentFunction(d, f)
    ensures Coherent(d, SigOf(f).ret) && forall t | t in SigOf(f).args :: Coherent(d, t)
  {
    forall t | t in SigOf(f).args ensures Coherent(d, t) {
      var i :| 0 <= i < |f.args| && SigOf(f).args[i] == t;
      assert f.args[i] in f.args;
    }
  }

  lemma EnvVarsCoherent(d: Defs, env: Env, vars: Vars)
    requires EnvOk(d, env, vars)
    ensures forall x | x in vars :: Coherent(d, vars[x])
  {
    forall x | x in vars ensures Coherent(d, vars[x]) { LookupOk(d, env, x); }
  }

  /** The checker infers coherent types from coherent declarations. */
  lemma {:induction false} InferredCoherent(d: Defs, c: Code, cx: Ctx, vars: Vars, e: Expr)
    requires CtxOk(d, c, cx) && CoherentExpr(d, e) && CheckExpr(cx.funs, vars, e).1 == []
    requires forall x | x in vars :: Coherent(d, vars[x])
    ensures Coherent(d, CheckExpr(cx.funs, vars, e).0)
    decreases e, 1
  {
    match e.kind
    case Pair(_, _) => PairCoherent(d, c, cx, vars, e);
    case Fst(_) => ProjectionCoherent(d, c, cx, vars, e);
    case Snd(_) => ProjectionCoherent(d, c, cx, vars, e);
    case Call(callee, _) => SigCoherent(d, c, cx, callee);
    case _ =>
  }

  lemma {:induction false} PairCoherent(d: Defs, c: Code, cx: Ctx, vars: Vars, e: Expr)
    requires CtxOk(d, c, cx) && CoherentExpr(d, e) && CheckExpr(cx.funs, vars, e).1 == [] && e.kind.Pair?
    requires forall x | x in vars :: Coherent(d, vars[x])
    ensures Coherent(d, CheckExpr(cx.funs, vars, e).0)
    decreases e, 0
  {
    InferredCoherent(d, c, cx, vars, e.kind.e1);
    InferredCoherent(d, c, cx, vars, e.kind.e2);
  }

  lemma {:induction false} ProjectionCoherent(d: Defs, c: Code, cx: Ctx, vars: Vars, e: Expr)
    requires CtxOk(d, c, cx) && CoherentExpr(d, e) && CheckExpr(cx.funs, vars, e).1 == []
    requires (e.kind.Fst? || e.kind.Snd?) && forall x | x in vars :: Coherent(d, vars[x])
    ensures Coherent(d, CheckExpr(cx.funs, vars, e).0)
    decreases e, 0
  {
    InferredCoherent(d, c, cx, vars, e.kind.e);
    CoherentStrip(d, CheckExpr(cx.funs, vars, e.kind.e).0);
  }

  /** A checked value can be used where an equal type is expected. */
  lemma Coerce(d: Defs, c: Code, cx: Ctx, env: Env, vars: Vars, e: Expr, expected: Ty, v: Value)
    requires CtxOk(d, c, cx) && EnvOk(d, env, vars) && CoherentExpr(d, e) && CheckExpr(cx.funs, vars, e).1 == []
    requires Coherent(d, expected) && TypeEq(expected, CheckExpr(cx.funs, vars, e).0)
    requires HasType(d, v, CheckExpr(cx.funs, vars, e).0)
    ensures HasType(d, v, expected)
  {
    EnvVarsCoherent(d, env, vars);
    InferredCoherent(d, c, cx, vars, e);
    TypeEqSound(d, v, expected, CheckExpr(cx.funs, vars, e).0);
  }

  lemma ProjectionStep(d: Defs, o: Oracle, c: Code, cx: Ctx, fuel: nat, env: Env, vars: Vars, w: World, e: Expr)
    requires e.kind.Fst? || e.kind.Snd?
    requires CheckExpr(cx.funs, vars, e).1 == []
    requires EvalOutcome(d, CheckExpr(cx.funs, vars, e.kind.e).0, EvalExpr(o, c, fuel, env, w, e.kind.e))
    ensures EvalOutcome(d, CheckExpr(cx.funs, vars, e).0, EvalExpr(o, c, fuel, env, w, e))
  {
    var r1 := EvalExpr(o, c, fuel, env, w, e.kind.e);
    if r1.Success? { ProductValue(d, r1.value.0, CheckExpr(cx.funs, vars, e.kind.e).0); }
  }

  lemma InlStep(d: Defs, o: Oracle, c: Code, cx: Ctx, fuel: nat, env: Env, vars: Vars, w: World, e: Expr)
    requires CtxOk(d, c, cx) && EnvOk(d, env, vars) && CoherentExpr(d, e) && e.kind.Inl?
    requires CheckExpr(cx.funs, vars, e).1 == []
    requires EvalOutcome(d, CheckExpr(cx.funs, vars, e.kind.e).0, EvalExpr(o, c, fuel, env, w, e.kind.e))
    ensures EvalOutcome(d, CheckExpr(cx.funs, vars, e).0, EvalExpr(o, c, fuel, env, w, e))
  {
    var r1 := EvalExpr(o, c, fuel, env, w, e.kind.e);
    if r1.Success? {
      var s := StripNamed(e.kind.target);
      CoherentStrip(d, e.kind.target);
      Coerce(d, c, cx, env, vars, e.kind.e, s.lhs, r1.value.0);
      HasTypeInl(d, r1.value.0, s.lhs, s.rhs);
      HasTypeStrip(d, InlV(r1.value.0), e.kind.target);
    }
  }

  lemma InrStep(d: Defs, o: Oracle, c: Code, cx: Ctx, fuel: nat, env: Env, vars: Vars, w: World, e: Expr)
    requires CtxOk(d, c, cx) && EnvOk(d, env, vars) && CoherentExpr(d, e) && e.kind.Inr?
    requires CheckExpr(cx.funs, vars, e).1 == []
    requires EvalOutcome(d, CheckExpr(cx.funs, vars, e.kind.e).0, EvalExpr(o, c, fuel, env, w, e.kind.e))
    ensures EvalOutcome(d, CheckExpr(cx.funs, vars, e).0, EvalExpr(o, c, fuel, env, w, e))
  {
    var r1 := EvalExpr(o, c, fuel, env, w, e.kind.e);
    if r1.Success? {
      var s := StripNamed(e.kind.target);
      CoherentStrip(d, e.kind.target);
      Coerce(d, c, cx, env, vars, e.kind.e, s.rhs, r1.value.0);
      HasTypeInr(d, r1.value.0, s.lhs, s.rhs);
      HasTypeStrip(d, InrV(r1.value.0), e.kind.target);
    }
  }

  lemma InKStep(d: Defs, o: Oracle, c: Code, cx: Ctx, fuel: nat, env: Env, vars: Vars, w: World, e: Expr)
    requires CtxOk(d, c, cx) && EnvOk(d, env, vars) && CoherentExpr(d, e) && e.kind.InK?
    requires CheckExpr(cx.funs, vars, e).1 == []
    requires EvalOutcome(d, CheckExpr(cx.funs, vars, e.kind.e).0, EvalExpr(o, c, fuel, env, w, e.kind.e))
    ensures EvalOutcome(d, CheckExpr(cx.funs, vars, e).0, EvalExpr(o, c, fuel, env, w, e))
  {
    var r1 := EvalExpr(o, c, fuel, env, w, e.kind.e);
    if r1.Success? {
      NthPayloadCoherent(d, e.kind.target, e.kind.index);
      Coerce(d, c, cx, env, vars, e.kind.e, NthSumPayload(e.kind.target, e.kind.index).value, r1.value.0);
      InjectTyped(d, e.kind.target, e.kind.index, r1.value.0);
    }
  }

  lemma {:induction false} PairSound(
    d: Defs, o: Oracle, c: Code, cx: Ctx, fuel: nat, env: Env, vars: Vars, w: World, e: Expr)
    requires CtxOk(d, c, cx) && EnvOk(d, env, vars) && CoherentExpr(d, e) && e.kind.Pair?
    requires CheckExpr(cx.funs, vars, e).1 == []
    ensures EvalOutcome(d, CheckExpr(cx.funs, vars, e).0, EvalExpr(o, c, fuel, env, w, e))
    decreases fuel, 1, e, 0
  {
    var (e1, e2) := (e.kind.e1, e.kind.e2);
    ExprSound(d, o, c, cx, fuel, env, vars, w, e1);
    var r1 := EvalExpr(o, c, fuel, env, w, e1);
    if r1.Success? {
      ExprSound(d, o, c, cx, fuel, env, vars, r1.value.1, e2);
      var r2 := EvalExpr(o, c, fuel, env, r1.value.1, e2);
      if r2.Success? {
        HasTypePair(d, r1.value.0, r2.value.0, CheckExpr(cx.funs, vars, e1).0, CheckExpr(cx.funs, vars, e2).0);
      }
    }
  }

  lemma {:induction false} IfSound(
    d: Defs, o: Oracle, c: Code, cx: Ctx, fuel: nat, env: Env, vars: Vars, w: World, e: Expr)
    requires CtxOk(d, c, cx) && EnvOk(d, env, vars) && CoherentExpr(d, e) && e.kind.If?
    requires CheckExpr(cx.funs, vars, e).1 == []
    ensures EvalOutcome(d, CheckExpr(cx.funs, vars, e).0, EvalExpr(o, c, fuel, env, w, e))
    decreases fuel, 1, e, 0
  {
    var cond := e.kind.cond;
    ExprSound(d, o, c, cx, fuel, env, vars, w, cond);
    var r1 := EvalExpr(o, c, fuel, env, w, cond);
    if r1.Success? {
      TruthTyped(d, r1.value.0, CheckExpr(cx.funs, vars, cond).0);
      var branch := if Truth(r1.value.0).value then e.kind.thn else e.kind.els;
      ExprSound(d, o, c, cx, fuel, env, vars, r1.value.1, branch);
      var r2 := EvalExpr(o, c, fuel, env, r1.value.1, branch);
      if r2.Success? { Coerce(d, c, cx, env, vars, branch, e.kind.target, r2.value.0); }
    }
  }

  lemma CallChecked(funs: Funs, vars: Vars, e: Expr)
    requires e.kind.Call? && CheckExpr(funs, vars, e).1 == []
    ensures e.kind.callee in funs
    ensures var sig := funs[e.kind.callee];
      && |sig.args| == |e.kind.args|
      && CheckArgs(funs, vars, sig.args, e.kind.args) == []
      && CheckExpr(funs, vars, e).0 == sig.ret
  {
  }

  lemma CallEvaluates(o: Oracle, c: Code, fuel: nat, env: Env, w: World, e: Expr)
    requires e.kind.Call?
    ensures var r := EvalArgs(o, c, fuel, env, w, e.kind.args);
      EvalExpr(o, c, fuel, env, w, e) == match r
        case Success(out) => CallValue(o, c, fuel, out.1, e.kind.callee, out.0)
        case Failure(stop) => Failure(stop)
  {
  }

  lemma {:induction false} CallExprSound(
    d: Defs, o: Oracle, c: Code, cx: Ctx, fuel: nat, env: Env, vars: Vars, w: World, e: Expr)
    requires CtxOk(d, c, cx) && EnvOk(d, env, vars) && CoherentExpr(d, e) && e.kind.Call?
    requires CheckExpr(cx.funs, vars, e).1 == []
    ensures EvalOutcome(d, CheckExpr(cx.funs, vars, e).0, EvalExpr(o, c, fuel, env, w, e))
    decreases fuel, 1, e, 0
  {
    var (callee, args) := (e.kind.callee, e.kind.args);
    CallChecked(cx.funs, vars, e);
    CallEvaluates(o, c, fuel, env, w, e);
    SigCoherent(d, c, cx, callee);
    ArgsSound(d, o, c, cx, fuel, env, vars, w, cx.funs[callee].args, args);
    var r1 := EvalArgs(o, c, fuel, env, w, args);
    if r1.Success? { CallSound(d, o, c, cx.asm, fuel, r1.value.1, callee, r1.value.0); }
  }

  lemma AtomSound(d: Defs, o: Oracle, c: Code, cx: Ctx, fuel: nat, env: Env, vars: Vars, w: World, e: Expr)
    requires EnvOk(d, env, vars) && CheckExpr(cx.funs, vars, e).1 == []
    requires e.kind.WordLit? || e.kind.BoolLit? || e.kind.UnitLit? || e.kind.Var?
    ensures EvalOutcome(d, CheckExpr(cx.funs, vars, e).0, EvalExpr(o, c, fuel, env, w, e))
  {
    match e.kind
    case WordLit(s) => LiteralTyped(d, s);
    case BoolLit(b) => assert HasTypeN(d, 0, BoolV(b), Bool);
    case UnitLit => assert HasTypeN(d, 0, UnitV, Unit);
    case Var(x) => LookupOk(d, env, x);
  }

  lemma {:induction false} OperandSound(
    d: Defs, o: Oracle, c: Code, cx: Ctx, fuel: nat, env: Env, vars: Vars, w: World, e: Expr)
    requires CtxOk(d, c, cx) && EnvOk(d, env, vars) && CoherentExpr(d, e)
    requires CheckExpr(cx.funs, vars, e).1 == []
    requires e.kind.Fst? || e.kind.Snd? || e.kind.Inl? || e.kind.Inr? || e.kind.InK?
    ensures EvalOutcome(d, CheckExpr(cx.funs, vars, e).0, EvalExpr(o, c, fuel, env, w, e))
    decreases fuel, 1, e, 0
  {
    ExprSound(d, o, c, cx, fuel, env, vars, w, e.kind.e);
    match e.kind
    case Inl(_, _) => InlStep(d, o, c, cx, fuel, env, vars, w, e);
    case Inr(_, _) => InrStep(d, o, c, cx, fuel, env, vars, w, e);
    case InK(_, _, _) => InKStep(d, o, c, cx, fuel, env, vars, w, e);
    case _ => ProjectionStep(d, o, c, cx, fuel, env, vars, w, e);
  }

  /** A checked expression evaluates to a value of the inferred type, or stops without going wrong. */
  lemma {:induction false} ExprSound(
    d: Defs, o: Oracle, c: Code, cx: Ctx, fuel: nat, env: Env, vars: Vars, w: World, e: Expr)
    requires CtxOk(d, c, cx) && EnvOk(d, env, vars) && CoherentExpr(d, e)
    requires CheckExpr(cx.funs, vars, e).1 == []
    ensures EvalOutcome(d, CheckExpr(cx.funs, vars, e).0, EvalExpr(o, c, fuel, env, w, e))
    decreases fuel, 1, e, 1
  {
    match e.kind
    case Pair(_, _) => PairSound(d, o, c, cx, fuel, env, vars, w, e);
    case Call(_, _) => CallExprSound(d, o, c, cx, fuel, env, vars, w, e);
    case If(_, _, _, _) => IfSound(d, o, c, cx, fuel, env, vars, w, e);
    case WordLit(_) => AtomSound(d, o, c, cx, fuel, env, vars, w, e);
    case BoolLit(_) => AtomSound(d, o, c, cx, fuel, env, vars, w, e);
    case UnitLit => AtomSound(d, o, c, cx, fuel, env, vars, w, e);
    case Var(_) => AtomSound(d, o, c, cx, fuel, env, vars, w, e);
    case _ => OperandSound(d, o, c, cx, fuel, env, vars, w, e);
  }

  lemma ArgsCheckedFirst(cx: Ctx, vars: Vars, expected: seq<Ty>, args: seq<Expr>)
    requires |expected| == |args| && args != [] && CheckArgs(cx.funs, vars, expected, args) == []
    ensures CheckExpr(cx.funs, vars, args[0]).1 == [] && TypeEq(expected[0], CheckExpr(cx.funs, vars, args[0]).0)
    ensures CheckArgs(cx.funs, vars, expected[1..], args[1..]) == []
  {
  }

  /** The first argument and then the rest. */
  lemma ArgsOutcomeCons(d: Defs, o: Oracle, c: Code, fuel: nat, env: Env, w: World, expected: seq<Ty>, args: seq<Expr>,
                        v: Value, next: World)
    requires |expected| == |args| && args != [] && EvalExpr(o, c, fuel, env, w, args[0]) == Success((v, next))
    requires HasType(d, v, expected[0]) && ArgsOutcome(d, expected[1..], EvalArgs(o, c, fuel, env, next, args[1..]))
    ensures ArgsOutcome(d, expected, EvalArgs(o, c, fuel, env, w, args))
  {
  }

  lemma {:induction false} ArgsSound(d: Defs, o: Oracle, c: Code, cx: Ctx, fuel: nat, env: Env, vars: Vars, w: World,
                                     expected: seq<Ty>, args: seq<Expr>)
    requires CtxOk(d, c, cx) && EnvOk(d, env, vars)
    requires forall a | a in args :: CoherentExpr(d, a)
    requires |expected| == |args| && CheckArgs(cx.funs, vars, expected, args) == []
    requires forall t | t in expected :: Coherent(d, t)
    ensures ArgsOutcome(d, expected, EvalArgs(o, c, fuel, env, w, args))
    decreases fuel, 1, args
  {
    if args != [] {
      ArgsCheckedFirst(cx, vars, expected, args);
      ExprSound(d, o, c, cx, fuel, env, vars, w, args[0]);
      var r1 := EvalExpr(o, c, fuel, env, w, args[0]);
      if r1.Success? {
        Coerce(d, c, cx, env, vars, args[0], expected[0], r1.value.0);
        ArgsSound(d, o, c, cx, fuel, env, vars, r1.value.1, expected[1..], args[1..]);
        ArgsOutcomeCons(d, o, c, fuel, env, w, expected, args, r1.value.0, r1.value.1);
      }
    }
  }

  /** What a call evaluates to once its arguments are values. */
  function CallValue(o: Oracle, c: Code, fuel: nat, w: World, callee: Name, vs: seq<Value>): Run<(Value, World)> {
    if callee in c.local then CallFunction(o, c, c.local[callee], fuel, w, vs)
    else if callee in c.top then CallFunction(o, TopOnly(c), c.top[callee], fuel, w, vs)
    else CallPrim(o, c.prims, callee, vs, w)
  }

  /** Code of the program, checked without the functions of an object. */
  lemma TopOnlyOk(d: Defs, asm: Option<AsmChecker>, c: Code)
    requires CodeOk(d, asm, c)
    ensures CodeOk(d, asm, TopOnly(c))
  {
    assert TopOnly(TopOnly(c)) == TopOnly(c);
  }

  lemma CalleeSig(c: Code, callee: Name)
    requires callee in Sigs(c) && c.local.Keys !! c.top.Keys && c.local.Keys !! c.prims.Keys
      && c.top.Keys !! c.prims.Keys
    ensures callee in c.local ==> Sigs(c)[callee] == SigOf(c.local[callee])
    ensures callee !in c.local && callee in c.top ==> Sigs(c)[callee] == SigOf(c.top[callee])
    ensures callee !in c.local && callee !in c.top ==> callee in c.prims && Sigs(c)[callee] == c.prims[callee]
  {
  }

  /** The code a user function runs in is checked, and so is the function. */
  lemma CalleeOk(d: Defs, asm: Option<AsmChecker>, c: Code, callee: Name)
    requires CodeOk(d, asm, c) && callee in Sigs(c)
    ensures callee in c.local ==>
      FunctionOk(d, asm, Sigs(c), c.local[callee]) && Sigs(c)[callee] == SigOf(c.local[callee])
    ensures callee !in c.local && callee in c.top ==>
      && CodeOk(d, asm, TopOnly(c)) && FunctionOk(d, asm, Sigs(TopOnly(c)), c.top[callee])
      && Sigs(c)[callee] == SigOf(c.top[callee])
    ensures callee !in c.local && callee !in c.top ==>
      PrimFuns(c.prims) && callee in c.prims && Sigs(c)[callee] == c.prims[callee]
  {
    CalleeSig(c, callee);
    TopOnlyOk(d, asm, c);
  }

  lemma ArgsOfSig(d: Defs, f: FunctionDef, vs: seq<Value>)
    requires |vs| == |SigOf(f).args| && forall i | 0 <= i < |vs| :: HasType(d, vs[i], SigOf(f).args[i])
    ensures |vs| == |f.args| && forall i | 0 <= i < |vs| :: HasType(d, vs[i], f.args[i].ty)
  {
    forall i | 0 <= i < |vs| ensures HasType(d, vs[i], f.args[i].ty) { assert SigOf(f).args[i] == f.args[i].ty; }
  }

  lemma {:induction false} CallSound(
    d: Defs, o: Oracle, c: Code, asm: Option<AsmChecker>, fuel: nat, w: World, callee: Name, vs: seq<Value>)
    requires CodeOk(d, asm, c) && callee in Sigs(c) && |vs| == |Sigs(c)[callee].args|
    requires forall i | 0 <= i < |vs| :: HasType(d, vs[i], Sigs(c)[callee].args[i])
    ensures EvalOutcome(d, Sigs(c)[callee].ret, CallValue(o, c, fuel, w, callee, vs))
    decreases fuel, 0, 1
  {
    CalleeOk(d, asm, c, callee);
    if callee in c.local {
      ArgsOfSig(d, c.local[callee], vs);
      FunctionSound(d, o, c, asm, fuel, w, c.local[callee], vs);
    } else if callee in c.top {
      ArgsOfSig(d, c.top[callee], vs);
      FunctionSound(d, o, TopOnly(c), asm, fuel, w, c.top[callee], vs);
    } else {
      PrimTyped(d, o, c.prims, callee, vs, w);
    }
  }

  lemma EntryOk(d: Defs, f: FunctionDef, vs: seq<Value>)
    requires CoherentFunction(d, f) && |vs| == |f.args|
    requires forall i | 0 <= i < |vs| :: HasType(d, vs[i], f.args[i].ty)
    ensures EnvOk(d, [BindFrame(map[], f.args, vs)], BindArgs(map[], f.args))
  {
    var frame := BindFrame(map[], f.args, vs);
    forall i | 0 <= i < |vs| ensures Coherent(d, f.args[i].ty) { assert f.args[i] in f.args; }
    assert FrameTypes(map[]) == map[];
    BindFrameOk(d, map[], f.args, vs);
    ShapesPush([], frame);
    assert [] + [frame] == [frame];
    assert map[] + FrameTypes(frame) == FrameTypes(frame);
  }

  /** A call of a checked function on well-typed arguments never goes wrong, and returns a value of the result type. */
  lemma {:induction false} FunctionSound(
    d: Defs, o: Oracle, c: Code, asm: Option<AsmChecker>, fuel: nat, w: World, f: FunctionDef, vs: seq<Value>)
    requires CodeOk(d, asm, c) && FunctionOk(d, asm, Sigs(c), f) && |vs| == |f.args|
    requires forall i | 0 <= i < |vs| :: HasType(d, vs[i], f.args[i].ty)
    ensures EvalOutcome(d, f.ret, CallFunction(o, c, f, fuel, w, vs))
    decreases fuel, 0, 0
  {
    if fuel > 0 {
      var cx := Ctx(asm, Sigs(c), Some(f.ret));
      var frame := BindFrame(map[], f.args, vs);
      EntryOk(d, f, vs);
      BodySound(d, o, c, cx, fuel - 1, [frame], BindArgs(map[], f.args), w, f.body);
      if RequiresTerminator(f.ret) {
        NeverFallsThrough(o, c, fuel - 1, [frame], w, f.body, asm.Some?);
      } else {
        EmptyValueTyped(d, f.ret);
      }
    }
  }

  lemma DeclarePlus(outer: Vars, top: Vars, s: Stmt)
    ensures Declare(outer + top, s) == outer + Declare(top, s)
  {
  }

  /** After a completed statement the environment matches the declarations so far. */
  lemma StepOk(d: Defs, ret: Option<Ty>, env: Env, vars: Vars, s: Stmt, r: Run<(Env, Flow, World)>)
    requires EnvOk(d, env, vars) && r.Success? && |r.value.0| == |env| && r.value.1.Next?
    requires ExecOutcome(d, ret, env, Declare(FrameTypes(env[|env| - 1]), s), r)
    ensures EnvOk(d, r.value.0, Declare(vars, s))
  {
    var (outer, top) := (View(Shapes(Pop(env))), FrameTypes(env[|env| - 1]));
    ShapesTop(env);
    ShapesTop(r.value.0);
    DeclarePlus(outer, top, s);
  }

  lemma {:induction false} BodySound(
    d: Defs, o: Oracle, c: Code, cx: Ctx, fuel: nat, env: Env, vars: Vars, w: World, body: seq<Stmt>)
    requires CtxOk(d, c, cx) && EnvOk(d, env, vars) && CoherentBody(d, body)
    requires CheckBody(cx, vars, body) == []
    ensures ExecOutcome(d, cx.ret, env, DeclareAll(FrameTypes(env[|env| - 1]), body),
      ExecBody(o, c, fuel, env, w, body))
    decreases fuel, 1, body, 0
  {
    if body != [] {
      StmtSound(d, o, c, cx, fuel, env, vars, w, body[0]);
      var r1 := ExecStmt(o, c, fuel, env, w, body[0]);
      if r1.Success? && r1.value.1.Next? {
        StepOk(d, cx.ret, env, vars, body[0], r1);
        BodySound(d, o, c, cx, fuel, r1.value.0, Declare(vars, body[0]), r1.value.2, body[1..]);
      }
    }
  }

  /** A body that ran in its own scope leaves the enclosing environment as it was typed. */
  lemma ScopeExit(d: Defs, ret: Option<Ty>, env: Env, f: Frame, top: Vars, r: Run<(Env, Flow, World)>)
    requires env != [] && (r.Success? ==> |r.value.0| == |env| + 1)
    requires ExecOutcome(d, ret, env + [f], top, r)
    ensures ExecOutcome(d, ret, env, FrameTypes(env[|env| - 1]), ExitScope(r))
  {
    if r.Success? {
      var env1 := Pop(r.value.0);
      assert Pop(env + [f]) == env;
      forall g | g in env1 ensures g in r.value.0 { }
      ShapesTop(env);
      ShapesTop(env1);
    }
  }

  lemma ScopeEnv(d: Defs, ret: Option<Ty>, env: Env, vars: Vars, f: Frame, top: Vars, r: Run<(Env, Flow, World)>)
    requires EnvOk(d, env, vars) && r.Success? && |r.value.0| == |env| + 1
    requires ExecOutcome(d, ret, env + [f], top, r)
    ensures EnvOk(d, Pop(r.value.0), vars) && Shapes(Pop(r.value.0)) == Shapes(env)
    ensures FrameOk(d, r.value.0[|r.value.0| - 1])
  {
    var env1 := Pop(r.value.0);
    assert Pop(env + [f]) == env;
    forall g | g in env1 ensures g in r.value.0 { }
    assert r.value.0[|r.value.0| - 1] in r.value.0;
  }

  /** Running a checked body in a scope of its own. */
  lemma {:induction false} ScopedSound(
    d: Defs, o: Oracle, c: Code, cx: Ctx, fuel: nat, env: Env, vars: Vars, f: Frame, w: World, body: seq<Stmt>)
    requires CtxOk(d, c, cx) && EnvOk(d, env, vars) && FrameOk(d, f) && CoherentBody(d, body)
    requires CheckBody(cx, vars + FrameTypes(f), body) == []
    ensures ExecOutcome(d, cx.ret, env + [f], DeclareAll(FrameTypes(f), body), ExecBody(o, c, fuel, env + [f], w, body))
    decreases fuel, 1, body, 1
  {
    PushOk(d, env, vars, f);
    BodySound(d, o, c, cx, fuel, env + [f], vars + FrameTypes(f), w, body);
  }

  /** A body in a scope of its own, which is left behind it. */
  lemma {:induction false} ClosedScopeSound(
    d: Defs, o: Oracle, c: Code, cx: Ctx, fuel: nat, env: Env, vars: Vars, f: Frame, w: World, body: seq<Stmt>)
    requires CtxOk(d, c, cx) && EnvOk(d, env, vars) && FrameOk(d, f) && CoherentBody(d, body)
    requires CheckBody(cx, vars + FrameTypes(f), body) == []
    ensures ExecOutcome(d, cx.ret, env, FrameTypes(env[|env| - 1]),
      ExitScope(ExecBody(o, c, fuel, env + [f], w, body)))
    decreases fuel, 1, body, 2
  {
    ScopedSound(d, o, c, cx, fuel, env, vars, f, w, body);
    ScopeExit(d, cx.ret, env, f, DeclareAll(FrameTypes(f), body), ExecBody(o, c, fuel, env + [f], w, body));
  }

  /** A statement that only changes values, not declarations. */
  lemma SameShapes(d: Defs, ret: Option<Ty>, env: Env, after: Env, w: World)
    requires env != [] && FramesOk(d, after) && Shapes(after) == Shapes(env)
    ensures |after| == |env|
    ensures ExecOutcome(d, ret, env, FrameTypes(env[|env| - 1]), Success((after, Next, w)))
  {
    assert |Shapes(after)| == |after|;
    ShapesTop(env);
    ShapesTop(after);
  }

  lemma {:induction false} AssignSound(
    d: Defs, o: Oracle, c: Code, cx: Ctx, fuel: nat, env: Env, vars: Vars, w: World, s: Stmt)
    requires CtxOk(d, c, cx) && EnvOk(d, env, vars) && s.Assign? && CoherentStmt(d, s) && CheckStmt(cx, vars, s) == []
    ensures ExecOutcome(d, cx.ret, env, FrameTypes(env[|env| - 1]), ExecStmt(o, c, fuel, env, w, s))
    decreases fuel, 1, s, 0
  {
    ExprSound(d, o, c, cx, fuel, env, vars, w, s.rhs);
    var r1 := EvalExpr(o, c, fuel, env, w, s.rhs);
    if r1.Success? {
      EnvVarsCoherent(d, env, vars);
      InferredCoherent(d, c, cx, vars, s.lhs);
      Coerce(d, c, cx, env, vars, s.rhs, CheckExpr(cx.funs, vars, s.lhs).0, r1.value.0);
      WritePlaceTyped(d, cx.funs, env, vars, s.lhs, r1.value.0);
      var r2 := WritePlace(env, s.lhs, r1.value.0);
      if r2.Success? { SameShapes(d, cx.ret, env, r2.value, r1.value.1); }
    }
  }

  lemma {:induction false} ExprStmtSound(
    d: Defs, o: Oracle, c: Code, cx: Ctx, fuel: nat, env: Env, vars: Vars, w: World, s: Stmt)
    requires CtxOk(d, c, cx) && EnvOk(d, env, vars) && (s.ExprStmt? || s.Return?)
    requires CoherentStmt(d, s) && CheckStmt(cx, vars, s) == []
    ensures ExecOutcome(d, cx.ret, env, FrameTypes(env[|env| - 1]), ExecStmt(o, c, fuel, env, w, s))
    decreases fuel, 1, s, 0
  {
    ExprSound(d, o, c, cx, fuel, env, vars, w, s.e);
    var r1 := EvalExpr(o, c, fuel, env, w, s.e);
    if r1.Success? && s.Return? { Coerce(d, c, cx, env, vars, s.e, cx.ret.value, r1.value.0); }
  }

  lemma {:induction false} MatchSound(
    d: Defs, o: Oracle, c: Code, cx: Ctx, fuel: nat, env: Env, vars: Vars, w: World, s: Stmt)
    requires CtxOk(d, c, cx) && EnvOk(d, env, vars) && s.Match? && CoherentStmt(d, s) && CheckStmt(cx, vars, s) == []
    ensures ExecOutcome(d, cx.ret, env, FrameTypes(env[|env| - 1]), ExecStmt(o, c, fuel, env, w, s))
    decreases fuel, 1, s, 0
  {
    ExprSound(d, o, c, cx, fuel, env, vars, w, s.scrutinee);
    var r1 := EvalExpr(o, c, fuel, env, w, s.scrutinee);
    if r1.Success? {
      Coerce(d, c, cx, env, vars, s.scrutinee, s.target, r1.value.0);
      AltsSound(d, o, c, cx, fuel, env, vars, r1.value.1, s.target, r1.value.0, s.alts);
    }
  }

  lemma AssemblySound(d: Defs, o: Oracle, c: Code, cx: Ctx, fuel: nat, env: Env, vars: Vars, w: World, s: Stmt)
    requires CtxOk(d, c, cx) && EnvOk(d, env, vars) && s.Assembly? && CheckStmt(cx, vars, s) == []
    ensures ExecOutcome(d, cx.ret, env, FrameTypes(env[|env| - 1]), ExecStmt(o, c, fuel, env, w, s))
  {
    var step := o.asm(s.asm, env, w);
    if !AsmBlockTerminates(s.asm, true) && step.AsmDone? {
      var targets := AllTargets(s.asm, {}, Leaking);
      assert cx.asm.value(cx.funs, vars, s.asm) == [];
      StoreWordsOk(d, env, targets, step.writes);
      SameShapes(d, cx.ret, env, StoreWords(env, targets, step.writes).value, step.world);
    }
  }

  lemma LetSound(d: Defs, o: Oracle, c: Code, cx: Ctx, fuel: nat, env: Env, w: World, s: Stmt)
    requires env != [] && FramesOk(d, env) && s.Let? && CoherentStmt(d, s)
    ensures ExecOutcome(d, cx.ret, env, Declare(FrameTypes(env[|env| - 1]), s), ExecStmt(o, c, fuel, env, w, s))
  {
    DeclareVarOk(d, env, s.name, s.ty);
  }

  lemma {:induction false} BlockSound(
    d: Defs, o: Oracle, c: Code, cx: Ctx, fuel: nat, env: Env, vars: Vars, w: World, s: Stmt)
    requires CtxOk(d, c, cx) && EnvOk(d, env, vars) && s.Block? && CoherentStmt(d, s) && CheckStmt(cx, vars, s) == []
    ensures ExecOutcome(d, cx.ret, env, FrameTypes(env[|env| - 1]), ExecStmt(o, c, fuel, env, w, s))
    decreases fuel, 1, s, 0
  {
    EmptyFrame(vars);
    ClosedScopeSound(d, o, c, cx, fuel, env, vars, map[], w, s.body);
  }

  /** A checked statement keeps the environment well typed, or stops without going wrong. */
  lemma {:induction false} StmtSound(
    d: Defs, o: Oracle, c: Code, cx: Ctx, fuel: nat, env: Env, vars: Vars, w: World, s: Stmt)
    requires CtxOk(d, c, cx) && EnvOk(d, env, vars) && CoherentStmt(d, s)
    requires CheckStmt(cx, vars, s) == []
    ensures ExecOutcome(d, cx.ret, env, Declare(FrameTypes(env[|env| - 1]), s), ExecStmt(o, c, fuel, env, w, s))
    decreases fuel, 1, s, 3
  {
    match s
    case Let(_, _) => LetSound(d, o, c, cx, fuel, env, w, s);
    case Assign(_, _) => AssignSound(d, o, c, cx, fuel, env, vars, w, s);
    case ExprStmt(_) => ExprStmtSound(d, o, c, cx, fuel, env, vars, w, s);
    case Return(_) => ExprStmtSound(d, o, c, cx, fuel, env, vars, w, s);
    case Block(_) => BlockSound(d, o, c, cx, fuel, env, vars, w, s);
    case For(_, _, _, _) => ForSound(d, o, c, cx, fuel, env, vars, w, s);
    case Match(_, _, _) => MatchSound(d, o, c, cx, fuel, env, vars, w, s);
    case Assembly(_) => AssemblySound(d, o, c, cx, fuel, env, vars, w, s);
    case _ =>
  }

  lemma {:induction false} AltsSound(d: Defs, o: Oracle, c: Code, cx: Ctx, fuel: nat, env: Env, vars: Vars, w: World,
                                     target: Ty, v: Value, alts: seq<Alt>)
    requires CtxOk(d, c, cx) && EnvOk(d, env, vars) && CoherentAlts(d, alts) && Coherent(d, target)
    requires CheckAlts(cx, vars, target, alts) == [] && HasType(d, v, target)
    ensures ExecOutcome(d, cx.ret, env, FrameTypes(env[|env| - 1]), ExecAlts(o, c, fuel, env, w, target, v, alts))
    decreases fuel, 1, alts, 1
  {
    if alts != [] {
      var bound := MatchPat(target, alts[0].pat, v);
      MatchTyped(d, target, alts[0].pat, v);
      if bound.Success? && bound.value.None? {
        AltsSound(d, o, c, cx, fuel, env, vars, w, target, v, alts[1..]);
      } else if bound.Success? {
        AltSound(d, o, c, cx, fuel, env, vars, w, target, bound.value.value, alts[0]);
      }
    }
  }

  lemma BinderOk(d: Defs, vars: Vars, x: Name, ty: Ty, payload: Value, frame: Frame)
    requires Coherent(d, ty) && HasType(d, payload, ty) && frame == map[x := Slot(ty, Some(payload))]
    ensures FrameOk(d, frame) && vars + FrameTypes(frame) == vars[x := ty]
  {
    assert SlotOk(d, frame[x]);
    assert FrameTypes(frame) == map[x := ty];
  }

  lemma {:induction false} AltSound(d: Defs, o: Oracle, c: Code, cx: Ctx, fuel: nat, env: Env, vars: Vars, w: World,
                                    target: Ty, payload: Value, alt: Alt)
    requires CtxOk(d, c, cx) && EnvOk(d, env, vars) && CoherentBody(d, alt.body)
    requires CheckAlt(cx, vars, target, alt) == []
    requires var ty := PayloadType(target, alt.pat); ty.Some? && Coherent(d, ty.value) && HasType(d, payload, ty.value)
    ensures ExecOutcome(d, cx.ret, env, FrameTypes(env[|env| - 1]), ExitScope(
                          ExecBody(o, c, fuel, env + [map[alt.binder := Slot(PayloadType(target, alt.pat).value,
                            Some(payload))]], w, alt.body)))
    decreases fuel, 1, alt
  {
    var ty := PayloadType(target, alt.pat).value;
    var frame := map[alt.binder := Slot(ty, Some(payload))];
    BinderOk(d, vars, alt.binder, ty, payload, frame);
    ClosedScopeSound(d, o, c, cx, fuel, env, vars, frame, w, alt.body);
  }

  lemma {:induction false} ForSound(
    d: Defs, o: Oracle, c: Code, cx: Ctx, fuel: nat, env: Env, vars: Vars, w: World, s: Stmt)
    requires s.For? && CtxOk(d, c, cx) && EnvOk(d, env, vars) && CoherentStmt(d, s)
    requires CheckStmt(cx, vars, s) == []
    ensures ExecOutcome(d, cx.ret, env, FrameTypes(env[|env| - 1]), ExecStmt(o, c, fuel, env, w, s))
    decreases fuel, 1, s, 2
  {
    EmptyFrame(vars);
    ScopedSound(d, o, c, cx, fuel, env, vars, map[], w, s.init);
    var r1 := ExecBody(o, c, fuel, env + [map[]], w, s.init);
    if r1.Success? && r1.value.1.Next? {
      var env1 := r1.value.0;
      InitOk(d, cx.ret, env, vars, s.init, r1);
      var slots := FreshSlots(DeclareAll(map[], s.post));
      FreshSlotsOk(d, s.post);
      LoopSound(d, o, c, cx, fuel, env1, DeclareAll(vars, s.init), slots, r1.value.2, s);
      LoopExit(d, cx.ret, env, env1, ExecLoop(o, c, fuel, env1, slots, r1.value.2, s));
    }
  }

  lemma InitOk(d: Defs, ret: Option<Ty>, env: Env, vars: Vars, init: seq<Stmt>, r: Run<(Env, Flow, World)>)
    requires EnvOk(d, env, vars) && r.Success? && |r.value.0| == |env| + 1 && r.value.1.Next?
    requires ExecOutcome(d, ret, env + [map[]], DeclareAll(map[], init), r)
    ensures EnvOk(d, r.value.0, DeclareAll(vars, init)) && Shapes(Pop(r.value.0)) == Shapes(env)
  {
    assert Pop(env + [map[]]) == env;
    DeclareAllPlus(vars, map[], init);
    assert vars + map[] == vars;
    ShapesTop(r.value.0);
  }

  lemma FreshSlotsOk(d: Defs, post: seq<Stmt>)
    requires CoherentBody(d, post)
    ensures FrameOk(d, FreshSlots(DeclareAll(map[], post)))
    ensures FrameTypes(FreshSlots(DeclareAll(map[], post))) == DeclareAll(map[], post)
  {
    DeclareAllCoherent(d, map[], post);
  }

  ghost predicate LoopOutcome(d: Defs, ret: Option<Ty>, env: Env, r: Run<(Env, Flow, World)>) {
    match r
    case Success(out) =>
      |out.0| == |env| && FramesOk(d, out.0) && Shapes(out.0) == Shapes(env) && FlowOk(d, ret, out.1)
    case Failure(stop) => !stop.Wrong?
  }

  /** An environment of the shape of `env1` whose outer scopes have the shape of `env`. */
  lemma OuterShapes(env: Env, env1: Env, env2: Env)
    requires env != [] && env1 != [] && Shapes(Pop(env1)) == Shapes(env)
    requires Shapes(env2) == Shapes(env1)
    ensures |env1| == |env2| == |env| + 1
    ensures Shapes(Pop(Pop(env2))) == Shapes(Pop(env))
    ensures FrameTypes(Pop(env2)[|env| - 1]) == FrameTypes(env[|env| - 1])
  {
    assert |Shapes(Pop(env1))| == |Shapes(env)|;
    assert |Shapes(env2)| == |Shapes(env1)|;
    ShapesTop(env2);
    ShapesTop(env1);
    assert Shapes(Pop(env2)) == Shapes(env);
    ShapesTop(Pop(env2));
    ShapesTop(env);
  }

  lemma LoopExit(d: Defs, ret: Option<Ty>, env: Env, env1: Env, r: Run<(Env, Flow, World)>)
    requires env != [] && env1 != [] && Shapes(Pop(env1)) == Shapes(env) && LoopOutcome(d, ret, env1, r)
    ensures |env1| == |env| + 1
    ensures ExecOutcome(d, ret, env, FrameTypes(env[|env| - 1]), ExitScope(r))
  {
    OuterShapes(env, env1, env1);
    if r.Success? {
      OuterShapes(env, env1, r.value.0);
      forall g | g in Pop(r.value.0) ensures FrameOk(d, g) { assert g in r.value.0; }
    }
  }

  ghost predicate LoopOk(d: Defs, c: Code, cx: Ctx, vars: Vars, s: Stmt)
  {
    && s.For? && CtxOk(d, c, cx) && CoherentStmt(d, s)
    && CheckExpr(cx.funs, vars, s.cond).1 == [] && IsBoolLike(CheckExpr(cx.funs, vars, s.cond).0)
    && CheckBody(cx, vars, s.post) == [] && CheckBody(cx, DeclareAll(vars, s.post), s.body) == []
  }

  /** The outcome of the body of an iteration, run on top of the slots of the loop. */
  ghost predicate LoopBodyOutcome(d: Defs, ret: Option<Ty>, env: Env, vars: Vars, r: Run<(Env, Flow, World)>) {
    match r
    case Success(out) =>
      && |out.0| == |env| + 2
      && FlowOk(d, ret, out.1)
      && EnvOk(d, Pop(Pop(out.0)), vars) && Shapes(Pop(Pop(out.0))) == Shapes(env)
    case Failure(stop) => !stop.Wrong?
  }

  /** The run from the end of an iteration's body on. */
  function AfterBody(o: Oracle, c: Code, fuel: nat, env: Env, w: World, s: Stmt): Run<(Env, Flow, World)>
    requires env != [] && s.For?
  {
    var (env3, flow3, w3) :- ExecBody(o, c, fuel, env + [map[]], w, s.post);
    if !flow3.Next? then Failure(Trapped(StrayLoopExit))
    else if fuel == 0 then Failure(Exhausted)
    else ExecLoop(o, c, fuel - 1, Pop(env3), env3[|env3| - 1], w3, s)
  }

  lemma {:induction false} LoopSound(
    d: Defs, o: Oracle, c: Code, cx: Ctx, fuel: nat, env: Env, vars: Vars, slots: Frame, w: World, s: Stmt)
    requires LoopOk(d, c, cx, vars, s) && EnvOk(d, env, vars)
    requires FrameOk(d, slots) && FrameTypes(slots) == DeclareAll(map[], s.post)
    ensures LoopOutcome(d, cx.ret, env, ExecLoop(o, c, fuel, env, slots, w, s))
    decreases fuel, 1, s, 1
  {
    ExprSound(d, o, c, cx, fuel, env, vars, w, s.cond);
    var r1 := EvalExpr(o, c, fuel, env, w, s.cond);
    if r1.Success? {
      TruthTyped(d, r1.value.0, CheckExpr(cx.funs, vars, s.cond).0);
      LoopBodySound(d, o, c, cx, fuel, env, vars, slots, r1.value.1, s);
      var r2 := ExecBody(o, c, fuel, env + [slots] + [map[]], r1.value.1, s.body);
      if r2.Success? { PostSound(d, o, c, cx, fuel, env, Pop(Pop(r2.value.0)), vars, r2.value.2, s); }
      LoopStep(d, o, c, cx.ret, fuel, env, vars, slots, w, s);
    }
  }

  /** The run from an iteration's body on. */
  function FromBody(o: Oracle, c: Code, fuel: nat, env: Env, slots: Frame, w: World, s: Stmt): Run<(Env, Flow, World)>
    requires env != [] && s.For?
  {
    var (env1, flow, w2) :- ExecBody(o, c, fuel, env + [slots] + [map[]], w, s.body);
    var env2 := Pop(Pop(env1));
    if flow.Broke? then Success((env2, Next, w2))
    else if flow.Returned? then Success((env2, flow, w2))
    else AfterBody(o, c, fuel, env2, w2, s)
  }

  lemma LoopUnfolds(o: Oracle, c: Code, fuel: nat, env: Env, slots: Frame, w: World, s: Stmt)
    requires env != [] && s.For?
    requires var r := EvalExpr(o, c, fuel, env, w, s.cond); r.Success? && Truth(r.value.0).Success?
    ensures var r := EvalExpr(o, c, fuel, env, w, s.cond);
      ExecLoop(o, c, fuel, env, slots, w, s)
      == if Truth(r.value.0).value then FromBody(o, c, fuel, env, slots, r.value.1, s)
         else Success((env, Next, r.value.1))
  {
  }

  lemma FromBodyOk(
    d: Defs, o: Oracle, c: Code, ret: Option<Ty>, fuel: nat, env: Env, vars: Vars, slots: Frame, w: World, s: Stmt)
    requires s.For? && EnvOk(d, env, vars)
    requires var r := ExecBody(o, c, fuel, env + [slots] + [map[]], w, s.body);
      && LoopBodyOutcome(d, ret, env, vars, r)
      && (r.Success? ==> LoopOutcome(d, ret, env, AfterBody(o, c, fuel, Pop(Pop(r.value.0)), r.value.2, s)))
    ensures LoopOutcome(d, ret, env, FromBody(o, c, fuel, env, slots, w, s))
  {
  }

  /** One iteration, given what its parts are known to do. */
  lemma LoopStep(
    d: Defs, o: Oracle, c: Code, ret: Option<Ty>, fuel: nat, env: Env, vars: Vars, slots: Frame, w: World, s: Stmt)
    requires s.For? && EnvOk(d, env, vars)
    requires var r1 := EvalExpr(o, c, fuel, env, w, s.cond);
      && r1.Success? && Truth(r1.value.0).Success?
      && var r2 := ExecBody(o, c, fuel, env + [slots] + [map[]], r1.value.1, s.body);
         && LoopBodyOutcome(d, ret, env, vars, r2)
         && (r2.Success? ==> LoopOutcome(d, ret, env, AfterBody(o, c, fuel, Pop(Pop(r2.value.0)), r2.value.2, s)))
    ensures LoopOutcome(d, ret, env, ExecLoop(o, c, fuel, env, slots, w, s))
  {
    LoopUnfolds(o, c, fuel, env, slots, w, s);
    FromBodyOk(d, o, c, ret, fuel, env, vars, slots, EvalExpr(o, c, fuel, env, w, s.cond).value.1, s);
  }

  lemma {:induction false} LoopBodySound(
    d: Defs, o: Oracle, c: Code, cx: Ctx, fuel: nat, env: Env, vars: Vars, slots: Frame, w: World, s: Stmt)
    requires LoopOk(d, c, cx, vars, s) && EnvOk(d, env, vars)
    requires FrameOk(d, slots) && FrameTypes(slots) == DeclareAll(map[], s.post)
    ensures LoopBodyOutcome(d, cx.ret, env, vars, ExecBody(o, c, fuel, env + [slots] + [map[]], w, s.body))
    decreases fuel, 1, s, 0
  {
    SlotsEnvOk(d, env, vars, slots, s.post);
    ScopedSound(d, o, c, cx, fuel, env + [slots], DeclareAll(vars, s.post), map[], w, s.body);
    var r := ExecBody(o, c, fuel, env + [slots] + [map[]], w, s.body);
    if r.Success? {
      ScopeEnv(d, cx.ret, env + [slots], DeclareAll(vars, s.post), map[], DeclareAll(FrameTypes(map[]), s.body), r);
      PopSlots(d, env, vars, slots, Pop(r.value.0));
    }
  }

  lemma SlotsEnvOk(d: Defs, env: Env, vars: Vars, slots: Frame, post: seq<Stmt>)
    requires EnvOk(d, env, vars) && FrameOk(d, slots) && FrameTypes(slots) == DeclareAll(map[], post)
    ensures EnvOk(d, env + [slots], DeclareAll(vars, post))
    ensures DeclareAll(vars, post) + FrameTypes(map[]) == DeclareAll(vars, post)
  {
    PushOk(d, env, vars, slots);
    assert vars + map[] == vars;
    DeclareAllPlus(vars, map[], post);
  }

  lemma PopSlots(d: Defs, env: Env, vars: Vars, slots: Frame, env1: Env)
    requires EnvOk(d, env, vars) && |env1| == |env| + 1 && FramesOk(d, env1) && Shapes(env1) == Shapes(env + [slots])
    ensures EnvOk(d, Pop(env1), vars) && Shapes(Pop(env1)) == Shapes(env)
  {
    ShapesTop(env1);
    ShapesPush(env, slots);
    assert Shapes(Pop(env1)) == Shapes(env1)[..|env|];
    assert Shapes(env) == Shapes(env + [slots])[..|env|];
    forall g | g in Pop(env1) ensures g in env1 { }
  }

  /** The rest of an iteration after its body. */
  lemma {:induction false} PostSound(
    d: Defs, o: Oracle, c: Code, cx: Ctx, fuel: nat, env: Env, env2: Env, vars: Vars, w: World, s: Stmt)
    requires LoopOk(d, c, cx, vars, s) && EnvOk(d, env2, vars) && Shapes(env2) == Shapes(env)
    ensures LoopOutcome(d, cx.ret, env, AfterBody(o, c, fuel, env2, w, s))
    decreases fuel, 1, s, 0
  {
    EmptyFrame(vars);
    ScopedSound(d, o, c, cx, fuel, env2, vars, map[], w, s.post);
    var r3 := ExecBody(o, c, fuel, env2 + [map[]], w, s.post);
    if r3.Success? && r3.value.1.Next? && fuel > 0 {
      ScopeEnv(d, cx.ret, env2, vars, map[], DeclareAll(map[], s.post), r3);
      PostFrame(d, cx.ret, env2, s.post, r3);
      LoopSound(d, o, c, cx, fuel - 1, Pop(r3.value.0), vars, r3.value.0[|r3.value.0| - 1], r3.value.2, s);
      assert |env| == |env2| by { assert |Shapes(env2)| == |Shapes(env)|; }
    }
  }

  lemma PostFrame(d: Defs, ret: Option<Ty>, env: Env, post: seq<Stmt>, r: Run<(Env, Flow, World)>)
    requires r.Success? && |r.value.0| == |env| + 1 && r.value.1.Next?
    requires ExecOutcome(d, ret, env + [map[]], DeclareAll(FrameTypes(map[]), post), r)
    ensures FrameTypes(r.value.0[|r.value.0| - 1]) == DeclareAll(map[], post)
  {
    EmptyFrame(map[]);
  }

  // ----- bodies that end in a terminator -----

  lemma {:induction false} AsmTerminatesMono(stmts: seq<YulStmt>, db: bool)
    requires AsmBlockTerminates(stmts, db)
    ensures AsmBlockTerminates(stmts, true)
    decreases stmts
  {
    var last := stmts[|stmts| - 1];
    match last
    case YulBlock(body) => AsmTerminatesMono(body, db);
    case YulSwitch(_, cases, _, default) =>
      forall k | k in cases ensures AsmBlockTerminates(k.body, true) { AsmTerminatesMono(k.body, db); }
      AsmTerminatesMono(default, db);
    case _ =>
  }

  ghost predicate NotNext(r: Run<(Env, Flow, World)>) {
    r.Success? ==> !r.value.1.Next?
  }

  /** What `body_terminates` accepts never runs off its end. */
  lemma {:induction false} NeverFallsThrough(
    o: Oracle, c: Code, fuel: nat, env: Env, w: World, body: seq<Stmt>, db: bool)
    requires env != [] && BodyTerminates(body, db)
    ensures NotNext(ExecBody(o, c, fuel, env, w, body))
    decreases body
  {
    var r1 := ExecStmt(o, c, fuel, env, w, body[0]);
    if |body| == 1 {
      StmtNeverFallsThrough(o, c, fuel, env, w, body[0], db);
    } else if r1.Success? && r1.value.1.Next? {
      assert body[1..][|body| - 2] == body[|body| - 1];
      NeverFallsThrough(o, c, fuel, r1.value.0, r1.value.2, body[1..], db);
    }
  }

  lemma {:induction false} StmtNeverFallsThrough(o: Oracle, c: Code, fuel: nat, env: Env, w: World, s: Stmt, db: bool)
    requires env != [] && StmtTerminates(s, db)
    ensures NotNext(ExecStmt(o, c, fuel, env, w, s))
    decreases s
  {
    match s
    case Block(body) => NeverFallsThrough(o, c, fuel, env + [map[]], w, body, db);
    case Match(target, scrutinee, alts) =>
      var r1 := EvalExpr(o, c, fuel, env, w, scrutinee);
      if r1.Success? { AltsNeverFallThrough(o, c, fuel, env, r1.value.1, target, r1.value.0, alts, db); }
    case Assembly(asm) => AsmTerminatesMono(asm, db);
    case _ =>
  }

  lemma {:induction false} AltsNeverFallThrough(o: Oracle, c: Code, fuel: nat, env: Env, w: World, target: Ty, v: Value,
                                                alts: seq<Alt>, db: bool)
    requires env != [] && forall alt | alt in alts :: BodyTerminates(alt.body, db)
    ensures NotNext(ExecAlts(o, c, fuel, env, w, target, v, alts))
    decreases alts
  {
    if alts != [] {
      var alt := alts[0];
      var bound := MatchPat(target, alt.pat, v);
      if bound.Success? && bound.value.None? {
        AltsNeverFallThrough(o, c, fuel, env, w, target, v, alts[1..], db);
      } else if bound.Success? {
        var ty := match PayloadType(target, alt.pat) case Some(t) => t case None => Unit;
        NeverFallsThrough(o, c, fuel, env + [map[alt.binder := Slot(ty, Some(bound.value.value))]], w, alt.body, db);
      }
    }
  }
}
