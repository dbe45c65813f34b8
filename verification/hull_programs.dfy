/** Type soundness of whole Hull programs, and what it needs of type references. */
module HullPrograms {
  import opened Wrappers
  import opened HullIr
  import opened HullTyping
  import opened HullBuiltins
  import opened HullAsmTyping
  import opened HullAsmNames
  import opened HullAsmTargets
  import opened HullEval
  import opened HullTypes
  import opened HullSoundness
  import opened HullProgramTypes

  function TableOf(fs: seq<FunctionDef>): map<Name, FunctionDef> {
    if fs == [] then map[] else map[fs[0].name := fs[0]] + TableOf(fs[1..])
  }

  function SigTable(t: map<Name, FunctionDef>): Funs {
    map x | x in t :: SigOf(t[x])
  }

  /** All objects of a program, at any depth. */
  function AllObjects(os: seq<Object>): seq<Object>
    decreases os
  {
    if os == [] then [] else [os[0]] + AllObjects(os[0].inners) + AllObjects(os[1..])
  }

  function ProgramCode(prims: Funs, p: Program): Code {
    Code(prims, TableOf(p.functions), map[])
  }

  function ObjectCode(prims: Funs, p: Program, ob: Object): Code {
    Code(prims, TableOf(p.functions), TableOf(ob.functions))
  }

  /** The parts of a coherent program, as soundness needs them. */
  ghost predicate CoherentParts(d: Defs, p: Program) {
    && (forall f | f in p.functions :: CoherentFunction(d, f))
    && (forall ob | ob in AllObjects(p.objects) ::
          (forall f | f in ob.functions :: CoherentFunction(d, f)) && CoherentBody(d, ob.stmts))
  }

  lemma {:induction false} ObjectsPart(d: Defs, os: seq<Object>)
    requires AllCoherent(d, ObjectsTypes(os))
    ensures forall ob | ob in AllObjects(os) ::
      (forall f | f in ob.functions :: CoherentFunction(d, f)) && CoherentBody(d, ob.stmts)
    decreases os
  {
    if os != [] {
      FunctionsPart(d, os[0].functions);
      BodyPart(d, os[0].stmts);
      ObjectsPart(d, os[0].inners);
      ObjectsPart(d, os[1..]);
    }
  }

  lemma ProgramPart(d: Defs, p: Program)
    requires CoherentProgram(d, p)
    ensures CoherentParts(d, p)
  {
    FunctionsPart(d, p.functions);
    ObjectsPart(d, p.objects);
  }

  lemma {:induction false} TableOfOk(funs: Funs, fs: seq<FunctionDef>)
    requires Register(funs, fs).1 == []
    ensures TableOf(fs).Keys !! funs.Keys
    ensures forall f | f in fs :: f.name in TableOf(fs) && TableOf(fs)[f.name] == f
    ensures forall x | x in TableOf(fs) :: TableOf(fs)[x] in fs
    decreases fs
  {
    if fs != [] {
      TableOfOk(funs[fs[0].name := SigOf(fs[0])], fs[1..]);
      assert fs[0].name !in TableOf(fs[1..]);
      forall f | f in fs ensures f.name in TableOf(fs) && TableOf(fs)[f.name] == f {
        if f != fs[0] { assert f in fs[1..]; }
      }
    }
  }

  /** Registering without a duplicate extends the functions by exactly the new signatures. */
  lemma {:induction false} RegisterOk(funs: Funs, fs: seq<FunctionDef>)
    requires Register(funs, fs).1 == []
    ensures Register(funs, fs).0 == funs + SigTable(TableOf(fs))
    decreases fs
  {
    if fs != [] {
      var funs' := funs[fs[0].name := SigOf(fs[0])];
      RegisterOk(funs', fs[1..]);
      TableOfOk(funs', fs[1..]);
      assert fs[0].name !in TableOf(fs[1..]);
      SigTableCons(funs, fs[0], TableOf(fs[1..]));
    }
  }

  lemma SigTableCons(funs: Funs, f: FunctionDef, t: map<Name, FunctionDef>)
    requires f.name !in t
    ensures funs + SigTable(map[f.name := f] + t) == funs[f.name := SigOf(f)] + SigTable(t)
  {
  }

  lemma {:induction false} FunctionsChecked(asm: Option<AsmChecker>, funs: Funs, fs: seq<FunctionDef>)
    requires CheckFunctions(asm, funs, fs) == []
    ensures forall f | f in fs :: CheckFunction(asm, funs, map[], f) == []
    decreases fs
  {
    if fs != [] {
      FunctionsChecked(asm, funs, fs[1..]);
      forall f | f in fs ensures CheckFunction(asm, funs, map[], f) == [] {
        if f != fs[0] { assert f in fs[1..]; }
      }
    }
  }

  lemma {:induction false} ObjectsChecked(asm: Option<AsmChecker>, funs: Funs, os: seq<Object>, ob: Object)
    requires CheckObjects(asm, funs, os) == [] && ob in AllObjects(os)
    ensures CheckObject(asm, funs, ob) == []
    decreases os
  {
    if ob != os[0] {
      if ob in AllObjects(os[0].inners) {
        ObjectsChecked(asm, funs, os[0].inners, ob);
      } else {
        ObjectsChecked(asm, funs, os[1..], ob);
      }
    }
  }

  lemma FunctionsOk(d: Defs, asm: Option<AsmChecker>, funs: Funs, fs: seq<FunctionDef>)
    requires CheckFunctions(asm, funs, fs) == [] && forall f | f in fs :: CoherentFunction(d, f)
    ensures forall f | f in fs :: FunctionOk(d, asm, funs, f)
  {
    FunctionsChecked(asm, funs, fs);
  }

  lemma SigsOfTables(prims: Funs, top: map<Name, FunctionDef>, local: map<Name, FunctionDef>)
    ensures Sigs(Code(prims, top, local)) == prims + SigTable(top) + SigTable(local)
    ensures Sigs(Code(prims, top, map[])) == prims + SigTable(top)
    ensures (prims + SigTable(top)).Keys == prims.Keys + top.Keys
  {
  }

  /** The functions that calls find are exactly the registered ones. */
  lemma ProgramParts(asm: Option<AsmChecker>, prims: Funs, p: Program)
    requires CheckProgramWith(asm, prims, p) == []
    ensures Register(prims, p.functions).0 == Sigs(ProgramCode(prims, p))
    ensures TableOf(p.functions).Keys !! prims.Keys
    ensures forall x | x in TableOf(p.functions) :: TableOf(p.functions)[x] in p.functions
    ensures CheckFunctions(asm, Sigs(ProgramCode(prims, p)), p.functions) == []
  {
    TableOfOk(prims, p.functions);
    RegisterOk(prims, p.functions);
    SigsOfTables(prims, TableOf(p.functions), map[]);
  }

  lemma ProgramCodeOk(d: Defs, asm: Option<AsmChecker>, prims: Funs, p: Program)
    requires SafeAsm(asm) && PrimFuns(prims) && CoherentProgram(d, p) && CheckProgramWith(asm, prims, p) == []
    ensures CodeOk(d, asm, ProgramCode(prims, p))
    ensures Register(prims, p.functions).0 == Sigs(ProgramCode(prims, p))
    ensures forall f | f in p.functions :: FunctionOk(d, asm, Sigs(ProgramCode(prims, p)), f)
  {
    ProgramPart(d, p);
    ProgramParts(asm, prims, p);
    var c := ProgramCode(prims, p);
    FunctionsOk(d, asm, Sigs(c), p.functions);
    assert TopOnly(c) == c;
  }

  lemma ObjectCodeOk(d: Defs, asm: Option<AsmChecker>, prims: Funs, p: Program, ob: Object)
    requires SafeAsm(asm) && PrimFuns(prims) && CoherentProgram(d, p) && CheckProgramWith(asm, prims, p) == []
    requires ob in AllObjects(p.objects)
    ensures CodeOk(d, asm, ObjectCode(prims, p, ob))
    ensures forall f | f in ob.functions :: FunctionOk(d, asm, Sigs(ObjectCode(prims, p, ob)), f)
    ensures CheckBody(Ctx(asm, Sigs(ObjectCode(prims, p, ob)), None), map[], ob.stmts) == []
  {
    var c := ObjectCode(prims, p, ob);
    ProgramPart(d, p);
    ProgramCodeOk(d, asm, prims, p);
    assert TopOnly(c) == ProgramCode(prims, p);
    ObjectChecked(asm, prims, p, ob);
    FunctionsChecked(asm, Sigs(c), ob.functions);
    forall x | x in c.local ensures FunctionOk(d, asm, Sigs(c), c.local[x]) { assert c.local[x] in ob.functions; }
  }

  lemma ObjectParts(asm: Option<AsmChecker>, funs: Funs, ob: Object)
    requires CheckObject(asm, funs, ob) == []
    ensures var t := TableOf(ob.functions);
      && t.Keys !! funs.Keys
      && (forall x | x in t :: t[x] in ob.functions)
      && CheckFunctions(asm, funs + SigTable(t), ob.functions) == []
      && CheckBody(Ctx(asm, funs + SigTable(t), None), map[], ob.stmts) == []
  {
    TableOfOk(funs, ob.functions);
    RegisterOk(funs, ob.functions);
  }

  /** The checks of one object, against the functions that its code can call. */
  lemma ObjectChecked(asm: Option<AsmChecker>, prims: Funs, p: Program, ob: Object)
    requires CheckProgramWith(asm, prims, p) == [] && ob in AllObjects(p.objects)
    ensures var c := ObjectCode(prims, p, ob);
      && c.local.Keys !! c.prims.Keys && c.local.Keys !! c.top.Keys
      && CheckFunctions(asm, Sigs(c), ob.functions) == []
      && CheckBody(Ctx(asm, Sigs(c), None), map[], ob.stmts) == []
      && forall x | x in c.local :: c.local[x] in ob.functions
  {
    RegisterOk(prims, p.functions);
    var funs := Register(prims, p.functions).0;
    ObjectsChecked(asm, funs, p.objects, ob);
    ObjectParts(asm, funs, ob);
    SigsOfTables(prims, TableOf(p.functions), TableOf(ob.functions));
  }

  lemma StmtsSound(d: Defs, asm: Option<AsmChecker>, c: Code, o: Oracle, fuel: nat, w: World, stmts: seq<Stmt>)
    requires CodeOk(d, asm, c) && CoherentBody(d, stmts)
    requires CheckBody(Ctx(asm, Sigs(c), None), map[], stmts) == []
    ensures match ExecBody(o, c, fuel, [map[]], w, stmts)
            case Success(out) => !out.1.Returned?
            case Failure(stop) => !stop.Wrong?
  {
    var frame: Frame := map[];
    ShapesPush([], frame);
    assert [] + [frame] == [frame];
    EmptyFrame(map[]);
    BodySound(d, o, c, Ctx(asm, Sigs(c), None), fuel, [frame], map[], w, stmts);
  }

  // ----- the theorems -----

  /** What a call of a well-typed function may end in. */
  ghost predicate ReturnsTyped(d: Defs, ret: Ty, r: Run<(Value, World)>) {
    match r
    case Success(out) => HasType(d, out.0, ret)
    case Failure(stop) => !stop.Wrong?
  }

  /** What the code of an object may end in; it returns no value. */
  ghost predicate EndsWell(r: Run<(Env, Flow, World)>) {
    match r
    case Success(out) => !out.1.Returned?
    case Failure(stop) => !stop.Wrong?
  }

  ghost predicate ArgsTyped(d: Defs, f: FunctionDef, args: seq<Value>) {
    |args| == |f.args| && forall i | 0 <= i < |args| :: HasType(d, args[i], f.args[i].ty)
  }

  /**
   Type soundness for the functions of a program, for any builtins on words and any checker of assembly that lets blocks
   assign to word variables only: no diagnostics means that no finite call on well-typed arguments goes wrong, whatever
   the builtins answer and the assembly blocks store, and that a returned value has the declared type.
   */
  lemma FunctionsNeverGoWrong(
    d: Defs, asm: Option<AsmChecker>, prims: Funs, p: Program, f: FunctionDef, o: Oracle, fuel: nat, w: World,
    args: seq<Value>)
    requires SafeAsm(asm) && CoherentProgram(d, p) && PrimFuns(prims)
    requires CheckProgramWith(asm, prims, p) == [] && f in p.functions && ArgsTyped(d, f, args)
    ensures ReturnsTyped(d, f.ret, CallFunction(o, ProgramCode(prims, p), f, fuel, w, args))
  {
    ProgramCodeOk(d, asm, prims, p);
    FunctionSound(d, o, ProgramCode(prims, p), asm, fuel, w, f, args);
  }

  /** The same for the functions of every object, at any depth. */
  lemma ObjectFunctionsNeverGoWrong(
    d: Defs, asm: Option<AsmChecker>, prims: Funs, p: Program, ob: Object, f: FunctionDef, o: Oracle, fuel: nat,
    w: World, args: seq<Value>)
    requires SafeAsm(asm) && CoherentProgram(d, p) && PrimFuns(prims) && CheckProgramWith(asm, prims, p) == []
    requires ob in AllObjects(p.objects) && f in ob.functions && ArgsTyped(d, f, args)
    ensures ReturnsTyped(d, f.ret, CallFunction(o, ObjectCode(prims, p, ob), f, fuel, w, args))
  {
    ObjectCodeOk(d, asm, prims, p, ob);
    FunctionSound(d, o, ObjectCode(prims, p, ob), asm, fuel, w, f, args);
  }

  /** And for the code that an object itself runs, which moreover never returns a value. */
  lemma ObjectsNeverGoWrong(
    d: Defs, asm: Option<AsmChecker>, prims: Funs, p: Program, ob: Object, o: Oracle, fuel: nat, w: World)
    requires SafeAsm(asm) && CoherentProgram(d, p) && PrimFuns(prims) && CheckProgramWith(asm, prims, p) == []
    requires ob in AllObjects(p.objects)
    ensures EndsWell(ExecBody(o, ObjectCode(prims, p, ob), fuel, [map[]], w, ob.stmts))
  {
    ObjectCodeOk(d, asm, prims, p, ob);
    ProgramPart(d, p);
    StmtsSound(d, asm, ObjectCode(prims, p, ob), o, fuel, w, ob.stmts);
  }

  // ----- for the builtins and the assembly checker of the source -----

  function AsmOf(db: bool): Option<AsmChecker> {
    if db then Some(CheckAsm) else None
  }

  /** No finite run of the program goes wrong, and what its functions return has the declared type. */
  ghost predicate NeverGoesWrong(d: Defs, prims: Funs, p: Program) {
    && (forall f, o, fuel, w, args | f in p.functions && ArgsTyped(d, f, args) ::
          ReturnsTyped(d, f.ret, CallFunction(o, ProgramCode(prims, p), f, fuel, w, args)))
    && (forall ob, f, o, fuel, w, args | ob in AllObjects(p.objects) && f in ob.functions && ArgsTyped(d, f, args) ::
          ReturnsTyped(d, f.ret, CallFunction(o, ObjectCode(prims, p, ob), f, fuel, w, args)))
    && (forall ob, o, fuel, w | ob in AllObjects(p.objects) ::
          EndsWell(ExecBody(o, ObjectCode(prims, p, ob), fuel, [map[]], w, ob.stmts)))
  }

  /** All three theorems at once. */
  lemma ProgramsNeverGoWrong(d: Defs, asm: Option<AsmChecker>, prims: Funs, p: Program)
    requires SafeAsm(asm) && CoherentProgram(d, p) && PrimFuns(prims) && CheckProgramWith(asm, prims, p) == []
    ensures NeverGoesWrong(d, prims, p)
  {
    forall f, o, fuel, w, args | f in p.functions && ArgsTyped(d, f, args)
      ensures ReturnsTyped(d, f.ret, CallFunction(o, ProgramCode(prims, p), f, fuel, w, args))
    {
      FunctionsNeverGoWrong(d, asm, prims, p, f, o, fuel, w, args);
    }
    forall ob, f, o, fuel, w, args | ob in AllObjects(p.objects) && f in ob.functions && ArgsTyped(d, f, args)
      ensures ReturnsTyped(d, f.ret, CallFunction(o, ObjectCode(prims, p, ob), f, fuel, w, args))
    {
      ObjectFunctionsNeverGoWrong(d, asm, prims, p, ob, f, o, fuel, w, args);
    }
    forall ob, o, fuel, w | ob in AllObjects(p.objects)
      ensures EndsWell(ExecBody(o, ObjectCode(prims, p, ob), fuel, [map[]], w, ob.stmts))
    {
      ObjectsNeverGoWrong(d, asm, prims, p, ob, o, fuel, w);
    }
  }

  /** The builtins of the source are on words, so the theorem holds for the checker as the source runs it. */
  lemma SourceBuiltinsQualify(db: bool, p: Program)
    ensures PrimFuns(BuiltinFuns())
    ensures CheckProgram(db, p) == CheckProgramWith(AsmOf(db), BuiltinFuns(), p)
  {
  }

  /** The assembly checks of the source let blocks assign to word variables only. */
  lemma CheckAsmIsSafe(db: bool)
    ensures SafeAsm(AsmOf(db))
  {
    if db {
      forall funs: Funs, vars: Vars, stmts: seq<YulStmt> {:trigger AsmOf(db).value(funs, vars, stmts)}
        | AsmOf(db).value(funs, vars, stmts) == []
        ensures WordTargets(vars, AllTargets(stmts, {}, Leaking))
      {
        AcceptedAssignsWords(funs, vars, stmts);
      }
    }
  }

  /** The checker as the source runs it, with its builtins, its assembly checks and with or without a database. */
  lemma CheckedProgramsNeverGoWrong(d: Defs, db: bool, p: Program)
    requires CoherentProgram(d, p) && CheckProgram(db, p) == []
    ensures NeverGoesWrong(d, BuiltinFuns(), p)
  {
    SourceBuiltinsQualify(db, p);
    CheckAsmIsSafe(db);
    ProgramsNeverGoWrong(d, AsmOf(db), BuiltinFuns(), p);
  }

  /** A type without references is coherent with no definitions at all, so the theorems above ask nothing of it. */
  lemma {:induction false} RefFreeCoherent(t: Ty)
    requires RefFree(t)
    ensures Coherent(map[], t)
    decreases t
  {
    match t
    case Product(l, r) => RefFreeCoherent(l); RefFreeCoherent(r);
    case Sum(l, r) => RefFreeCoherent(l); RefFreeCoherent(r);
    case Named(_, inner) => RefFreeCoherent(inner);
    case _ =>
  }

  predicate RefFreeProgram(p: Program) {
    forall t | t in ProgramTypes(p) :: RefFree(t)
  }

  /** A program without references needs no condition at all. */
  lemma RefFreeProgramsNeverGoWrong(db: bool, p: Program)
    requires RefFreeProgram(p) && CheckProgram(db, p) == []
    ensures NeverGoesWrong(map[], BuiltinFuns(), p)
  {
    forall t | t in ProgramTypes(p)
      ensures Coherent(map[], t)
    {
      RefFreeCoherent(t);
    }
    CheckedProgramsNeverGoWrong(map[], db, p);
  }
}
