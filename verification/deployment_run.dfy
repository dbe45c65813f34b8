/** Running the generated deployment code: what it leaves in memory, and when and how it reverts. */
module DeploymentRun {
  import opened Wrappers
  import opened HullIr
  import opened DeploymentYul
  import WordLiterals

  // ----- single steps -----

  lemma EvalCall(env: Env, st: State, callee: string, args: seq<YulExpr>, values: seq<nat>)
    requires callee != "datasize" && callee != "dataoffset"
    requires EvalAll(env, st, args) == Some(values)
    ensures Eval(env, st, YulCall(callee, args)) == Apply(env, st, callee, values)
  {
  }

  lemma EvalNone(env: Env, st: State)
    ensures EvalAll(env, st, []) == Some([])
  {
  }

  lemma EvalCons(env: Env, st: State, e: YulExpr, rest: seq<YulExpr>, values: seq<nat>, all: seq<YulExpr>, r: seq<nat>)
    requires all == [e] + rest && Eval(env, st, e).Some? && EvalAll(env, st, rest) == Some(values)
    requires r == [Eval(env, st, e).value] + values
    ensures EvalAll(env, st, all) == Some(r)
  {
    assert all[0] == e && all[1..] == rest;
  }

  lemma EvalOne(env: Env, st: State, a: YulExpr)
    requires Eval(env, st, a).Some?
    ensures EvalAll(env, st, [a]) == Some([Eval(env, st, a).value])
  {
    EvalNone(env, st);
    EvalCons(env, st, a, [], [], [a], [Eval(env, st, a).value]);
  }

  lemma EvalTwo(env: Env, st: State, a: YulExpr, b: YulExpr)
    requires Eval(env, st, a).Some? && Eval(env, st, b).Some?
    ensures EvalAll(env, st, [a, b]) == Some([Eval(env, st, a).value, Eval(env, st, b).value])
  {
    var x, y := Eval(env, st, a).value, Eval(env, st, b).value;
    EvalOne(env, st, b);
    EvalCons(env, st, a, [b], [y], [a, b], [x, y]);
  }

  lemma EvalThree(env: Env, st: State, a: YulExpr, b: YulExpr, c: YulExpr)
    requires Eval(env, st, a).Some? && Eval(env, st, b).Some? && Eval(env, st, c).Some?
    ensures EvalAll(env, st, [a, b, c])
      == Some([Eval(env, st, a).value, Eval(env, st, b).value, Eval(env, st, c).value])
  {
    var x, y, z := Eval(env, st, a).value, Eval(env, st, b).value, Eval(env, st, c).value;
    EvalTwo(env, st, b, c);
    EvalCons(env, st, a, [b, c], [y, z], [a, b, c], [x, y, z]);
  }

  /** A statement for its effect, by the values of its arguments. */
  lemma ExecCall(env: Env, st: State, callee: string, args: seq<YulExpr>, values: seq<nat>)
    requires EvalAll(env, st, args) == Some(values)
    ensures Exec(env, st, YulExprStmt(YulCall(callee, args))) == Perform(env, st, callee, values)
  {
  }

  lemma RunStep(env: Env, st: State, s: YulStmt, rest: seq<YulStmt>, all: seq<YulStmt>)
    requires all == [s] + rest
    ensures Run(env, st, all) == if Exec(env, st, s).Running? then Run(env, Exec(env, st, s).st, rest)
      else Exec(env, st, s)
  {
    assert all[0] == s && all[1..] == rest;
  }

  lemma {:induction false} RunConcat(env: Env, st: State, a: seq<YulStmt>, b: seq<YulStmt>)
    ensures Run(env, st, a + b)
      == if Run(env, st, a).Running? then Run(env, Run(env, st, a).st, b) else Run(env, st, a)
    decreases a
  {
    if a == [] {
      assert a + b == b;
    } else {
      RunStep(env, st, a[0], a[1..] + b, a + b);
      if Exec(env, st, a[0]).Running? {
        RunConcat(env, Exec(env, st, a[0]).st, a[1..], b);
      }
    }
  }

  // ----- setup -----

  /** The machine fits the generated code: its objects are known, and nothing reaches the end of the address space. */
  ghost predicate Fits(env: Env, name: string) {
    && Quoted(Deployer(name)) in env.sizes
    && env.guard >= 128
    && |env.code| < WordLiterals.TWO_256
    && env.guard + 32 + |env.code| < WordLiterals.TWO_256
  }

  function ProgramSize(env: Env, name: string): nat
    requires Quoted(Deployer(name)) in env.sizes
  {
    env.sizes[Quoted(Deployer(name))]
  }

  function AfterSetup(env: Env, st: State): State {
    st.(memory := WriteBytes(st.memory, 64, BytesOf(env.guard, 32)))
  }

  lemma MemoryInitialised(env: Env, st: State)
    ensures Exec(env, st, YulExprStmt(YulCall("mstore", [Number("64"), YulCall("memoryguard", [Number("128")])])))
      == Running(AfterSetup(env, st))
  {
    Literals();
    EvalOne(env, st, Number("128"));
    EvalCall(env, st, "memoryguard", [Number("128")], [128]);
    EvalTwo(env, st, Number("64"), YulCall("memoryguard", [Number("128")]));
    ExecCall(env, st, "mstore", [Number("64"), YulCall("memoryguard", [Number("128")])], [64, env.guard]);
  }

  lemma EmptyRevert(env: Env, st: State)
    ensures Run(env, st, [YulExprStmt(YulCall("revert", [Number("0"), Number("0")]))]) == Reverted([])
  {
    Literals();
    EvalTwo(env, st, Number("0"), Number("0"));
    ExecCall(env, st, "revert", [Number("0"), Number("0")], [0, 0]);
    RunStep(env, st, YulExprStmt(YulCall("revert", [Number("0"), Number("0")])), [],
      [YulExprStmt(YulCall("revert", [Number("0"), Number("0")]))]);
    assert ReadBytes(st.memory, 0, 0) == [];
  }

  lemma TruncationTested(env: Env, st: State, name: string)
    requires Quoted(Deployer(name)) in env.sizes
    ensures Eval(env, st,
      YulCall("lt", [YulCall("codesize", []), YulCall("datasize", [Text(Deployer(name))])]))
      == Some(if |env.code| < ProgramSize(env, name) then 1 else 0)
  {
    EvalNone(env, st);
    EvalCall(env, st, "codesize", [], []);
    EvalTwo(env, st, YulCall("codesize", []), YulCall("datasize", [Text(Deployer(name))]));
    EvalCall(env, st, "lt", [YulCall("codesize", []), YulCall("datasize", [Text(Deployer(name))])],
      [|env.code|, ProgramSize(env, name)]);
  }

  /** Setup initialises the free pointer, and reverts exactly when the deployer code is cut short. */
  lemma SetupRuns(env: Env, st: State, name: string)
    requires Quoted(Deployer(name)) in env.sizes
    ensures Run(env, st, DeploymentSetup(name))
      == if |env.code| < ProgramSize(env, name) then Reverted([]) else Running(AfterSetup(env, st))
  {
    var all := DeploymentSetup(name);
    var next := AfterSetup(env, st);
    MemoryInitialised(env, st);
    RunStep(env, st, all[0], [all[1]], all);
    TruncationTested(env, next, name);
    EmptyRevert(env, next);
    RunStep(env, next, all[1], [], [all[1]]);
  }

  // ----- a constructor that takes no value -----

  /** One more hexadecimal digit behind a literal. */
  lemma HexStep(front: string, v: nat, c: char, w: nat, all: string)
    requires all == front + [c] && WordLiterals.IsHexDigit(c) && WordLiterals.AllDigits(front, 16)
    requires WordLiterals.DigitsValue(front, 16) == v && w == v * 16 + WordLiterals.DigitValue(c)
    ensures WordLiterals.AllDigits(all, 16) && WordLiterals.DigitsValue(all, 16) == w
  {
    assert all[..|all| - 1] == front;
  }

  lemma SelectorHead(all: string)
    requires all == "b598"
    ensures WordLiterals.AllDigits(all, 16) && WordLiterals.DigitsValue(all, 16) == 0xb598
  {
    var one, two, three := ['b'], ['b', '5'], ['b', '5', '9'];
    HexStep([], 0, 'b', 0xb, one);
    HexStep(one, 0xb, '5', 0xb5, two);
    HexStep(two, 0xb5, '9', 0xb59, three);
    HexStep(three, 0xb59, '8', 0xb598, all);
  }

  lemma SelectorDigits(front: string, all: string)
    requires front == "b598" && all == front + "8ea3"
    ensures WordLiterals.AllDigits(all, 16) && WordLiterals.DigitsValue(all, 16) == 0xb5988ea3
  {
    SelectorHead(front);
    var five, six, seven := front + ['8'], front + ['8', 'e'], front + ['8', 'e', 'a'];
    HexStep(front, 0xb598, '8', 0xb5988, five);
    HexStep(five, 0xb5988, 'e', 0xb5988e, six);
    HexStep(six, 0xb5988e, 'a', 0xb5988ea, seven);
    HexStep(seven, 0xb5988ea, '3', 0xb5988ea3, all);
  }

  lemma SelectorLiteral(text: string)
    requires text == "0xb5988ea3"
    ensures WordLiterals.LiteralValue(text) == Some(0xb5988ea3)
  {
    assert text[2..] == "b598" + "8ea3";
    SelectorDigits("b598", text[2..]);
  }

  const VALUE_REFUSED: seq<Byte> := [0xb5, 0x98, 0x8e, 0xa3]

  lemma LastByte(v: nat, n: nat)
    requires n > 0
    ensures BytesOf(v, n)[n - 1] == v % 256 && BytesOf(v, n)[..n - 1] == BytesOf(v / 256, n - 1)
  {
  }

  lemma FourLast(a: seq<Byte>, b: seq<Byte>, c: seq<Byte>, d: seq<Byte>)
    requires |a| == 32 && a[..31] == b && b[..30] == c && c[..29] == d
    ensures a[28..] == [d[28], c[29], b[30], a[31]]
  {
    assert b[30] == a[..31][30] && c[29] == b[..30][29] && d[28] == c[..29][28];
    assert b[29] == a[..31][29] && b[28] == a[..31][28] && c[28] == b[..30][28];
  }

  lemma SelectorBytes()
    ensures BytesOf(0xb5988ea3, 32)[28..] == VALUE_REFUSED
  {
    LastByte(0xb5988ea3, 32);
    LastByte(0xb5988e, 31);
    LastByte(0xb598, 30);
    LastByte(0xb5, 29);
    FourLast(BytesOf(0xb5988ea3, 32), BytesOf(0xb5988e, 31), BytesOf(0xb598, 30), BytesOf(0xb5, 29));
  }

  lemma SelectorStored(env: Env, st: State)
    ensures Exec(env, st, StoreSelector())
      == Running(st.(memory := WriteBytes(st.memory, 0, BytesOf(0xb5988ea3, 32))))
  {
    Literals();
    SelectorLiteral("0xb5988ea3");
    EvalTwo(env, st, Number("0"), YulLit("0xb5988ea3"));
    ExecCall(env, st, "mstore", [Number("0"), YulLit("0xb5988ea3")], [0, 0xb5988ea3]);
  }

  lemma RefusalReverts(env: Env, st: State)
    ensures Exec(env, st, RevertSelector()) == Reverted(ReadBytes(st.memory, 28, 4))
  {
    Literals();
    EvalTwo(env, st, Number("28"), Number("4"));
    ExecCall(env, st, "revert", [Number("28"), Number("4")], [28, 4]);
  }

  /** Two statements, of which the first goes through. */
  lemma RunTwo(env: Env, st: State, a: YulStmt, b: YulStmt, next: State, o: Outcome)
    requires Exec(env, st, a) == Running(next) && Exec(env, next, b) == o
    ensures Run(env, st, [a, b]) == o
  {
    RunStep(env, st, a, [b], [a, b]);
    RunStep(env, next, b, [], [b]);
  }

  lemma RefusalRuns(env: Env, st: State)
    ensures Run(env, st, [StoreSelector(), RevertSelector()]) == Reverted(VALUE_REFUSED)
  {
    var next := st.(memory := WriteBytes(st.memory, 0, BytesOf(0xb5988ea3, 32)));
    SelectorStored(env, st);
    RefusalReverts(env, next);
    RefusalData(st.memory);
    RunTwo(env, st, StoreSelector(), RevertSelector(), next, Reverted(VALUE_REFUSED));
  }

  lemma RefusalData(memory: Memory)
    ensures ReadBytes(WriteBytes(memory, 0, BytesOf(0xb5988ea3, 32)), 28, 4) == VALUE_REFUSED
  {
    SelectorBytes();
    var b := BytesOf(0xb5988ea3, 32);
    assert forall i :: 0 <= i < 4 ==> b[28..][i] == b[28 + i];
  }

  lemma ValueRefused(env: Env, st: State)
    ensures Exec(env, st, RefuseValue()) == if env.callvalue != 0 then Reverted(VALUE_REFUSED) else Running(st)
  {
    EvalNone(env, st);
    EvalCall(env, st, "callvalue", [], []);
    RefusalRuns(env, st);
  }

  lemma NonpayableRuns(env: Env, st: State)
    ensures Run(env, st, NonpayableConstructor())
      == if env.callvalue != 0 then Reverted(VALUE_REFUSED) else Running(st)
  {
    ValueRefused(env, st);
    RunOne(env, st, RefuseValue());
  }

  lemma RunOne(env: Env, st: State, s: YulStmt)
    ensures Run(env, st, [s]) == Exec(env, st, s)
  {
    RunStep(env, st, s, [], [s]);
  }

  // ----- copying the arguments -----

  function Load(memory: Memory, at: nat): nat {
    ValueOf(ReadBytes(memory, at, 32))
  }

  function AfterVars(env: Env, st: State, size: nat): State
    requires size <= |env.code|
  {
    st.(vars := st.vars["programSize" := size]["argSize" := |env.code| - size]["memoryDataOffset" := env.guard]
      ["payloadOffset" := env.guard + 32])
  }

  function AfterCopy(env: Env, st: State, size: nat): State
    requires size <= |env.code|
  {
    var n := |env.code| - size;
    var free := WriteBytes(st.memory, 64, BytesOf(env.guard + 32 + n, 32));
    var prefixed := WriteBytes(free, env.guard, BytesOf(n, 32));
    AfterVars(env, st, size).(memory := WriteBytes(prefixed, env.guard + 32, CodeBytes(env.code, size, n)))
  }

  lemma ExecLet(env: Env, st: State, name: string, e: YulExpr, v: nat)
    requires Eval(env, st, e) == Some(v)
    ensures Exec(env, st, YulLet([name], Some(e))) == Running(st.(vars := st.vars[name := v]))
  {
  }

  lemma ProgramSizeRead(env: Env, st: State, name: string)
    requires Quoted(Deployer(name)) in env.sizes
    ensures Exec(env, st, ReadProgramSize(name))
      == Running(st.(vars := st.vars["programSize" := ProgramSize(env, name)]))
  {
    ExecLet(env, st, "programSize", YulCall("datasize", [Text(Deployer(name))]), ProgramSize(env, name));
  }

  /** The subtraction does not underflow: truncated code does not get here. */
  lemma ArgumentSizeRead(env: Env, st: State, size: nat)
    requires size <= |env.code| < WordLiterals.TWO_256 && "programSize" in st.vars && st.vars["programSize"] == size
    ensures Exec(env, st, ReadArgumentSize()) == Running(st.(vars := st.vars["argSize" := |env.code| - size]))
  {
    EvalNone(env, st);
    EvalCall(env, st, "codesize", [], []);
    EvalTwo(env, st, YulCall("codesize", []), YulIdent("programSize"));
    EvalCall(env, st, "sub", [YulCall("codesize", []), YulIdent("programSize")], [|env.code|, size]);
    ExecLet(env, st, "argSize", YulCall("sub", [YulCall("codesize", []), YulIdent("programSize")]), |env.code| - size);
  }

  lemma FreePointerRead(env: Env, st: State)
    requires "memoryDataOffset" in st.vars
    ensures Exec(env, st, ReadFreePointer()) == Running(st.(vars := st.vars["memoryDataOffset" := Load(st.memory, 64)]))
  {
    Literals();
    EvalOne(env, st, Number("64"));
    EvalCall(env, st, "mload", [Number("64")], [64]);
  }

  lemma PayloadPointerRead(env: Env, st: State, g: nat)
    requires "memoryDataOffset" in st.vars && st.vars["memoryDataOffset"] == g && g + 32 < WordLiterals.TWO_256
    ensures Exec(env, st, ReadPayloadPointer()) == Running(st.(vars := st.vars["payloadOffset" := g + 32]))
  {
    Literals();
    EvalTwo(env, st, YulIdent("memoryDataOffset"), Number("32"));
    EvalCall(env, st, "add", [YulIdent("memoryDataOffset"), Number("32")], [g, 32]);
    ExecLet(env, st, "payloadOffset", YulCall("add", [YulIdent("memoryDataOffset"), Number("32")]), g + 32);
  }

  lemma FreePointerUpdated(env: Env, st: State, p: nat, n: nat)
    requires "payloadOffset" in st.vars && st.vars["payloadOffset"] == p
    requires "argSize" in st.vars && st.vars["argSize"] == n && p + n < WordLiterals.TWO_256
    ensures Exec(env, st, UpdateFreePointer()) == Running(st.(memory := WriteBytes(st.memory, 64, BytesOf(p + n, 32))))
  {
    Literals();
    var sum := YulCall("add", [YulIdent("payloadOffset"), YulIdent("argSize")]);
    EvalTwo(env, st, YulIdent("payloadOffset"), YulIdent("argSize"));
    EvalCall(env, st, "add", [YulIdent("payloadOffset"), YulIdent("argSize")], [p, n]);
    EvalTwo(env, st, Number("64"), sum);
    ExecCall(env, st, "mstore", [Number("64"), sum], [64, p + n]);
  }

  lemma LengthStored(env: Env, st: State, g: nat, n: nat)
    requires "memoryDataOffset" in st.vars && st.vars["memoryDataOffset"] == g
    requires "argSize" in st.vars && st.vars["argSize"] == n
    ensures Exec(env, st, StoreLength()) == Running(st.(memory := WriteBytes(st.memory, g, BytesOf(n, 32))))
  {
    EvalTwo(env, st, YulIdent("memoryDataOffset"), YulIdent("argSize"));
    ExecCall(env, st, "mstore", [YulIdent("memoryDataOffset"), YulIdent("argSize")], [g, n]);
  }

  lemma ArgumentsCopied(env: Env, st: State, p: nat, size: nat, n: nat)
    requires "payloadOffset" in st.vars && st.vars["payloadOffset"] == p
    requires "programSize" in st.vars && st.vars["programSize"] == size
    requires "argSize" in st.vars && st.vars["argSize"] == n
    ensures Exec(env, st, CopyArguments())
      == Running(st.(memory := WriteBytes(st.memory, p, CodeBytes(env.code, size, n))))
  {
    EvalThree(env, st, YulIdent("payloadOffset"), YulIdent("programSize"), YulIdent("argSize"));
    ExecCall(env, st, "codecopy", [YulIdent("payloadOffset"), YulIdent("programSize"), YulIdent("argSize")],
      [p, size, n]);
  }

  /** The states the copy goes through, by the variables it sets. */
  function WithSize(st: State, size: nat): State {
    st.(vars := st.vars["programSize" := size])
  }

  function WithArguments(st: State, n: nat): State {
    st.(vars := st.vars["argSize" := n])
  }

  function WithPointer(st: State, g: nat): State {
    st.(vars := st.vars["memoryDataOffset" := g])
  }

  function WithPayload(st: State, p: nat): State {
    st.(vars := st.vars["payloadOffset" := p])
  }

  function WithWritten(st: State, at: nat, bytes: seq<Byte>): State {
    st.(memory := WriteBytes(st.memory, at, bytes))
  }

  ghost predicate Goes(env: Env, st: State, s: YulStmt, next: State) {
    Exec(env, st, s) == Running(next)
  }

  lemma SizesGo(env: Env, st: State, name: string, size: nat)
    requires Fits(env, name) && size == ProgramSize(env, name) <= |env.code|
    ensures Goes(env, st, ReadProgramSize(name), WithSize(st, size))
    ensures Goes(env, WithSize(st, size), ReadArgumentSize(), WithArguments(WithSize(st, size), |env.code| - size))
  {
    ProgramSizeRead(env, st, name);
    ArgumentSizeRead(env, WithSize(st, size), size);
  }

  lemma PointersGo(env: Env, st: State, g: nat)
    requires "memoryDataOffset" in st.vars && Load(st.memory, 64) == g && g + 32 < WordLiterals.TWO_256
    ensures Goes(env, st, ReadFreePointer(), WithPointer(st, g))
    ensures Goes(env, WithPointer(st, g), ReadPayloadPointer(), WithPayload(WithPointer(st, g), g + 32))
  {
    FreePointerRead(env, st);
    PayloadPointerRead(env, WithPointer(st, g), g);
  }

  lemma FreePointerGoes(env: Env, st: State, p: nat, n: nat)
    requires "payloadOffset" in st.vars && st.vars["payloadOffset"] == p
    requires "argSize" in st.vars && st.vars["argSize"] == n && p + n < WordLiterals.TWO_256
    ensures Goes(env, st, UpdateFreePointer(), WithWritten(st, 64, BytesOf(p + n, 32)))
  {
    FreePointerUpdated(env, st, p, n);
  }

  lemma LengthGoes(env: Env, st: State, g: nat, n: nat)
    requires "memoryDataOffset" in st.vars && st.vars["memoryDataOffset"] == g
    requires "argSize" in st.vars && st.vars["argSize"] == n
    ensures Goes(env, st, StoreLength(), WithWritten(st, g, BytesOf(n, 32)))
  {
    LengthStored(env, st, g, n);
  }

  lemma ArgumentsGo(env: Env, st: State, p: nat, size: nat, n: nat)
    requires "payloadOffset" in st.vars && st.vars["payloadOffset"] == p
    requires "programSize" in st.vars && st.vars["programSize"] == size
    requires "argSize" in st.vars && st.vars["argSize"] == n
    ensures Goes(env, st, CopyArguments(), WithWritten(st, p, CodeBytes(env.code, size, n)))
  {
    ArgumentsCopied(env, st, p, size, n);
  }

  /** Two statements that go through, and then the rest. */
  lemma RunPair(
    env: Env, s0: State, a: YulStmt, s1: State, b: YulStmt, s2: State, rest: seq<YulStmt>, all: seq<YulStmt>)
    requires Goes(env, s0, a, s1) && Goes(env, s1, b, s2) && all == [a, b] + rest
    ensures Run(env, s0, all) == Run(env, s2, rest)
  {
    RunStep(env, s0, a, [b] + rest, all);
    RunStep(env, s1, b, rest, [b] + rest);
  }

  lemma SizesRun(env: Env, st: State, name: string, size: nat, rest: seq<YulStmt>, all: seq<YulStmt>)
    requires Fits(env, name) && size == ProgramSize(env, name) <= |env.code|
    requires all == [ReadProgramSize(name), ReadArgumentSize()] + rest
    ensures Run(env, st, all) == Run(env, WithArguments(WithSize(st, size), |env.code| - size), rest)
  {
    SizesGo(env, st, name, size);
    RunPair(env, st, ReadProgramSize(name), WithSize(st, size), ReadArgumentSize(),
      WithArguments(WithSize(st, size), |env.code| - size), rest, all);
  }

  lemma PointersRun(env: Env, st: State, g: nat, rest: seq<YulStmt>, all: seq<YulStmt>)
    requires "memoryDataOffset" in st.vars && Load(st.memory, 64) == g && g + 32 < WordLiterals.TWO_256
    requires all == [ReadFreePointer(), ReadPayloadPointer()] + rest
    ensures Run(env, st, all) == Run(env, WithPayload(WithPointer(st, g), g + 32), rest)
  {
    PointersGo(env, st, g);
    RunPair(env, st, ReadFreePointer(), WithPointer(st, g), ReadPayloadPointer(),
      WithPayload(WithPointer(st, g), g + 32), rest, all);
  }

  lemma VariablesRun(env: Env, st: State, name: string, size: nat, rest: seq<YulStmt>, all: seq<YulStmt>)
    requires Fits(env, name) && size == ProgramSize(env, name) <= |env.code|
    requires "memoryDataOffset" in st.vars && Load(st.memory, 64) == env.guard
    requires all == [ReadProgramSize(name), ReadArgumentSize(), ReadFreePointer(), ReadPayloadPointer()] + rest
    ensures Run(env, st, all) == Run(env, AfterVars(env, st, size), rest)
  {
    var after := [ReadFreePointer(), ReadPayloadPointer()] + rest;
    SizesRun(env, st, name, size, after, all);
    PointersRun(env, WithArguments(WithSize(st, size), |env.code| - size), env.guard, rest, after);
  }

  lemma FreePointerRuns(env: Env, st: State, p: nat, n: nat, rest: seq<YulStmt>, all: seq<YulStmt>)
    requires "payloadOffset" in st.vars && st.vars["payloadOffset"] == p
    requires "argSize" in st.vars && st.vars["argSize"] == n && p + n < WordLiterals.TWO_256
    requires all == [UpdateFreePointer()] + rest
    ensures Run(env, st, all) == Run(env, WithWritten(st, 64, BytesOf(p + n, 32)), rest)
  {
    FreePointerGoes(env, st, p, n);
    RunStep(env, st, UpdateFreePointer(), rest, all);
  }

  lemma BufferRuns(env: Env, st: State, g: nat, size: nat, n: nat)
    requires "memoryDataOffset" in st.vars && st.vars["memoryDataOffset"] == g
    requires "payloadOffset" in st.vars && st.vars["payloadOffset"] == g + 32
    requires "programSize" in st.vars && st.vars["programSize"] == size
    requires "argSize" in st.vars && st.vars["argSize"] == n
    ensures Run(env, st, [StoreLength(), CopyArguments()])
      == Running(WithWritten(WithWritten(st, g, BytesOf(n, 32)), g + 32, CodeBytes(env.code, size, n)))
  {
    var next := WithWritten(st, g, BytesOf(n, 32));
    LengthGoes(env, st, g, n);
    ArgumentsGo(env, next, g + 32, size, n);
    RunTwo(env, st, StoreLength(), CopyArguments(), next,
      Running(WithWritten(next, g + 32, CodeBytes(env.code, size, n))));
  }

  /** The three writes of the copy. */
  function Written(env: Env, st: State, size: nat): State
    requires size <= |env.code|
  {
    var (n, g) := (|env.code| - size, env.guard);
    WithWritten(WithWritten(WithWritten(st, 64, BytesOf(g + 32 + n, 32)), g, BytesOf(n, 32)), g + 32,
      CodeBytes(env.code, size, n))
  }

  lemma CopyIsWritten(env: Env, before: State, size: nat)
    requires size <= |env.code|
    ensures Written(env, AfterVars(env, before, size), size) == AfterCopy(env, before, size)
  {
  }

  lemma WritesRun(env: Env, st: State, size: nat, all: seq<YulStmt>)
    requires size <= |env.code| && env.guard + 32 + |env.code| < WordLiterals.TWO_256
    requires "memoryDataOffset" in st.vars && st.vars["memoryDataOffset"] == env.guard
    requires "payloadOffset" in st.vars && st.vars["payloadOffset"] == env.guard + 32
    requires "programSize" in st.vars && st.vars["programSize"] == size
    requires "argSize" in st.vars && st.vars["argSize"] == |env.code| - size
    requires all == [UpdateFreePointer(), StoreLength(), CopyArguments()]
    ensures Run(env, st, all) == Running(Written(env, st, size))
  {
    var n, g, rest := |env.code| - size, env.guard, [StoreLength(), CopyArguments()];
    assert all == [UpdateFreePointer()] + rest;
    FreePointerRuns(env, st, g + 32, n, rest, all);
    BufferRuns(env, WithWritten(st, 64, BytesOf(g + 32 + n, 32)), g, size, n);
  }

  lemma MemoryRuns(env: Env, before: State, size: nat, all: seq<YulStmt>)
    requires size <= |env.code| && env.guard + 32 + |env.code| < WordLiterals.TWO_256
    requires all == [UpdateFreePointer(), StoreLength(), CopyArguments()]
    ensures Run(env, AfterVars(env, before, size), all) == Running(AfterCopy(env, before, size))
  {
    WritesRun(env, AfterVars(env, before, size), size, all);
    CopyIsWritten(env, before, size);
  }

  lemma CopyRuns(env: Env, st: State, name: string)
    requires Fits(env, name) && ProgramSize(env, name) <= |env.code|
    requires "memoryDataOffset" in st.vars && Load(st.memory, 64) == env.guard
    ensures Run(env, st, ConstructorCopy(name)) == Running(AfterCopy(env, st, ProgramSize(env, name)))
  {
    var rest := [UpdateFreePointer(), StoreLength(), CopyArguments()];
    VariablesRun(env, st, name, ProgramSize(env, name), rest, ConstructorCopy(name));
    MemoryRuns(env, st, ProgramSize(env, name), rest);
  }

  // ----- the deployment -----

  /** What runs before the constructor: setup, the refusal of value, and the copy of the arguments. */
  function Prologue(name: string, payable: bool): seq<YulStmt> {
    DeploymentSetup(name) + (if payable then [] else NonpayableConstructor()) + ConstructorCopy(name)
  }

  lemma FreePointerIsSet(env: Env, st: State)
    requires env.guard < WordLiterals.TWO_256
    ensures Load(AfterSetup(env, st).memory, 64) == env.guard
  {
    ReadWritten(st.memory, 64, BytesOf(env.guard, 32));
    WordRoundTrip(env.guard);
  }

  /** How the prologue ends, for every code, call value and memory. */
  lemma PrologueRuns(env: Env, st: State, name: string, payable: bool)
    requires Fits(env, name) && "memoryDataOffset" in st.vars
    ensures Run(env, st, Prologue(name, payable)) ==
      if |env.code| < ProgramSize(env, name) then Reverted([])
      else if !payable && env.callvalue != 0 then Reverted(VALUE_REFUSED)
      else Running(AfterCopy(env, AfterSetup(env, st), ProgramSize(env, name)))
  {
    var refuse := if payable then [] else NonpayableConstructor();
    SetupRuns(env, st, name);
    assert Prologue(name, payable) == DeploymentSetup(name) + (refuse + ConstructorCopy(name));
    RunConcat(env, st, DeploymentSetup(name), refuse + ConstructorCopy(name));
    if |env.code| >= ProgramSize(env, name) {
      var next := AfterSetup(env, st);
      NonpayableRuns(env, next);
      RunConcat(env, next, refuse, ConstructorCopy(name));
      FreePointerIsSet(env, st);
      CopyRuns(env, next, name);
    }
  }

  /** A byte string in memory behind its length, as every memory byte buffer is laid out. */
  ghost predicate BufferAt(memory: Memory, at: nat, bytes: seq<Byte>) {
    Load(memory, at) == |bytes| && ReadBytes(memory, at + 32, |bytes|) == bytes
  }

  lemma CopiedMemory(memory: Memory, g: nat, bytes: seq<Byte>)
    requires g >= 128 && g + 32 + |bytes| < WordLiterals.TWO_256
    ensures var free := WriteBytes(memory, 64, BytesOf(g + 32 + |bytes|, 32));
      var done := WriteBytes(WriteBytes(free, g, BytesOf(|bytes|, 32)), g + 32, bytes);
      && BufferAt(done, g, bytes) && Load(done, 64) == g + 32 + |bytes|
      && forall k: nat :: k < 64 || 96 <= k < g || g + 32 + |bytes| <= k ==> done(k) == memory(k)
  {
    var end := g + 32 + |bytes|;
    var free := WriteBytes(memory, 64, BytesOf(end, 32));
    var prefixed := WriteBytes(free, g, BytesOf(|bytes|, 32));
    var done := WriteBytes(prefixed, g + 32, bytes);
    ReadWritten(prefixed, g + 32, bytes);
    ReadElsewhere(prefixed, g + 32, bytes, g, 32);
    ReadWritten(free, g, BytesOf(|bytes|, 32));
    WordRoundTrip(|bytes|);
    ReadElsewhere(prefixed, g + 32, bytes, 64, 32);
    ReadElsewhere(free, g, BytesOf(|bytes|, 32), 64, 32);
    ReadWritten(memory, 64, BytesOf(end, 32));
    WordRoundTrip(end);
  }

  /** The constructor is reached with the arguments as a buffer at `g`, and the rest of memory as it was before. */
  ghost predicate Arrived(o: Outcome, g: nat, arguments: seq<Byte>, before: Memory) {
    && o.Running?
    && "memoryDataOffset" in o.st.vars && o.st.vars["memoryDataOffset"] == g
    && BufferAt(o.st.memory, g, arguments)
    && Load(o.st.memory, 64) == g + 32 + |arguments|
    && (forall k: nat :: k < 64 || 96 <= k < g || g + 32 + |arguments| <= k ==> o.st.memory(k) == before(k))
  }

  lemma CopyArrives(env: Env, st: State, size: nat, arguments: seq<Byte>)
    requires env.guard >= 128 && env.guard + 32 + |env.code| < WordLiterals.TWO_256
    requires size <= |env.code| && arguments == env.code[size..]
    ensures Arrived(Running(AfterCopy(env, st, size)), env.guard, arguments, st.memory)
  {
    assert CodeBytes(env.code, size, |arguments|) == arguments;
    CopiedMemory(st.memory, env.guard, arguments);
    assert |env.code| - size == |arguments|;
  }

  /**
   A deployment whose code is the deployer code followed by any bytes reaches the constructor with exactly those bytes
   as a buffer at the free pointer of the setup, the free pointer just behind them, and the rest of memory as it was.
   */
  lemma ArgumentsArrive(env: Env, st: State, name: string, payable: bool, arguments: seq<Byte>)
    requires Fits(env, name) && "memoryDataOffset" in st.vars
    requires ProgramSize(env, name) <= |env.code| && arguments == env.code[ProgramSize(env, name)..]
    requires payable || env.callvalue == 0
    ensures Arrived(Run(env, st, Prologue(name, payable)), env.guard, arguments, st.memory)
  {
    PrologueRuns(env, st, name, payable);
    CopyArrives(env, AfterSetup(env, st), ProgramSize(env, name), arguments);
    SetupKeepsMemory(env, st, Running(AfterCopy(env, AfterSetup(env, st), ProgramSize(env, name))), arguments);
  }

  lemma SetupKeepsMemory(env: Env, st: State, o: Outcome, arguments: seq<Byte>)
    requires env.guard >= 128 && Arrived(o, env.guard, arguments, AfterSetup(env, st).memory)
    ensures Arrived(o, env.guard, arguments, st.memory)
  {
  }

  // ----- the runtime object -----

  lemma RuntimeSizeRead(env: Env, st: State, name: string)
    requires Quoted(name) in env.sizes
    ensures Exec(env, st, ReadRuntimeSize(name)) == Running(st.(vars := st.vars["size" := env.sizes[Quoted(name)]]))
  {
    ExecLet(env, st, "size", YulCall("datasize", [Text(name)]), env.sizes[Quoted(name)]);
  }

  lemma RuntimeCopied(env: Env, st: State, name: string, size: nat)
    requires Quoted(name) in env.offsets && "size" in st.vars && st.vars["size"] == size
    ensures Exec(env, st, CopyRuntime(name))
      == Running(WithWritten(st, 0, CodeBytes(env.code, env.offsets[Quoted(name)], size)))
  {
    Literals();
    var offset := YulCall("dataoffset", [Text(name)]);
    EvalThree(env, st, Number("0"), offset, YulIdent("size"));
    ExecCall(env, st, "codecopy", [Number("0"), offset, YulIdent("size")], [0, env.offsets[Quoted(name)], size]);
  }

  lemma RuntimeLeaves(env: Env, st: State, size: nat)
    requires "size" in st.vars && st.vars["size"] == size
    ensures Exec(env, st, ReturnRuntime()) == Returned(ReadBytes(st.memory, 0, size))
  {
    Literals();
    EvalTwo(env, st, Number("0"), YulIdent("size"));
    ExecCall(env, st, "return", [Number("0"), YulIdent("size")], [0, size]);
  }

  function WithRuntimeSize(st: State, size: nat): State {
    st.(vars := st.vars["size" := size])
  }

  lemma RuntimeTailRuns(env: Env, st: State, name: string, size: nat, bytes: seq<Byte>)
    requires Quoted(name) in env.offsets && "size" in st.vars && st.vars["size"] == size
    requires bytes == CodeBytes(env.code, env.offsets[Quoted(name)], size)
    ensures Run(env, st, [CopyRuntime(name), ReturnRuntime()]) == Returned(bytes)
  {
    RuntimeCopied(env, st, name, size);
    RuntimeLeaves(env, WithWritten(st, 0, bytes), size);
    ReadWritten(st.memory, 0, bytes);
    RunTwo(env, st, CopyRuntime(name), ReturnRuntime(), WithWritten(st, 0, bytes), Returned(bytes));
  }

  lemma RuntimeRuns(env: Env, st: State, name: string, size: nat, bytes: seq<Byte>, all: seq<YulStmt>)
    requires Quoted(name) in env.sizes && Quoted(name) in env.offsets && size == env.sizes[Quoted(name)]
    requires bytes == CodeBytes(env.code, env.offsets[Quoted(name)], size)
    requires all == [ReadRuntimeSize(name)] + [CopyRuntime(name), ReturnRuntime()]
    ensures Run(env, st, all) == Returned(bytes)
  {
    RuntimeSizeRead(env, st, name);
    RunStep(env, st, ReadRuntimeSize(name), [CopyRuntime(name), ReturnRuntime()], all);
    RuntimeTailRuns(env, WithRuntimeSize(st, size), name, size, bytes);
  }

  /** The runtime object is returned byte for byte. */
  lemma RuntimeIsReturned(env: Env, st: State, name: string)
    requires Quoted(name) in env.sizes && Quoted(name) in env.offsets
    requires env.offsets[Quoted(name)] + env.sizes[Quoted(name)] <= |env.code|
    ensures Run(env, st, ReturnRuntimeObject(name))
      == Returned(env.code[env.offsets[Quoted(name)]..env.offsets[Quoted(name)] + env.sizes[Quoted(name)]])
  {
    var size, from := env.sizes[Quoted(name)], env.offsets[Quoted(name)];
    assert CodeBytes(env.code, from, size) == env.code[from..from + size];
    RuntimeRuns(env, st, name, size, CodeBytes(env.code, from, size), ReturnRuntimeObject(name));
  }
}
