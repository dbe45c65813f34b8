/** The Yul that contract preparation generates for a deployment, and what running it does. */
module DeploymentYul {
  import opened Wrappers
  import opened HullIr
  import WordLiterals

  // ----- the generated statements -----

  function Number(value: string): YulExpr {
    YulLit(value)
  }

  function Escaped(s: string): string {
    if s == "" then ""
    else (if s[0] == '\\' then "\\\\" else if s[0] == '"' then "\\\"" else [s[0]]) + Escaped(s[1..])
  }

  function Quoted(value: string): string {
    "\"" + Escaped(value) + "\""
  }

  function Text(value: string): YulExpr {
    YulLit(Quoted(value))
  }

  function Deployer(contractName: string): string {
    contractName + "Deploy"
  }

  function DeploymentSetup(contractName: string): seq<YulStmt> {
    var truncated :=
      YulCall("lt", [YulCall("codesize", []), YulCall("datasize", [Text(Deployer(contractName))])]);
    [
      YulExprStmt(YulCall("mstore", [Number("64"), YulCall("memoryguard", [Number("128")])])),
      YulIf(truncated, [YulExprStmt(YulCall("revert", [Number("0"), Number("0")]))])
    ]
  }

  function StoreSelector(): YulStmt {
    YulExprStmt(YulCall("mstore", [Number("0"), YulLit("0xb5988ea3")]))
  }

  function RevertSelector(): YulStmt {
    YulExprStmt(YulCall("revert", [Number("28"), Number("4")]))
  }

  function RefuseValue(): YulStmt {
    YulIf(YulCall("callvalue", []), [StoreSelector(), RevertSelector()])
  }

  function NonpayableConstructor(): seq<YulStmt> {
    [RefuseValue()]
  }

  function ReadProgramSize(contractName: string): YulStmt {
    YulLet(["programSize"], Some(YulCall("datasize", [Text(Deployer(contractName))])))
  }

  function ReadArgumentSize(): YulStmt {
    YulLet(["argSize"], Some(YulCall("sub", [YulCall("codesize", []), YulIdent("programSize")])))
  }

  function ReadFreePointer(): YulStmt {
    YulAssign(["memoryDataOffset"], YulCall("mload", [Number("64")]))
  }

  function ReadPayloadPointer(): YulStmt {
    YulLet(["payloadOffset"], Some(YulCall("add", [YulIdent("memoryDataOffset"), Number("32")])))
  }

  function UpdateFreePointer(): YulStmt {
    YulExprStmt(YulCall("mstore", [Number("64"), YulCall("add", [YulIdent("payloadOffset"), YulIdent("argSize")])]))
  }

  function StoreLength(): YulStmt {
    YulExprStmt(YulCall("mstore", [YulIdent("memoryDataOffset"), YulIdent("argSize")]))
  }

  function CopyArguments(): YulStmt {
    YulExprStmt(YulCall("codecopy", [YulIdent("payloadOffset"), YulIdent("programSize"), YulIdent("argSize")]))
  }

  function ConstructorCopy(contractName: string): seq<YulStmt> {
    [
      ReadProgramSize(contractName), ReadArgumentSize(), ReadFreePointer(), ReadPayloadPointer(),
      UpdateFreePointer(), StoreLength(), CopyArguments()
    ]
  }

  function ReadRuntimeSize(contractName: string): YulStmt {
    YulLet(["size"], Some(YulCall("datasize", [Text(contractName)])))
  }

  function CopyRuntime(contractName: string): YulStmt {
    YulExprStmt(YulCall("codecopy", [Number("0"), YulCall("dataoffset", [Text(contractName)]), YulIdent("size")]))
  }

  function ReturnRuntime(): YulStmt {
    YulExprStmt(YulCall("return", [Number("0"), YulIdent("size")]))
  }

  function ReturnRuntimeObject(contractName: string): seq<YulStmt> {
    [ReadRuntimeSize(contractName), CopyRuntime(contractName), ReturnRuntime()]
  }

  // ----- a machine that runs them -----

  type Byte = b: nat | b < 256

  /** The code that runs, the objects in it, the value sent along, and where free memory starts. */
  datatype Env = Env(code: seq<Byte>, sizes: map<string, nat>, offsets: map<string, nat>, callvalue: nat, guard: nat)

  /** Memory is unbounded, and zero where nothing was written. */
  type Memory = nat -> Byte

  datatype State = State(vars: map<string, nat>, memory: Memory)

  datatype Outcome = Running(st: State) | Reverted(data: seq<Byte>) | Returned(data: seq<Byte>) | Stuck

  function ReadBytes(memory: Memory, at: nat, n: nat): (r: seq<Byte>)
    ensures |r| == n
  {
    seq<Byte>(n, i requires 0 <= i < n => memory(at + i))
  }

  function WriteBytes(memory: Memory, at: nat, bytes: seq<Byte>): Memory {
    (k: nat) => if at <= k < at + |bytes| then bytes[k - at] else memory(k)
  }

  /** The `n` bytes of a number, most significant first. */
  function BytesOf(v: nat, n: nat): (r: seq<Byte>)
    ensures |r| == n
  {
    if n == 0 then [] else BytesOf(v / 256, n - 1) + [v % 256]
  }

  function ValueOf(bytes: seq<Byte>): nat {
    if bytes == [] then 0 else 256 * ValueOf(bytes[..|bytes| - 1]) + bytes[|bytes| - 1]
  }

  /** The code from an offset on, zeros behind its end. */
  function CodeBytes(code: seq<Byte>, from: nat, n: nat): (r: seq<Byte>)
    ensures |r| == n
  {
    seq<Byte>(n, i requires 0 <= i < n => if from + i < |code| then code[from + i] else 0)
  }

  function Lookup(m: map<string, nat>, name: string): Option<nat> {
    if name in m then Some(m[name]) else None
  }

  function Eval(env: Env, st: State, e: YulExpr): Option<nat>
    decreases e, |env.code|
  {
    match e
    case YulLit(text) => WordLiterals.LiteralValue(text)
    case YulIdent(name) => Lookup(st.vars, name)
    case YulCall(callee, args) =>
      if callee == "datasize" && |args| == 1 && args[0].YulLit? then Lookup(env.sizes, args[0].text)
      else if callee == "dataoffset" && |args| == 1 && args[0].YulLit? then Lookup(env.offsets, args[0].text)
      else var values := EvalAll(env, st, args); if values.None? then None else Apply(env, st, callee, values.value)
    case YulExprError => None
  }

  function EvalAll(env: Env, st: State, es: seq<YulExpr>): Option<seq<nat>>
    decreases es, |env.code|
  {
    if es == [] then Some([])
    else
      var first, rest := Eval(env, st, es[0]), EvalAll(env, st, es[1..]);
      if first.None? || rest.None? then None else Some([first.value] + rest.value)
  }

  function Apply(env: Env, st: State, callee: string, args: seq<nat>): Option<nat> {
    if callee == "codesize" && args == [] then Some(|env.code|)
    else if callee == "callvalue" && args == [] then Some(env.callvalue)
    else if callee == "memoryguard" && |args| == 1 then Some(env.guard)
    else if callee == "add" && |args| == 2 then Some((args[0] + args[1]) % WordLiterals.TWO_256)
    else if callee == "sub" && |args| == 2 then Some((args[0] - args[1]) % WordLiterals.TWO_256)
    else if callee == "lt" && |args| == 2 then Some(if args[0] < args[1] then 1 else 0)
    else if callee == "mload" && |args| == 1 then Some(ValueOf(ReadBytes(st.memory, args[0], 32)))
    else None
  }

  function Perform(env: Env, st: State, callee: string, args: seq<nat>): Outcome {
    if callee == "mstore" && |args| == 2 then
      Running(st.(memory := WriteBytes(st.memory, args[0], BytesOf(args[1], 32))))
    else if callee == "codecopy" && |args| == 3 then
      Running(st.(memory := WriteBytes(st.memory, args[0], CodeBytes(env.code, args[1], args[2]))))
    else if callee == "revert" && |args| == 2 then Reverted(ReadBytes(st.memory, args[0], args[1]))
    else if callee == "return" && |args| == 2 then Returned(ReadBytes(st.memory, args[0], args[1]))
    else Stuck
  }

  function Exec(env: Env, st: State, s: YulStmt): Outcome
    decreases s, |env.code|
  {
    match s
    case YulLet(names, initial) =>
      if |names| != 1 || initial.None? then Stuck
      else
        var v := Eval(env, st, initial.value);
        if v.None? then Stuck else Running(st.(vars := st.vars[names[0] := v.value]))
    case YulAssign(names, value) =>
      if |names| != 1 || names[0] !in st.vars then Stuck
      else
        var v := Eval(env, st, value);
        if v.None? then Stuck else Running(st.(vars := st.vars[names[0] := v.value]))
    case YulExprStmt(e) =>
      if !e.YulCall? then Stuck
      else var values := EvalAll(env, st, e.args);
        if values.None? then Stuck else Perform(env, st, e.callee, values.value)
    case YulIf(cond, body) =>
      var v := Eval(env, st, cond);
      if v.None? then Stuck else if v.value == 0 then Running(st) else Run(env, st, body)
    case _ => Stuck
  }

  function Run(env: Env, st: State, stmts: seq<YulStmt>): Outcome
    decreases stmts, |env.code|
  {
    if stmts == [] then Running(st)
    else
      var o := Exec(env, st, stmts[0]);
      if o.Running? then Run(env, o.st, stmts[1..]) else o
  }

  // ----- memory -----

  function Power(n: nat): nat {
    if n == 0 then 1 else 256 * Power(n - 1)
  }

  lemma PowerOfWord(n: nat)
    requires n == 32
    ensures Power(n) == WordLiterals.TWO_256
  {
    PowerSum(8);
    PowerSum(16);
    assert Power(4) == 256 * Power(3) && Power(3) == 256 * Power(2) && Power(2) == 256 * Power(1);
    assert Power(8) == 256 * Power(7) && Power(7) == 256 * Power(6) && Power(6) == 256 * Power(5);
    assert Power(5) == 256 * Power(4);
  }

  lemma PowerSum(n: nat)
    ensures Power(2 * n) == Power(n) * Power(n)
  {
    PowerAdd(n, n);
  }

  lemma {:induction false} PowerAdd(m: nat, n: nat)
    ensures Power(m + n) == Power(m) * Power(n)
  {
    if m > 0 {
      PowerAdd(m - 1, n);
    }
  }

  /** A number that fits is read back from its bytes. */
  lemma {:induction false} BytesRoundTrip(v: nat, n: nat)
    requires v < Power(n)
    ensures ValueOf(BytesOf(v, n)) == v
  {
    if n > 0 {
      BytesRoundTrip(v / 256, n - 1);
      assert BytesOf(v, n)[..n - 1] == BytesOf(v / 256, n - 1);
    }
  }

  lemma WordRoundTrip(v: nat)
    requires v < WordLiterals.TWO_256
    ensures ValueOf(BytesOf(v, 32)) == v
  {
    PowerOfWord(32);
    BytesRoundTrip(v, 32);
  }

  lemma ReadWritten(memory: Memory, at: nat, bytes: seq<Byte>)
    ensures ReadBytes(WriteBytes(memory, at, bytes), at, |bytes|) == bytes
  {
  }

  /** A write elsewhere is not seen. */
  lemma ReadElsewhere(memory: Memory, at: nat, bytes: seq<Byte>, from: nat, n: nat)
    requires from + n <= at || at + |bytes| <= from
    ensures ReadBytes(WriteBytes(memory, at, bytes), from, n) == ReadBytes(memory, from, n)
  {
  }

  // ----- literals -----

  lemma ShortLiteral(s: string)
    requires 1 <= |s| <= 3 && forall c | c in s :: WordLiterals.IsDecDigit(c)
    ensures WordLiterals.LiteralValue(s) == Some(
      if |s| == 1 then WordLiterals.DigitValue(s[0])
      else if |s| == 2 then WordLiterals.DigitValue(s[0]) * 10 + WordLiterals.DigitValue(s[1])
      else (WordLiterals.DigitValue(s[0]) * 10 + WordLiterals.DigitValue(s[1])) * 10 + WordLiterals.DigitValue(s[2]))
  {
    assert WordLiterals.IsDecDigit(s[|s| - 1]);
    assert |s| > 1 ==> WordLiterals.IsDecDigit(s[1]);
    assert !WordLiterals.IsHexLiteral(s);
    assert WordLiterals.DigitsValue("", 10) == 0;
    FrontDigits(s);
    if |s| > 1 {
      FrontDigits(s[..|s| - 1]);
      if |s| > 2 {
        assert s[..2][..1] == s[..1];
        FrontDigits(s[..1]);
      }
    }
  }

  lemma FrontDigits(s: string)
    requires s != "" && forall c | c in s :: WordLiterals.IsDecDigit(c)
    ensures WordLiterals.AllDigits(s, 10) && WordLiterals.AllDigits(s[..|s| - 1], 10)
    ensures WordLiterals.DigitsValue(s, 10)
      == WordLiterals.DigitsValue(s[..|s| - 1], 10) * 10 + WordLiterals.DigitValue(s[|s| - 1])
    ensures |s| == 1 ==> WordLiterals.DigitsValue(s[..|s| - 1], 10) == 0
  {
  }

  lemma Literals()
    ensures WordLiterals.LiteralValue("0") == Some(0)
    ensures WordLiterals.LiteralValue("4") == Some(4)
    ensures WordLiterals.LiteralValue("28") == Some(28)
    ensures WordLiterals.LiteralValue("32") == Some(32)
    ensures WordLiterals.LiteralValue("64") == Some(64)
    ensures WordLiterals.LiteralValue("128") == Some(128)
  {
    ShortLiteral("0");
    ShortLiteral("4");
    ShortLiteral("28");
    ShortLiteral("32");
    ShortLiteral("64");
    ShortLiteral("128");
  }
}
