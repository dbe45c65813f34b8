/** The builtin function tables of crates/hull/src/check.rs. */
module HullBuiltins {
  import opened Wrappers
  import opened HullIr
  import opened HullTyping

  function AddAll(funs: Funs, names: set<Name>, sig: FunSig): (r: Funs)
    ensures PrimFuns(funs) && PrimSig(sig) ==> PrimFuns(r)
  {
    funs + map x | x in names :: sig
  }

  function Words(n: nat): (r: seq<Ty>)
    ensures |r| == n && forall t | t in r :: t == Word
  {
    seq(n, i => Word)
  }

  function WordBuiltins(f: Funs): (r: Funs)
    ensures PrimFuns(f) ==> PrimFuns(r)
  {
    var f := AddAll(f, {
      "add", "sub", "mul", "div", "sdiv", "mod", "smod", "exp", "signextend", "and", "or", "xor", "byte", "shl", "shr",
      "sar", "keccak256", "primAddWord", "subWord", "mulWord", "bxorWord", "bandWord", "borWord", "integerAdd",
      "integerSub", "integerMul"
    }, FunSig(Words(2), Word));
    var f := AddAll(f, {"wordFromInteger"}, FunSig(Words(1), Word));
    var f := AddAll(f, {"addmod", "mulmod"}, FunSig(Words(3), Word));
    AddAll(f, {
      "mload", "sload", "tload", "calldataload", "memoryguard", "balance", "extcodesize", "extcodehash", "blockhash",
      "blobhash"
    }, FunSig(Words(1), Word))
  }

  function ContextBuiltins(f: Funs): (r: Funs)
    ensures PrimFuns(f) ==> PrimFuns(r)
  {
    var f := AddAll(f, {
      "address", "origin", "caller", "callvalue", "calldatasize", "codesize", "gasprice", "returndatasize", "coinbase",
      "timestamp", "number", "prevrandao", "gaslimit", "chainid", "selfbalance", "basefee", "blobbasefee", "msize",
      "gas"
    }, FunSig([], Word));
    var f := AddAll(f, {"lt", "gt", "slt", "sgt", "eq", "primEqWord", "gtWord", "integerLt", "integerEq"},
      FunSig(Words(2), BOOL_SUM));
    var f := AddAll(f, {"iszero"}, FunSig([BOOL_SUM], BOOL_SUM));
    AddAll(f, {"not", "bnotWord", "clz", "wordToInteger"}, FunSig(Words(1), Word))
  }

  function EffectBuiltins(f: Funs): (r: Funs)
    ensures PrimFuns(f) ==> PrimFuns(r)
  {
    var f := AddAll(f, {"stop", "invalid"}, FunSig([], Unit));
    var f := AddAll(f, {"mstore", "mstore8", "sstore", "tstore", "return", "revert"}, FunSig(Words(2), Unit));
    var f := AddAll(f, {"pop", "selfdestruct"}, FunSig(Words(1), Unit));
    AddAll(f, {"calldatacopy", "codecopy", "returndatacopy", "mcopy", "datacopy"}, FunSig(Words(3), Unit))
  }

  function CallBuiltins(f: Funs): (r: Funs)
    ensures PrimFuns(f) ==> PrimFuns(r)
  {
    var f := AddAll(f, {"extcodecopy"}, FunSig(Words(4), Unit));
    var f := AddAll(f, {"create"}, FunSig(Words(3), Word));
    var f := AddAll(f, {"create2"}, FunSig(Words(4), Word));
    var f := AddAll(f, {"call", "callcode"}, FunSig(Words(7), Word));
    var f := AddAll(f, {"delegatecall", "staticcall"}, FunSig(Words(6), Word));
    AddAll(f, {"log0"}, FunSig(Words(2), Unit))
  }

  function LogBuiltins(f: Funs): (r: Funs)
    ensures PrimFuns(f) ==> PrimFuns(r)
  {
    var f := AddAll(f, {"log1"}, FunSig(Words(3), Unit));
    var f := AddAll(f, {"log2"}, FunSig(Words(4), Unit));
    var f := AddAll(f, {"log3"}, FunSig(Words(5), Unit));
    var f := AddAll(f, {"log4"}, FunSig(Words(6), Unit));
    var f := AddAll(f, {"dataoffset", "datasize", "loadimmutable", "linkersymbol"}, FunSig(Words(1), Word));
    AddAll(f, {"setimmutable"}, FunSig(Words(3), Unit))
  }

  /** `builtin_funs`, in the order in which the source inserts them. */
  function BuiltinFuns(): (r: Funs)
    ensures PrimFuns(r)
  {
    LogBuiltins(CallBuiltins(EffectBuiltins(ContextBuiltins(WordBuiltins(map[])))))
  }

  /** `asm_builtin_sig`: argument count and whether the builtin yields a word. */
  function AsmBuiltinSig(name: Name): Option<FunSig> {
    if name in {"stop", "invalid"} then Some(FunSig([], Unit))
    else if name in {"add", "sub", "mul", "div", "sdiv", "mod", "smod", "exp", "signextend", "lt", "gt", "slt", "sgt",
                     "eq", "and", "or", "xor", "byte", "shl", "shr", "sar", "keccak256"}
                       then Some(FunSig(Words(2), Word))
    else if name in {"addmod", "mulmod"} then Some(FunSig(Words(3), Word))
    else if name in {"iszero", "not", "clz", "balance", "calldataload", "extcodesize", "extcodehash", "blockhash",
                     "blobhash", "mload", "sload", "tload"} then Some(FunSig(Words(1), Word))
    else if name in {"pop", "selfdestruct"} then Some(FunSig(Words(1), Unit))
    else if name in {"address", "origin", "caller", "callvalue", "calldatasize", "codesize", "gasprice",
                     "returndatasize", "coinbase", "timestamp", "number", "prevrandao", "gaslimit", "chainid",
                     "selfbalance", "basefee", "blobbasefee", "msize", "gas"} then Some(FunSig([], Word))
    else if name in {"mstore", "mstore8", "sstore", "tstore", "return", "revert"} then Some(FunSig(Words(2), Unit))
    else if name in {"calldatacopy", "codecopy", "returndatacopy", "mcopy", "datacopy"}
      then Some(FunSig(Words(3), Unit))
    else if name == "extcodecopy" then Some(FunSig(Words(4), Unit))
    else if name == "create" then Some(FunSig(Words(3), Word))
    else if name == "create2" then Some(FunSig(Words(4), Word))
    else if name in {"call", "callcode"} then Some(FunSig(Words(7), Word))
    else if name in {"delegatecall", "staticcall"} then Some(FunSig(Words(6), Word))
    else if name == "log0" then Some(FunSig(Words(2), Unit))
    else if name == "log1" then Some(FunSig(Words(3), Unit))
    else if name == "log2" then Some(FunSig(Words(4), Unit))
    else if name == "log3" then Some(FunSig(Words(5), Unit))
    else if name == "log4" then Some(FunSig(Words(6), Unit))
    else if name in {"memoryguard", "dataoffset", "datasize", "loadimmutable", "linkersymbol"}
      then Some(FunSig(Words(1), Word))
    else if name == "setimmutable" then Some(FunSig(Words(3), Unit))
    else None
  }
}
