/** The alias normaliser of crates/hir-ty/src/alias.rs: a node budget, an expansion stack and accumulated errors. */
module AliasNormalizers {
  import opened Wrappers
  import opened AliasTypes

  const NODE_BUDGET: nat := 16384

  datatype AliasError =
    | Cycle(alias: DefId)
    | Arity(alias: DefId, expected: nat, actual: nat)
    | ExpansionLimit(root: Option<DefId>, limit: nat)

  /** The mutable part of a normaliser. */
  datatype State = State(expanding: seq<DefId>, errors: seq<AliasError>, remaining: nat, exhausted: bool)

  const FRESH := State([], [], NODE_BUDGET, false)

  function ReportLimit(st: State): State {
    if st.exhausted then st
    else
      var root := if st.expanding == [] then None else Some(st.expanding[0]);
      st.(exhausted := true, errors := st.errors + [ExpansionLimit(root, NODE_BUDGET)])
  }

  function CountLimits(errors: seq<AliasError>): nat {
    if errors == [] then 0
    else CountLimits(errors[..|errors| - 1]) + if errors[|errors| - 1].ExpansionLimit? then 1 else 0
  }

  /** What every step of the normaliser keeps. */
  ghost predicate Steps(before: State, after: State) {
    && after.expanding == before.expanding
    && after.remaining <= before.remaining
    && before.errors <= after.errors
    && (before.exhausted ==> after.exhausted)
    && CountLimits(after.errors) == CountLimits(before.errors) + if after.exhausted && !before.exhausted then 1 else 0
  }

  // ----- the normaliser as a function on states -----

  function Normalize(d: Aliases, st: State, t: Ty): (r: (State, Ty))
    ensures Steps(st, r.0)
    decreases st.remaining, 0
  {
    if st.remaining == 0 then
      CountLimitsAppend(st.errors, ReportLimit(st).errors);
      (ReportLimit(st), Error)
    else
      var st1 := st.(remaining := st.remaining - 1);
      match t
      case Named(ctor, args) =>
        var (st2, args') := NormalizeAll(d, st1, args);
        if ctor.Alias? then Expand(d, st2, ctor.def, args') else (st2, Named(ctor, args'))
      case Function(params, ret) =>
        var (st2, params') := NormalizeAll(d, st1, params);
        var (st3, ret') := Normalize(d, st2, ret);
        (st3, Function(params', ret'))
      case Tuple(elems) =>
        var (st2, elems') := NormalizeAll(d, st1, elems);
        (st2, Tuple(elems'))
      case Comptime(inner) =>
        var (st2, inner') := Normalize(d, st1, inner);
        (st2, Comptime(inner'))
      case _ => (st1, t)
  }

  function NormalizeAll(d: Aliases, st: State, ts: seq<Ty>): (r: (State, seq<Ty>))
    ensures Steps(st, r.0) && |r.1| == |ts|
    decreases st.remaining, |ts|
  {
    if ts == [] then (st, [])
    else
      var (st1, t') := Normalize(d, st, ts[0]);
      var (st2, ts') := NormalizeAll(d, st1, ts[1..]);
      (st2, [t'] + ts')
  }

  /** `expand_alias_ctor`, the arguments being normalised already. */
  function Expand(d: Aliases, st: State, def: DefId, args: seq<Ty>): (r: (State, Ty))
    ensures Steps(st, r.0)
    decreases st.remaining, 1
  {
    if def in st.expanding then
      CountLimitsAppend(st.errors, st.errors + [Cycle(def)]);
      (st.(errors := st.errors + [Cycle(def)]), Error)
    else if def !in d then (st, Named(Alias(def), args))
    else if d[def].arity != |args| then
      var error := Arity(def, d[def].arity, |args|);
      CountLimitsAppend(st.errors, st.errors + [error]);
      (st.(errors := st.errors + [error]), Error)
    else
      var (st1, expanded) := Normalize(d, st.(expanding := st.expanding + [def]), FromAliasBody(d[def].body, args));
      (st1.(expanding := st.expanding), expanded)
  }

  lemma CountLimitsAppend(before: seq<AliasError>, after: seq<AliasError>)
    ensures |after| == |before| + 1 && after[..|before|] == before ==>
      CountLimits(after) == CountLimits(before) + if after[|before|].ExpansionLimit? then 1 else 0
  {
  }

  // ----- the normaliser as the source runs it -----

  class AliasNormalizer {
    const aliases: Aliases
    var expanding: seq<DefId>
    var errors: seq<AliasError>
    var remainingNodes: nat
    var budgetExhausted: bool

    function Current(): State
      reads this
    {
      State(expanding, errors, remainingNodes, budgetExhausted)
    }

    /** No alias is being expanded twice, so at most as many expansions are open as there are aliases. */
    ghost predicate Valid()
      reads this
    {
      forall i, j | 0 <= i < j < |expanding| :: expanding[i] != expanding[j]
    }

    constructor (aliases: Aliases)
      ensures this.aliases == aliases && Current() == FRESH && Valid()
    {
      this.aliases := aliases;
      expanding := [];
      errors := [];
      remainingNodes := NODE_BUDGET;
      budgetExhausted := false;
    }

    method ReportExpansionLimit()
      modifies this
      ensures Current() == ReportLimit(old(Current()))
    {
      if budgetExhausted { return; }
      budgetExhausted := true;
      var root := if expanding == [] then None else Some(expanding[0]);
      errors := errors + [ExpansionLimit(root, NODE_BUDGET)];
    }

    method ConsumeNode() returns (ok: bool)
      modifies this
      ensures ok == (old(remainingNodes) > 0)
      ensures ok ==> Current() == old(Current()).(remaining := old(remainingNodes) - 1)
      ensures !ok ==> Current() == ReportLimit(old(Current()))
    {
      if remainingNodes == 0 {
        ReportExpansionLimit();
        return false;
      }
      remainingNodes := remainingNodes - 1;
      return true;
    }

    method NormalizeTy(t: Ty) returns (r: Ty)
      requires Valid()
      modifies this
      ensures Valid() && expanding == old(expanding)
      ensures (Current(), r) == Normalize(aliases, old(Current()), t)
      decreases remainingNodes, 0
    {
      var ok := ConsumeNode();
      if !ok { return Error; }
      match t
      case Named(ctor, args) =>
        var args' := NormalizeTys(args);
        match ctor {
          case Alias(def) => r := ExpandAliasCtor(def, args');
          case Other(_) => r := Named(ctor, args');
        }
      case Function(params, ret) =>
        var params' := NormalizeTys(params);
        var ret' := NormalizeTy(ret);
        return Function(params', ret');
      case Tuple(elems) =>
        var elems' := NormalizeTys(elems);
        return Tuple(elems');
      case Comptime(inner) =>
        var inner' := NormalizeTy(inner);
        return Comptime(inner');
      case _ => return t;
    }

    method NormalizeTys(ts: seq<Ty>) returns (r: seq<Ty>)
      requires Valid()
      modifies this
      ensures Valid() && expanding == old(expanding)
      ensures (Current(), r) == NormalizeAll(aliases, old(Current()), ts)
      decreases remainingNodes, |ts|
    {
      r := [];
      ghost var all := NormalizeAll(aliases, Current(), ts);
      for i := 0 to |ts|
        invariant Valid() && expanding == old(expanding) && remainingNodes <= old(remainingNodes)
        invariant all.0 == NormalizeAll(aliases, Current(), ts[i..]).0
        invariant all.1 == r + NormalizeAll(aliases, Current(), ts[i..]).1
      {
        assert ts[i..][1..] == ts[i + 1..];
        var t' := NormalizeTy(ts[i]);
        r := r + [t'];
      }
      assert r == all.1;
    }

    method ExpandAliasCtor(def: DefId, args: seq<Ty>) returns (r: Ty)
      requires Valid()
      modifies this
      ensures Valid() && expanding == old(expanding)
      ensures (Current(), r) == Expand(aliases, old(Current()), def, args)
      decreases remainingNodes, 1
    {
      if def in expanding {
        errors := errors + [Cycle(def)];
        return Error;
      }
      if def !in aliases { return Named(Alias(def), args); }
      if aliases[def].arity != |args| {
        errors := errors + [Arity(def, aliases[def].arity, |args|)];
        return Error;
      }
      expanding := expanding + [def];
      r := NormalizeTy(FromAliasBody(aliases[def].body, args));
      expanding := expanding[..|expanding| - 1];
    }

    method TakeErrors() returns (taken: seq<AliasError>)
      modifies this
      ensures taken == old(errors) && Current() == old(Current()).(errors := [])
    {
      taken := errors;
      errors := [];
    }
  }
}
