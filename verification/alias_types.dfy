/** Types that can mention type aliases (crates/hir-ty/src/alias.rs), and what an alias-free reading of them is. */
module AliasTypes {
  // Full expansion is defined with environments, without any substitution, so it is independent of how the normaliser
  // works.

  type DefId = string

  datatype Ctor = Alias(def: DefId) | Other(name: string)

  datatype Ty =
    | Error
    | Unknown
    | BoundVar(index: nat)
    | Named(ctor: Ctor, args: seq<Ty>)
    | Function(params: seq<Ty>, ret: Ty)
    | Tuple(elems: seq<Ty>)
    | Comptime(inner: Ty)

  datatype AliasInfo = AliasInfo(arity: nat, body: Ty)

  /** The aliases whose declarations can be found. */
  type Aliases = map<DefId, AliasInfo>

  // ----- substitution -----

  /** `from_alias_body`: all parameters at once. */
  function FromAliasBody(t: Ty, args: seq<Ty>): Ty
    decreases t
  {
    match t
    case Error => Error
    case Unknown => Error
    case BoundVar(i) => if i < |args| then args[i] else t
    case Named(ctor, inner) => Named(ctor, FromAliasBodies(inner, args))
    case Function(params, ret) => Function(FromAliasBodies(params, args), FromAliasBody(ret, args))
    case Tuple(elems) => Tuple(FromAliasBodies(elems, args))
    case Comptime(inner) => Comptime(FromAliasBody(inner, args))
  }

  function FromAliasBodies(ts: seq<Ty>, args: seq<Ty>): (r: seq<Ty>)
    ensures |r| == |ts|
    decreases ts
  {
    if ts == [] then [] else [FromAliasBody(ts[0], args)] + FromAliasBodies(ts[1..], args)
  }

  // ----- normal forms -----

  /** No resolvable alias is left. */
  predicate Normal(d: Aliases, t: Ty)
    decreases t
  {
    match t
    case Named(ctor, args) => !(ctor.Alias? && ctor.def in d) && AllNormal(d, args)
    case Function(params, ret) => AllNormal(d, params) && Normal(d, ret)
    case Tuple(elems) => AllNormal(d, elems)
    case Comptime(inner) => Normal(d, inner)
    case _ => true
  }

  predicate AllNormal(d: Aliases, ts: seq<Ty>)
    decreases ts
  {
    ts != [] ==> Normal(d, ts[0]) && AllNormal(d, ts[1..])
  }

  function Size(t: Ty): nat
    decreases t
  {
    match t
    case Named(_, args) => 1 + SizeAll(args)
    case Function(params, ret) => 1 + SizeAll(params) + Size(ret)
    case Tuple(elems) => 1 + SizeAll(elems)
    case Comptime(inner) => 1 + Size(inner)
    case _ => 1
  }

  function SizeAll(ts: seq<Ty>): nat
    decreases ts
  {
    if ts == [] then 0 else Size(ts[0]) + SizeAll(ts[1..])
  }

  // ----- which types have a full expansion -----

  function Unvisited(d: Aliases, stack: set<DefId>): nat {
    |d.Keys - stack|
  }

  lemma UnvisitedDecreases(d: Aliases, stack: set<DefId>, def: DefId)
    requires def in d && def !in stack
    ensures Unvisited(d, stack + {def}) < Unvisited(d, stack)
  {
    assert d.Keys - stack == (d.Keys - (stack + {def})) + {def};
  }

  /** Below the aliases of `stack`, every alias is applied to the right number of arguments and none recurs. */
  predicate Expandable(d: Aliases, stack: set<DefId>, t: Ty)
    decreases Unvisited(d, stack), t
  {
    match t
    case Named(ctor, args) =>
      && AllExpandable(d, stack, args)
      && (ctor.Alias? && ctor.def in d ==>
            && ctor.def !in stack
            && |args| == d[ctor.def].arity
            && (UnvisitedDecreases(d, stack, ctor.def);
                Expandable(d, stack + {ctor.def}, d[ctor.def].body)))
    case Function(params, ret) => AllExpandable(d, stack, params) && Expandable(d, stack, ret)
    case Tuple(elems) => AllExpandable(d, stack, elems)
    case Comptime(inner) => Expandable(d, stack, inner)
    case _ => true
  }

  predicate AllExpandable(d: Aliases, stack: set<DefId>, ts: seq<Ty>)
    decreases Unvisited(d, stack), ts
  {
    ts != [] ==> Expandable(d, stack, ts[0]) && AllExpandable(d, stack, ts[1..])
  }

  /** The full expansion of a type, `env` giving the expansions of its variables.  Placeholders in a body are errors. */
  function Expansion(d: Aliases, stack: set<DefId>, t: Ty, env: seq<Ty>, inBody: bool): Ty
    requires Expandable(d, stack, t)
    decreases Unvisited(d, stack), t
  {
    match t
    case Error => Error
    case Unknown => if inBody then Error else Unknown
    case BoundVar(i) => if i < |env| then env[i] else t
    case Named(ctor, args) =>
      var values := Expansions(d, stack, args, env, inBody);
      if ctor.Alias? && ctor.def in d then
        UnvisitedDecreases(d, stack, ctor.def);
        Expansion(d, stack + {ctor.def}, d[ctor.def].body, values, true)
      else Named(ctor, values)
    case Function(params, ret) =>
      Function(Expansions(d, stack, params, env, inBody), Expansion(d, stack, ret, env, inBody))
    case Tuple(elems) => Tuple(Expansions(d, stack, elems, env, inBody))
    case Comptime(inner) => Comptime(Expansion(d, stack, inner, env, inBody))
  }

  function Expansions(d: Aliases, stack: set<DefId>, ts: seq<Ty>, env: seq<Ty>, inBody: bool): (r: seq<Ty>)
    requires AllExpandable(d, stack, ts)
    ensures |r| == |ts|
    decreases Unvisited(d, stack), ts
  {
    if ts == [] then []
    else [Expansion(d, stack, ts[0], env, inBody)] + Expansions(d, stack, ts[1..], env, inBody)
  }

  // ----- normal types -----

  /** A normal type is its own expansion. */
  lemma {:induction false} NormalExpansion(d: Aliases, stack: set<DefId>, t: Ty)
    requires Normal(d, t)
    ensures Expandable(d, stack, t) && Expansion(d, stack, t, [], false) == t
    decreases t
  {
    match t
    case Named(_, args) => NormalExpansions(d, stack, args);
    case Function(params, ret) => NormalExpansions(d, stack, params); NormalExpansion(d, stack, ret);
    case Tuple(elems) => NormalExpansions(d, stack, elems);
    case Comptime(inner) => NormalExpansion(d, stack, inner);
    case _ =>
  }

  lemma {:induction false} NormalExpansions(d: Aliases, stack: set<DefId>, ts: seq<Ty>)
    requires AllNormal(d, ts)
    ensures AllExpandable(d, stack, ts) && Expansions(d, stack, ts, [], false) == ts
    decreases ts
  {
    if ts != [] {
      NormalExpansion(d, stack, ts[0]);
      NormalExpansions(d, stack, ts[1..]);
    }
  }

  lemma {:induction false} AllNormalAt(d: Aliases, ts: seq<Ty>, i: nat)
    requires AllNormal(d, ts) && i < |ts|
    ensures Normal(d, ts[i])
    decreases ts
  {
    if i > 0 { AllNormalAt(d, ts[1..], i - 1); }
  }

  // ----- substitution commutes with expansion -----

  /** Substituting normal arguments and then expanding is expanding with the arguments as environment. */
  lemma {:induction false} SubstitutionCommutes(d: Aliases, stack: set<DefId>, t: Ty, args: seq<Ty>)
    requires AllNormal(d, args)
    ensures Expandable(d, stack, FromAliasBody(t, args)) <==> Expandable(d, stack, t)
    ensures Expandable(d, stack, t) ==>
      Expansion(d, stack, FromAliasBody(t, args), [], false) == Expansion(d, stack, t, args, true)
    decreases t
  {
    match t
    case BoundVar(i) =>
      if i < |args| {
        AllNormalAt(d, args, i);
        NormalExpansion(d, stack, args[i]);
      }
    case Named(_, inner) => SubstitutionsCommute(d, stack, inner, args);
    case Function(params, ret) => SubstitutionsCommute(d, stack, params, args);
      SubstitutionCommutes(d, stack, ret, args);
    case Tuple(elems) => SubstitutionsCommute(d, stack, elems, args);
    case Comptime(inner) => SubstitutionCommutes(d, stack, inner, args);
    case _ =>
  }

  lemma {:induction false} SubstitutionsCommute(d: Aliases, stack: set<DefId>, ts: seq<Ty>, args: seq<Ty>)
    requires AllNormal(d, args)
    ensures AllExpandable(d, stack, FromAliasBodies(ts, args)) <==> AllExpandable(d, stack, ts)
    ensures AllExpandable(d, stack, ts) ==>
      Expansions(d, stack, FromAliasBodies(ts, args), [], false) == Expansions(d, stack, ts, args, true)
    decreases ts
  {
    if ts != [] {
      SubstitutionCommutes(d, stack, ts[0], args);
      SubstitutionsCommute(d, stack, ts[1..], args);
      assert FromAliasBodies(ts, args)[1..] == FromAliasBodies(ts[1..], args);
    }
  }
}
