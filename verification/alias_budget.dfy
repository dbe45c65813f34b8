/** When the node budget of the alias normaliser suffices: exactly when the cost of the type is at most the budget. */
module AliasBudget {
  import opened AliasTypes
  import opened AliasNormalizers
  import opened AliasTheorems

  /**
   The nodes that normalising an expandable type takes, `env` giving the normal arguments for its variables: one for
   each node of the type, and for each alias the nodes of its body with the expanded arguments put in.
   */
  function Cost(d: Aliases, stack: set<DefId>, t: Ty, env: seq<Ty>, inBody: bool): nat
    requires Expandable(d, stack, t)
    decreases Unvisited(d, stack), t
  {
    match t
    case BoundVar(i) => if i < |env| then Size(env[i]) else 1
    case Named(ctor, args) =>
      var own := 1 + CostAll(d, stack, args, env, inBody);
      if ctor.Alias? && ctor.def in d then
        UnvisitedDecreases(d, stack, ctor.def);
        own + Cost(d, stack + {ctor.def}, d[ctor.def].body, Expansions(d, stack, args, env, inBody), true)
      else own
    case Function(params, ret) =>
      1 + CostAll(d, stack, params, env, inBody) + Cost(d, stack, ret, env, inBody)
    case Tuple(elems) => 1 + CostAll(d, stack, elems, env, inBody)
    case Comptime(inner) => 1 + Cost(d, stack, inner, env, inBody)
    case _ => 1
  }

  function CostAll(d: Aliases, stack: set<DefId>, ts: seq<Ty>, env: seq<Ty>, inBody: bool): nat
    requires AllExpandable(d, stack, ts)
    decreases Unvisited(d, stack), ts
  {
    if ts == [] then 0 else Cost(d, stack, ts[0], env, inBody) + CostAll(d, stack, ts[1..], env, inBody)
  }

  /** A normal type costs its size. */
  lemma {:induction false} NormalCost(d: Aliases, stack: set<DefId>, t: Ty)
    requires Normal(d, t)
    ensures Expandable(d, stack, t) && Cost(d, stack, t, [], false) == Size(t)
    decreases t
  {
    NormalExpansion(d, stack, t);
    match t
    case Named(_, args) => NormalCosts(d, stack, args);
    case Function(params, ret) =>
      NormalCosts(d, stack, params);
      NormalCost(d, stack, ret);
    case Tuple(elems) => NormalCosts(d, stack, elems);
    case Comptime(inner) => NormalCost(d, stack, inner);
    case _ =>
  }

  lemma {:induction false} NormalCosts(d: Aliases, stack: set<DefId>, ts: seq<Ty>)
    requires AllNormal(d, ts)
    ensures AllExpandable(d, stack, ts) && CostAll(d, stack, ts, [], false) == SizeAll(ts)
    decreases ts
  {
    NormalExpansions(d, stack, ts);
    if ts != [] {
      NormalCost(d, stack, ts[0]);
      NormalCosts(d, stack, ts[1..]);
    }
  }

  /** Substituting normal arguments and then normalising costs what the body costs with them as environment. */
  lemma {:induction false} CostOfSubstitution(d: Aliases, stack: set<DefId>, t: Ty, args: seq<Ty>)
    requires AllNormal(d, args) && Expandable(d, stack, t)
    ensures Expandable(d, stack, FromAliasBody(t, args))
    ensures Cost(d, stack, FromAliasBody(t, args), [], false) == Cost(d, stack, t, args, true)
    decreases t
  {
    SubstitutionCommutes(d, stack, t, args);
    match t
    case BoundVar(i) =>
      if i < |args| {
        AllNormalAt(d, args, i);
        NormalCost(d, stack, args[i]);
      }
    case Named(_, inner) =>
      CostOfSubstitutions(d, stack, inner, args);
      SubstitutionsCommute(d, stack, inner, args);
    case Function(params, ret) =>
      CostOfSubstitutions(d, stack, params, args);
      CostOfSubstitution(d, stack, ret, args);
    case Tuple(elems) => CostOfSubstitutions(d, stack, elems, args);
    case Comptime(inner) => CostOfSubstitution(d, stack, inner, args);
    case _ =>
  }

  lemma {:induction false} CostOfSubstitutions(d: Aliases, stack: set<DefId>, ts: seq<Ty>, args: seq<Ty>)
    requires AllNormal(d, args) && AllExpandable(d, stack, ts)
    ensures AllExpandable(d, stack, FromAliasBodies(ts, args))
    ensures CostAll(d, stack, FromAliasBodies(ts, args), [], false) == CostAll(d, stack, ts, args, true)
    decreases ts
  {
    SubstitutionsCommute(d, stack, ts, args);
    if ts != [] {
      CostOfSubstitution(d, stack, ts[0], args);
      CostOfSubstitutions(d, stack, ts[1..], args);
      assert FromAliasBodies(ts, args)[1..] == FromAliasBodies(ts[1..], args);
    }
  }

  /** What a step did to the budget: it took the cost, or ran out because the cost was more than was left. */
  ghost predicate Spent(before: State, after: State, cost: nat) {
    if cost <= before.remaining then !after.exhausted && after.remaining == before.remaining - cost
    else after.exhausted
  }

  lemma {:induction false} NormalizeSpends(d: Aliases, st: State, t: Ty)
    requires Elements(st.expanding) <= d.Keys && !st.exhausted && Expandable(d, Elements(st.expanding), t)
    ensures Spent(st, Normalize(d, st, t).0, Cost(d, Elements(st.expanding), t, [], false))
    decreases st.remaining, 0
  {
    if st.remaining > 0 {
      var st1 := st.(remaining := st.remaining - 1);
      match t
      case Named(ctor, args) =>
        NormalizeAllSpends(d, st1, args);
        var (st2, args') := NormalizeAll(d, st1, args);
        if ctor.Alias? && ctor.def in d && !st2.exhausted {
          NormalizeAllComplete(d, st1, args);
          NormalizeAllSound(d, st1, args);
          ResultsAreNormal(d, st1, args);
          ExpandSpends(d, st2, ctor.def, args');
        }
      case Function(params, ret) =>
        NormalizeAllSpends(d, st1, params);
        var st2 := NormalizeAll(d, st1, params).0;
        if !st2.exhausted {
          NormalizeSpends(d, st2, ret);
        }
      case Tuple(elems) => NormalizeAllSpends(d, st1, elems);
      case Comptime(inner) => NormalizeSpends(d, st1, inner);
      case _ =>
    } else {
      CostIsPositive(d, Elements(st.expanding), t);
    }
  }

  lemma CostIsPositive(d: Aliases, stack: set<DefId>, t: Ty)
    requires Expandable(d, stack, t)
    ensures Cost(d, stack, t, [], false) > 0
  {
  }

  lemma {:induction false} NormalizeAllSpends(d: Aliases, st: State, ts: seq<Ty>)
    requires Elements(st.expanding) <= d.Keys && !st.exhausted && AllExpandable(d, Elements(st.expanding), ts)
    ensures Spent(st, NormalizeAll(d, st, ts).0, CostAll(d, Elements(st.expanding), ts, [], false))
    decreases st.remaining, |ts|
  {
    if ts != [] {
      NormalizeSpends(d, st, ts[0]);
      var st1 := Normalize(d, st, ts[0]).0;
      if !st1.exhausted {
        NormalizeAllSpends(d, st1, ts[1..]);
      }
    }
  }

  lemma {:induction false} ExpandSpends(d: Aliases, st: State, def: DefId, args: seq<Ty>)
    requires Elements(st.expanding) <= d.Keys && !st.exhausted && AllNormal(d, args)
    requires def in d && def !in st.expanding && |args| == d[def].arity
    requires Expandable(d, Elements(st.expanding) + {def}, d[def].body)
    ensures Spent(st, Expand(d, st, def, args).0,
      Cost(d, Elements(st.expanding) + {def}, d[def].body, args, true))
    decreases st.remaining, 1
  {
    var st1 := st.(expanding := st.expanding + [def]);
    ElementsAppend(st.expanding, def);
    CostOfSubstitution(d, Elements(st1.expanding), d[def].body, args);
    NormalizeSpends(d, st1, FromAliasBody(d[def].body, args));
  }

  // ----- the theorems -----

  /** For a type that can be expanded, the limit is reported exactly when its cost is more than the budget. */
  lemma BudgetSufficesExactly(d: Aliases, t: Ty)
    requires Expandable(d, {}, t)
    ensures Normalize(d, FRESH, t).0.exhausted <==> Cost(d, {}, t, [], false) > 16384
    ensures !Normalize(d, FRESH, t).0.exhausted ==>
      Normalize(d, FRESH, t).0.remaining == 16384 - Cost(d, {}, t, [], false)
  {
    assert Elements(FRESH.expanding) == {};
    NormalizeSpends(d, FRESH, t);
  }

  /** The type can be expanded within the budget. */
  predicate Affordable(d: Aliases, t: Ty) {
    Expandable(d, {}, t) && Cost(d, {}, t, [], false) <= 16384
  }

  /**
   No error at all is reported exactly when every alias that the type reaches is rightly applied and not recursive, and
   the cost of its expansion is within the budget.
   */
  lemma CleanExactly(d: Aliases, t: Ty)
    ensures Normalize(d, FRESH, t).0.errors == [] <==> AllReachableFine(d, t) && Affordable(d, t)
    ensures AllReachableFine(d, t) ==> Expandable(d, {}, t)
  {
    ErrorsHaveWitnesses(d, t);
    if AllReachableFine(d, t) {
      FineIsExpandable(d, [], t);
      assert Elements([]) == {};
    }
    if Normalize(d, FRESH, t).0.errors == [] {
      assert !Normalize(d, FRESH, t).0.exhausted;
      ErrorsAreExact(d, t);
      NormalizationPreservesMeaning(d, t);
      BudgetSufficesExactly(d, t);
    } else if AllReachableFine(d, t) && Affordable(d, t) {
      BudgetSufficesExactly(d, t);
      ErrorsAreExact(d, t);
    }
  }

  datatype AliasNorm = AliasNorm(value: Ty, errors: seq<AliasError>)

  /** `normalize_ty_aliases`: free of errors exactly on such types, and then their full expansion. */
  method NormalizeTyAliases(d: Aliases, t: Ty) returns (r: AliasNorm)
    ensures r == AliasNorm(Normalize(d, FRESH, t).1, Normalize(d, FRESH, t).0.errors)
    ensures r.errors == [] <==> AllReachableFine(d, t) && Affordable(d, t)
    ensures r.errors == [] ==>
      Expandable(d, {}, t) && r.value == Expansion(d, {}, t, [], false) && Normal(d, r.value)
  {
    var normalizer := new AliasNormalizer(d);
    var value := normalizer.NormalizeTy(t);
    var errors := normalizer.TakeErrors();
    CleanExactly(d, t);
    if errors == [] {
      NormalizationPreservesMeaning(d, t);
    }
    return AliasNorm(value, errors);
  }
}
