/** What the alias normaliser guarantees. */
module AliasTheorems {
  import opened AliasTypes
  import opened AliasNormalizers
  import opened Sequences

  function Elements(s: seq<DefId>): set<DefId> {
    set x | x in s
  }

  lemma ElementsAppend(s: seq<DefId>, x: DefId)
    ensures Elements(s + [x]) == Elements(s) + {x}
  {
  }

  // ----- results are normal -----

  /** Whatever happens, no resolvable alias is left in the result. */
  lemma {:induction false} ResultIsNormal(d: Aliases, st: State, t: Ty)
    ensures Normal(d, Normalize(d, st, t).1)
    decreases st.remaining, 0
  {
    if st.remaining > 0 {
      var st1 := st.(remaining := st.remaining - 1);
      match t
      case Named(ctor, args) =>
        ResultsAreNormal(d, st1, args);
        var (st2, args') := NormalizeAll(d, st1, args);
        if ctor.Alias? { ExpandIsNormal(d, st2, ctor.def, args'); }
      case Function(params, ret) =>
        ResultsAreNormal(d, st1, params);
        ResultIsNormal(d, NormalizeAll(d, st1, params).0, ret);
      case Tuple(elems) => ResultsAreNormal(d, st1, elems);
      case Comptime(inner) => ResultIsNormal(d, st1, inner);
      case _ =>
    }
  }

  lemma {:induction false} ResultsAreNormal(d: Aliases, st: State, ts: seq<Ty>)
    ensures AllNormal(d, NormalizeAll(d, st, ts).1)
    decreases st.remaining, |ts|
  {
    if ts != [] {
      ResultIsNormal(d, st, ts[0]);
      ResultsAreNormal(d, Normalize(d, st, ts[0]).0, ts[1..]);
      var r := NormalizeAll(d, st, ts).1;
      assert r[1..] == NormalizeAll(d, Normalize(d, st, ts[0]).0, ts[1..]).1;
    }
  }

  lemma {:induction false} ExpandIsNormal(d: Aliases, st: State, def: DefId, args: seq<Ty>)
    requires AllNormal(d, args)
    ensures Normal(d, Expand(d, st, def, args).1)
    decreases st.remaining, 1
  {
    if def !in st.expanding && def in d && d[def].arity == |args| {
      ResultIsNormal(d, st.(expanding := st.expanding + [def]), FromAliasBody(d[def].body, args));
    }
  }

  // ----- without errors the result is the full expansion -----

  /** A step that reports nothing expanded its type fully. */
  lemma {:induction false} NormalizeSound(d: Aliases, st: State, t: Ty)
    requires !st.exhausted && Normalize(d, st, t).0.errors == st.errors
    ensures Expandable(d, Elements(st.expanding), t)
    ensures Normalize(d, st, t).1 == Expansion(d, Elements(st.expanding), t, [], false)
    decreases st.remaining, 0
  {
    var st1 := st.(remaining := st.remaining - 1);
    match t
    case Named(ctor, args) =>
      var (st2, args') := NormalizeAll(d, st1, args);
      NormalizeAllSound(d, st1, args);
      if ctor.Alias? {
        ResultsAreNormal(d, st1, args);
        ExpandSound(d, st2, ctor.def, args');
      }
    case Function(params, ret) =>
      NormalizeAllSound(d, st1, params);
      NormalizeSound(d, NormalizeAll(d, st1, params).0, ret);
    case Tuple(elems) => NormalizeAllSound(d, st1, elems);
    case Comptime(inner) => NormalizeSound(d, st1, inner);
    case _ =>
  }

  lemma {:induction false} NormalizeAllSound(d: Aliases, st: State, ts: seq<Ty>)
    requires !st.exhausted && NormalizeAll(d, st, ts).0.errors == st.errors
    ensures !NormalizeAll(d, st, ts).0.exhausted
    ensures AllExpandable(d, Elements(st.expanding), ts)
    ensures NormalizeAll(d, st, ts).1 == Expansions(d, Elements(st.expanding), ts, [], false)
    decreases st.remaining, |ts|
  {
    if ts != [] {
      var (st1, t') := Normalize(d, st, ts[0]);
      assert st1.errors == st.errors;
      NormalizeSound(d, st, ts[0]);
      NormalizeAllSound(d, st1, ts[1..]);
    }
  }

  lemma {:induction false} ExpandSound(d: Aliases, st: State, def: DefId, args: seq<Ty>)
    requires !st.exhausted && Expand(d, st, def, args).0.errors == st.errors && AllNormal(d, args)
    ensures def in d ==>
      && def !in st.expanding && |args| == d[def].arity
      && Expandable(d, Elements(st.expanding) + {def}, d[def].body)
      && Expand(d, st, def, args).1 == Expansion(d, Elements(st.expanding) + {def}, d[def].body, args, true)
    ensures def !in d ==> Expand(d, st, def, args).1 == Named(Alias(def), args)
    decreases st.remaining, 1
  {
    if def in d {
      var st1 := st.(expanding := st.expanding + [def]);
      var body := FromAliasBody(d[def].body, args);
      NormalizeSound(d, st1, body);
      ElementsAppend(st.expanding, def);
      SubstitutionCommutes(d, Elements(st1.expanding), d[def].body, args);
    }
  }

  // ----- expandable types are normalised without errors, given the budget -----

  lemma {:induction false} NormalizeComplete(d: Aliases, st: State, t: Ty)
    requires Elements(st.expanding) <= d.Keys
    requires Expandable(d, Elements(st.expanding), t) && !Normalize(d, st, t).0.exhausted
    ensures Normalize(d, st, t).0.errors == st.errors
    decreases st.remaining, 0
  {
    var st1 := st.(remaining := st.remaining - 1);
    match t
    case Named(ctor, args) =>
      NormalizeAllComplete(d, st1, args);
      if ctor.Alias? {
        ResultsAreNormal(d, st1, args);
        var (st2, args') := NormalizeAll(d, st1, args);
        if ctor.def in d {
          ExpandComplete(d, st2, ctor.def, args');
        } else {
          assert ctor.def !in Elements(st2.expanding);
        }
      }
    case Function(params, ret) =>
      NormalizeAllComplete(d, st1, params);
      NormalizeComplete(d, NormalizeAll(d, st1, params).0, ret);
    case Tuple(elems) => NormalizeAllComplete(d, st1, elems);
    case Comptime(inner) => NormalizeComplete(d, st1, inner);
    case _ =>
  }

  lemma {:induction false} NormalizeAllComplete(d: Aliases, st: State, ts: seq<Ty>)
    requires Elements(st.expanding) <= d.Keys
    requires AllExpandable(d, Elements(st.expanding), ts) && !NormalizeAll(d, st, ts).0.exhausted
    ensures NormalizeAll(d, st, ts).0.errors == st.errors
    decreases st.remaining, |ts|
  {
    if ts != [] {
      NormalizeComplete(d, st, ts[0]);
      NormalizeAllComplete(d, Normalize(d, st, ts[0]).0, ts[1..]);
    }
  }

  lemma {:induction false} ExpandComplete(d: Aliases, st: State, def: DefId, args: seq<Ty>)
    requires Elements(st.expanding) <= d.Keys
    requires AllNormal(d, args) && def in d && def !in st.expanding && |args| == d[def].arity
    requires Expandable(d, Elements(st.expanding) + {def}, d[def].body) && !Expand(d, st, def, args).0.exhausted
    ensures Expand(d, st, def, args).0.errors == st.errors
    decreases st.remaining, 1
  {
    var st1 := st.(expanding := st.expanding + [def]);
    ElementsAppend(st.expanding, def);
    SubstitutionCommutes(d, Elements(st1.expanding), d[def].body, args);
    NormalizeComplete(d, st1, FromAliasBody(d[def].body, args));
  }

  // ----- the budget and idempotence -----

  /** Within the budget, every node of the result was paid for. */
  lemma {:induction false} ResultFitsBudget(d: Aliases, st: State, t: Ty)
    requires !Normalize(d, st, t).0.exhausted
    ensures Size(Normalize(d, st, t).1) <= st.remaining - Normalize(d, st, t).0.remaining
    decreases st.remaining, 0
  {
    var st1 := st.(remaining := st.remaining - 1);
    match t
    case Named(ctor, args) =>
      ResultsFitBudget(d, st1, args);
      var (st2, args') := NormalizeAll(d, st1, args);
      if ctor.Alias? && ctor.def !in st2.expanding && ctor.def in d && d[ctor.def].arity == |args'| {
        ResultFitsBudget(d, st2.(expanding := st2.expanding + [ctor.def]), FromAliasBody(d[ctor.def].body, args'));
      }
    case Function(params, ret) =>
      ResultsFitBudget(d, st1, params);
      ResultFitsBudget(d, NormalizeAll(d, st1, params).0, ret);
    case Tuple(elems) => ResultsFitBudget(d, st1, elems);
    case Comptime(inner) => ResultFitsBudget(d, st1, inner);
    case _ =>
  }

  lemma {:induction false} ResultsFitBudget(d: Aliases, st: State, ts: seq<Ty>)
    requires !NormalizeAll(d, st, ts).0.exhausted
    ensures SizeAll(NormalizeAll(d, st, ts).1) <= st.remaining - NormalizeAll(d, st, ts).0.remaining
    decreases st.remaining, |ts|
  {
    if ts != [] {
      ResultFitsBudget(d, st, ts[0]);
      ResultsFitBudget(d, Normalize(d, st, ts[0]).0, ts[1..]);
      var r := NormalizeAll(d, st, ts).1;
      assert r[1..] == NormalizeAll(d, Normalize(d, st, ts[0]).0, ts[1..]).1;
    }
  }

  /** A normal type is left alone, at the cost of one node of budget per node. */
  lemma {:induction false} NormalIsFixed(d: Aliases, st: State, t: Ty)
    requires Normal(d, t) && Size(t) <= st.remaining && st.expanding == []
    ensures Normalize(d, st, t) == (st.(remaining := st.remaining - Size(t)), t)
    decreases t
  {
    var st1 := st.(remaining := st.remaining - 1);
    match t
    case Named(_, args) => NormalsAreFixed(d, st1, args);
    case Function(params, ret) =>
      NormalsAreFixed(d, st1, params);
      NormalIsFixed(d, st1.(remaining := st1.remaining - SizeAll(params)), ret);
    case Tuple(elems) => NormalsAreFixed(d, st1, elems);
    case Comptime(inner) => NormalIsFixed(d, st1, inner);
    case _ =>
  }

  lemma {:induction false} NormalsAreFixed(d: Aliases, st: State, ts: seq<Ty>)
    requires AllNormal(d, ts) && SizeAll(ts) <= st.remaining && st.expanding == []
    ensures NormalizeAll(d, st, ts).0 == st.(remaining := st.remaining - SizeAll(ts)) && NormalizeAll(d, st, ts).1 == ts
    decreases ts
  {
    if ts != [] {
      NormalIsFixed(d, st, ts[0]);
      NormalsAreFixed(d, st.(remaining := st.remaining - Size(ts[0])), ts[1..]);
    }
  }

  // ----- reachability between aliases -----

  /** The resolvable aliases that a type mentions. */
  function Uses(d: Aliases, t: Ty): set<DefId>
    decreases t
  {
    match t
    case Named(ctor, args) => UsesAll(d, args) + if ctor.Alias? && ctor.def in d then {ctor.def} else {}
    case Function(params, ret) => UsesAll(d, params) + Uses(d, ret)
    case Tuple(elems) => UsesAll(d, elems)
    case Comptime(inner) => Uses(d, inner)
    case _ => {}
  }

  function UsesAll(d: Aliases, ts: seq<Ty>): set<DefId>
    decreases ts
  {
    if ts == [] then {} else Uses(d, ts[0]) + UsesAll(d, ts[1..])
  }

  /** Every resolvable alias in the type has as many arguments as its declaration asks for. */
  predicate WellApplied(d: Aliases, t: Ty)
    decreases t
  {
    match t
    case Named(ctor, args) => AllWellApplied(d, args) && (ctor.Alias? && ctor.def in d ==> |args| == d[ctor.def].arity)
    case Function(params, ret) => AllWellApplied(d, params) && WellApplied(d, ret)
    case Tuple(elems) => AllWellApplied(d, elems)
    case Comptime(inner) => WellApplied(d, inner)
    case _ => true
  }

  predicate AllWellApplied(d: Aliases, ts: seq<Ty>)
    decreases ts
  {
    ts != [] ==> WellApplied(d, ts[0]) && AllWellApplied(d, ts[1..])
  }

  predicate Edge(d: Aliases, a: DefId, b: DefId) {
    a in d && b in d && b in Uses(d, d[a].body)
  }

  /** Each alias of the path is mentioned in the body of the one before. */
  predicate IsPath(d: Aliases, path: seq<DefId>) {
    && (forall a | a in path :: a in d)
    && forall i | 0 <= i < |path| - 1 :: Edge(d, path[i], path[i + 1])
  }

  ghost predicate Reaches(d: Aliases, t: Ty, a: DefId) {
    exists path :: IsPath(d, path) && path != [] && path[0] in Uses(d, t) && path[|path| - 1] == a
  }

  /** The alias is defined in terms of itself. */
  ghost predicate Cyclic(d: Aliases, a: DefId) {
    exists path :: IsPath(d, path) && |path| >= 2 && path[0] == a && path[|path| - 1] == a
  }

  /** Every alias reachable from the type is well applied and not cyclic. */
  ghost predicate AllReachableFine(d: Aliases, t: Ty) {
    && WellApplied(d, t)
    && forall a | Reaches(d, t, a) :: WellApplied(d, d[a].body) && !Cyclic(d, a)
  }

  lemma {:induction false} ExpandableUse(d: Aliases, stack: set<DefId>, t: Ty, a: DefId)
    requires Expandable(d, stack, t) && a in Uses(d, t)
    ensures a in d && a !in stack && Expandable(d, stack + {a}, d[a].body)
    decreases t
  {
    match t
    case Named(ctor, args) =>
      if a in UsesAll(d, args) {
        ExpandableUses(d, stack, args, a);
      }
    case Function(params, ret) =>
      if a in UsesAll(d, params) { ExpandableUses(d, stack, params, a); } else { ExpandableUse(d, stack, ret, a); }
    case Tuple(elems) => ExpandableUses(d, stack, elems, a);
    case Comptime(inner) => ExpandableUse(d, stack, inner, a);
    case _ =>
  }

  lemma {:induction false} ExpandableUses(d: Aliases, stack: set<DefId>, ts: seq<Ty>, a: DefId)
    requires AllExpandable(d, stack, ts) && a in UsesAll(d, ts)
    ensures a in d && a !in stack && Expandable(d, stack + {a}, d[a].body)
    decreases ts
  {
    if a in Uses(d, ts[0]) { ExpandableUse(d, stack, ts[0], a); } else { ExpandableUses(d, stack, ts[1..], a); }
  }

  lemma {:induction false} ExpandableWellApplied(d: Aliases, stack: set<DefId>, t: Ty)
    requires Expandable(d, stack, t)
    ensures WellApplied(d, t)
    decreases t
  {
    match t
    case Named(_, args) => AllExpandableWellApplied(d, stack, args);
    case Function(params, ret) => AllExpandableWellApplied(d, stack, params); ExpandableWellApplied(d, stack, ret);
    case Tuple(elems) => AllExpandableWellApplied(d, stack, elems);
    case Comptime(inner) => ExpandableWellApplied(d, stack, inner);
    case _ =>
  }

  lemma {:induction false} AllExpandableWellApplied(d: Aliases, stack: set<DefId>, ts: seq<Ty>)
    requires AllExpandable(d, stack, ts)
    ensures AllWellApplied(d, ts)
    decreases ts
  {
    if ts != [] {
      ExpandableWellApplied(d, stack, ts[0]);
      AllExpandableWellApplied(d, stack, ts[1..]);
    }
  }

  /** Along a path out of an expandable type no alias repeats, and each body is expandable. */
  lemma {:induction false} ExpandablePath(d: Aliases, stack: set<DefId>, t: Ty, path: seq<DefId>)
    requires Expandable(d, stack, t) && IsPath(d, path) && path != [] && path[0] in Uses(d, t)
    ensures forall i | 0 <= i < |path| :: path[i] !in stack
    ensures forall i, j | 0 <= i < j < |path| :: path[i] != path[j]
    ensures WellApplied(d, d[path[|path| - 1]].body)
    decreases |path|
  {
    var (a, rest) := (path[0], path[1..]);
    ExpandableUse(d, stack, t, a);
    if rest == [] {
      ExpandableWellApplied(d, stack + {a}, d[a].body);
    } else {
      assert Edge(d, path[0], path[1]);
      forall i | 0 <= i < |rest| - 1 ensures Edge(d, rest[i], rest[i + 1]) { assert Edge(d, path[i + 1], path[i + 2]); }
      ExpandablePath(d, stack + {a}, d[a].body, rest);
      forall i | 0 <= i < |path| ensures path[i] !in stack && (i > 0 ==> path[i] != a) {
        if i > 0 { assert path[i] == rest[i - 1]; }
      }
      forall i, j | 0 <= i < j < |path| ensures path[i] != path[j] {
        if i > 0 { assert rest[i - 1] != rest[j - 1]; }
      }
    }
  }

  lemma PathJoin(d: Aliases, p: seq<DefId>, q: seq<DefId>)
    requires IsPath(d, p) && IsPath(d, q) && p != [] && q != [] && p[|p| - 1] == q[0]
    ensures IsPath(d, p + q[1..])
  {
    var r := p + q[1..];
    forall i | 0 <= i < |r| - 1 ensures Edge(d, r[i], r[i + 1]) {
      if i < |p| - 1 {
        assert Edge(d, p[i], p[i + 1]);
      } else {
        var k := i - (|p| - 1);
        assert r[i] == q[k] && r[i + 1] == q[k + 1];
        assert Edge(d, q[k], q[k + 1]);
      }
    }
  }

  lemma ExpandableIsFine(d: Aliases, stack: set<DefId>, t: Ty)
    requires Expandable(d, stack, t)
    ensures AllReachableFine(d, t)
  {
    ExpandableWellApplied(d, stack, t);
    forall a | Reaches(d, t, a) ensures WellApplied(d, d[a].body) && !Cyclic(d, a) {
      var p :| IsPath(d, p) && p != [] && p[0] in Uses(d, t) && p[|p| - 1] == a;
      ExpandablePath(d, stack, t, p);
      forall q | IsPath(d, q) && |q| >= 2 && q[0] == a ensures q[|q| - 1] != a {
        PathJoin(d, p, q);
        var r := p + q[1..];
        ExpandablePath(d, stack, t, r);
        assert r[|p| - 1] != r[|r| - 1];
      }
    }
  }

  /** What a type reaches through the aliases of `path`, which leads to it. */
  ghost predicate Below(d: Aliases, path: seq<DefId>, t: Ty) {
    IsPath(d, path) && (path != [] ==> Uses(d, t) <= Uses(d, d[path[|path| - 1]].body))
  }

  lemma ReachStep(d: Aliases, t: Ty, a: DefId, b: DefId)
    requires a in Uses(d, t) && a in d && Reaches(d, d[a].body, b)
    ensures Reaches(d, t, b)
  {
    var p :| IsPath(d, p) && p != [] && p[0] in Uses(d, d[a].body) && p[|p| - 1] == b;
    var q := [a] + p;
    forall i | 0 <= i < |q| - 1 ensures Edge(d, q[i], q[i + 1]) {
      if i > 0 { assert Edge(d, p[i - 1], p[i]); }
    }
    assert IsPath(d, q);
  }

  lemma UsesInDomain(d: Aliases, t: Ty)
    ensures Uses(d, t) <= d.Keys
    decreases t
  {
    match t
    case Named(_, args) => UsesAllInDomain(d, args);
    case Function(params, ret) => UsesAllInDomain(d, params); UsesInDomain(d, ret);
    case Tuple(elems) => UsesAllInDomain(d, elems);
    case Comptime(inner) => UsesInDomain(d, inner);
    case _ =>
  }

  lemma UsesAllInDomain(d: Aliases, ts: seq<Ty>)
    ensures UsesAll(d, ts) <= d.Keys
    decreases ts
  {
    if ts != [] { UsesInDomain(d, ts[0]); UsesAllInDomain(d, ts[1..]); }
  }

  lemma CycleOnPath(d: Aliases, path: seq<DefId>, t: Ty, a: DefId)
    requires Below(d, path, t) && a in Uses(d, t) && a in path
    ensures Cyclic(d, a)
  {
    UsesInDomain(d, t);
    var i :| 0 <= i < |path| && path[i] == a;
    var q := path[i..] + [a];
    forall k | 0 <= k < |q| - 1 ensures Edge(d, q[k], q[k + 1]) {
      if k < |q| - 2 { assert Edge(d, path[i + k], path[i + k + 1]); }
    }
    assert IsPath(d, q);
  }

  lemma ReachSelf(d: Aliases, t: Ty, a: DefId)
    requires a in Uses(d, t)
    ensures Reaches(d, t, a)
  {
    UsesInDomain(d, t);
    assert IsPath(d, [a]);
  }

  lemma {:induction false} FineIsExpandable(d: Aliases, path: seq<DefId>, t: Ty)
    requires Below(d, path, t) && AllReachableFine(d, t)
    ensures Expandable(d, Elements(path), t)
    decreases Unvisited(d, Elements(path)), t
  {
    match t
    case Named(ctor, args) =>
      FineAreExpandable(d, path, t, args);
      if ctor.Alias? && ctor.def in d {
        var a := ctor.def;
        ReachSelf(d, t, a);
        if a in path { CycleOnPath(d, path, t, a); }
        UnvisitedDecreases(d, Elements(path), a);
        ElementsAppend(path, a);
        assert Below(d, path + [a], d[a].body) by { PathAppend(d, path, t, a); }
        forall b | Reaches(d, d[a].body, b)
          ensures WellApplied(d, d[b].body) && !Cyclic(d, b)
        {
          ReachStep(d, t, a, b);
        }
        FineIsExpandable(d, path + [a], d[a].body);
      }
    case Function(params, ret) =>
      FineAreExpandable(d, path, t, params);
      FineSub(d, t, ret);
      FineIsExpandable(d, path, ret);
    case Tuple(elems) => FineAreExpandable(d, path, t, elems);
    case Comptime(inner) =>
      FineSub(d, t, inner);
      FineIsExpandable(d, path, inner);
    case _ =>
  }

  lemma PathAppend(d: Aliases, path: seq<DefId>, t: Ty, a: DefId)
    requires Below(d, path, t) && a in Uses(d, t) && a in d
    ensures IsPath(d, path + [a])
  {
    var q := path + [a];
    forall k | 0 <= k < |q| - 1 ensures Edge(d, q[k], q[k + 1]) {
      if k < |path| - 1 { assert Edge(d, path[k], path[k + 1]); }
    }
  }

  lemma FineSub(d: Aliases, t: Ty, part: Ty)
    requires AllReachableFine(d, t) && Uses(d, part) <= Uses(d, t) && WellApplied(d, part)
    ensures AllReachableFine(d, part)
  {
    forall a | Reaches(d, part, a) ensures Reaches(d, t, a) {
      var p :| IsPath(d, p) && p != [] && p[0] in Uses(d, part) && p[|p| - 1] == a;
      assert p[0] in Uses(d, t);
    }
  }

  lemma {:induction false} FineAreExpandable(d: Aliases, path: seq<DefId>, t: Ty, ts: seq<Ty>)
    requires Below(d, path, t) && AllReachableFine(d, t)
    requires UsesAll(d, ts) <= Uses(d, t) && AllWellApplied(d, ts) && forall x | x in ts :: x < t
    ensures AllExpandable(d, Elements(path), ts)
    decreases Unvisited(d, Elements(path)), t, |ts|
  {
    if ts != [] {
      assert ts[0] in ts;
      forall x | x in ts[1..] ensures x < t { assert x in ts; }
      FineSub(d, t, ts[0]);
      FineIsExpandable(d, path, ts[0]);
      FineAreExpandable(d, path, t, ts[1..]);
    }
  }

  // ----- the witnesses of the errors -----

  /** The type applies the alias to `n` arguments somewhere. */
  predicate Applies(t: Ty, a: DefId, n: nat)
    decreases t
  {
    match t
    case Named(ctor, args) => (ctor == Alias(a) && |args| == n) || SomeApplies(args, a, n)
    case Function(params, ret) => SomeApplies(params, a, n) || Applies(ret, a, n)
    case Tuple(elems) => SomeApplies(elems, a, n)
    case Comptime(inner) => Applies(inner, a, n)
    case _ => false
  }

  predicate SomeApplies(ts: seq<Ty>, a: DefId, n: nat)
    decreases ts
  {
    ts != [] && (Applies(ts[0], a, n) || SomeApplies(ts[1..], a, n))
  }

  /** The application stands in the type itself, or in the body of an alias that the type reaches. */
  ghost predicate AppliedBelow(d: Aliases, root: Ty, a: DefId, n: nat) {
    Applies(root, a, n) || exists b :: Reaches(d, root, b) && b in d && Applies(d[b].body, a, n)
  }

  /**
   What an error about a type has to show for itself: an alias that the type reaches and that reaches itself, or an
   application of an alias, in the type or in what it reaches, to the wrong number of arguments.
   */
  ghost predicate Witness(d: Aliases, root: Ty, e: AliasError) {
    match e
    case Cycle(a) => Reaches(d, root, a) && Cyclic(d, a)
    case Arity(a, expected, actual) =>
      a in d && d[a].arity == expected && expected != actual && AppliedBelow(d, root, a, actual)
    case ExpansionLimit(_, limit) => limit == 16384
  }

  ghost predicate Witnessed(d: Aliases, root: Ty, errors: seq<AliasError>) {
    forall e | e in errors :: Witness(d, root, e)
  }

  /** What the type uses and applies is used and applied by the root, or by what the root reaches. */
  ghost predicate From(d: Aliases, root: Ty, t: Ty) {
    && (forall a | a in Uses(d, t) :: Reaches(d, root, a))
    && (forall a, n | a in d && Applies(t, a, n) :: AppliedBelow(d, root, a, n))
  }

  ghost predicate AllFrom(d: Aliases, root: Ty, ts: seq<Ty>) {
    && (forall a | a in UsesAll(d, ts) :: Reaches(d, root, a))
    && (forall a, n | a in d && SomeApplies(ts, a, n) :: AppliedBelow(d, root, a, n))
  }

  lemma FromItself(d: Aliases, root: Ty)
    ensures From(d, root, root)
  {
    forall a | a in Uses(d, root)
      ensures Reaches(d, root, a)
    {
      ReachSelf(d, root, a);
    }
  }

  lemma {:induction false} NormalAppliesNone(d: Aliases, t: Ty, a: DefId, n: nat)
    requires Normal(d, t) && a in d
    ensures !Applies(t, a, n)
    decreases t
  {
    match t
    case Named(_, args) => NormalsApplyNone(d, args, a, n);
    case Function(params, ret) =>
      NormalsApplyNone(d, params, a, n);
      NormalAppliesNone(d, ret, a, n);
    case Tuple(elems) => NormalsApplyNone(d, elems, a, n);
    case Comptime(inner) => NormalAppliesNone(d, inner, a, n);
    case _ =>
  }

  lemma {:induction false} NormalsApplyNone(d: Aliases, ts: seq<Ty>, a: DefId, n: nat)
    requires AllNormal(d, ts) && a in d
    ensures !SomeApplies(ts, a, n)
    decreases ts
  {
    if ts != [] {
      NormalAppliesNone(d, ts[0], a, n);
      NormalsApplyNone(d, ts[1..], a, n);
    }
  }

  /** Substituting normal arguments adds no application of a resolvable alias and removes none. */
  lemma {:induction false} AppliesSubstitution(d: Aliases, t: Ty, args: seq<Ty>, a: DefId, n: nat)
    requires AllNormal(d, args) && a in d
    ensures Applies(FromAliasBody(t, args), a, n) <==> Applies(t, a, n)
    decreases t
  {
    match t
    case BoundVar(i) =>
      if i < |args| {
        AllNormalAt(d, args, i);
        NormalAppliesNone(d, args[i], a, n);
      }
    case Named(_, inner) => AppliesSubstitutions(d, inner, args, a, n);
    case Function(params, ret) =>
      AppliesSubstitutions(d, params, args, a, n);
      AppliesSubstitution(d, ret, args, a, n);
    case Tuple(elems) => AppliesSubstitutions(d, elems, args, a, n);
    case Comptime(inner) => AppliesSubstitution(d, inner, args, a, n);
    case _ =>
  }

  lemma {:induction false} AppliesSubstitutions(d: Aliases, ts: seq<Ty>, args: seq<Ty>, a: DefId, n: nat)
    requires AllNormal(d, args) && a in d
    ensures SomeApplies(FromAliasBodies(ts, args), a, n) <==> SomeApplies(ts, a, n)
    decreases ts
  {
    if ts != [] {
      AppliesSubstitution(d, ts[0], args, a, n);
      AppliesSubstitutions(d, ts[1..], args, a, n);
      assert FromAliasBodies(ts, args)[1..] == FromAliasBodies(ts[1..], args);
    }
  }

  lemma ReachOn(d: Aliases, t: Ty, a: DefId, b: DefId)
    requires Reaches(d, t, a) && a in d && b in Uses(d, d[a].body)
    ensures Reaches(d, t, b)
  {
    UsesInDomain(d, d[a].body);
    var p :| IsPath(d, p) && p != [] && p[0] in Uses(d, t) && p[|p| - 1] == a;
    var q := p + [b];
    forall i | 0 <= i < |q| - 1
      ensures Edge(d, q[i], q[i + 1])
    {
      if i < |p| - 1 {
        assert Edge(d, p[i], p[i + 1]);
      }
    }
    assert IsPath(d, q);
  }

  /** The expanded body of an alias that is reached is from the root too. */
  lemma FromBody(d: Aliases, root: Ty, a: DefId, args: seq<Ty>)
    requires Reaches(d, root, a) && a in d && AllNormal(d, args)
    ensures From(d, root, FromAliasBody(d[a].body, args))
  {
    UsesSubstitution(d, d[a].body, args);
    forall b | b in Uses(d, d[a].body)
      ensures Reaches(d, root, b)
    {
      ReachOn(d, root, a, b);
    }
    forall b, n | b in d && Applies(FromAliasBody(d[a].body, args), b, n)
      ensures AppliedBelow(d, root, b, n)
    {
      AppliesSubstitution(d, d[a].body, args, b, n);
    }
  }

  lemma {:induction false} UsesSubstitution(d: Aliases, t: Ty, args: seq<Ty>)
    requires AllNormal(d, args)
    ensures Uses(d, FromAliasBody(t, args)) == Uses(d, t)
    decreases t
  {
    match t
    case BoundVar(i) =>
      if i < |args| {
        AllNormalAt(d, args, i);
        NormalUses(d, args[i]);
      }
    case Named(_, inner) => UsesSubstitutions(d, inner, args);
    case Function(params, ret) => UsesSubstitutions(d, params, args); UsesSubstitution(d, ret, args);
    case Tuple(elems) => UsesSubstitutions(d, elems, args);
    case Comptime(inner) => UsesSubstitution(d, inner, args);
    case _ =>
  }

  lemma {:induction false} UsesSubstitutions(d: Aliases, ts: seq<Ty>, args: seq<Ty>)
    requires AllNormal(d, args)
    ensures UsesAll(d, FromAliasBodies(ts, args)) == UsesAll(d, ts)
    decreases ts
  {
    if ts != [] {
      UsesSubstitution(d, ts[0], args);
      UsesSubstitutions(d, ts[1..], args);
      assert FromAliasBodies(ts, args)[1..] == FromAliasBodies(ts[1..], args);
    }
  }

  lemma {:induction false} NormalUses(d: Aliases, t: Ty)
    requires Normal(d, t)
    ensures Uses(d, t) == {}
    decreases t
  {
    match t
    case Named(_, args) => NormalsUse(d, args);
    case Function(params, ret) => NormalsUse(d, params); NormalUses(d, ret);
    case Tuple(elems) => NormalsUse(d, elems);
    case Comptime(inner) => NormalUses(d, inner);
    case _ =>
  }

  lemma {:induction false} NormalsUse(d: Aliases, ts: seq<Ty>)
    requires AllNormal(d, ts)
    ensures UsesAll(d, ts) == {}
    decreases ts
  {
    if ts != [] {
      NormalUses(d, ts[0]);
      NormalsUse(d, ts[1..]);
    }
  }

  /** Every error of a step has a witness in the type that the whole normalisation started from. */
  lemma {:induction false} ErrorsAreWitnessed(d: Aliases, root: Ty, st: State, t: Ty)
    requires Below(d, st.expanding, t) && From(d, root, t) && Witnessed(d, root, st.errors)
    ensures Witnessed(d, root, Normalize(d, st, t).0.errors)
    decreases st.remaining, 0
  {
    if st.remaining > 0 {
      var st1 := st.(remaining := st.remaining - 1);
      match t
      case Named(ctor, args) =>
        AllErrorsAreWitnessed(d, root, st1, t, args);
        ResultsAreNormal(d, st1, args);
        var (st2, args') := NormalizeAll(d, st1, args);
        if ctor.Alias? {
          assert Applies(t, ctor.def, |args|);
          ExpandIsWitnessed(d, root, st2, t, ctor.def, args');
        }
      case Function(params, ret) =>
        AllErrorsAreWitnessed(d, root, st1, t, params);
        ErrorsAreWitnessed(d, root, NormalizeAll(d, st1, params).0, ret);
      case Tuple(elems) => AllErrorsAreWitnessed(d, root, st1, t, elems);
      case Comptime(inner) => ErrorsAreWitnessed(d, root, st1, inner);
      case _ =>
    }
  }

  lemma {:induction false} AllErrorsAreWitnessed(d: Aliases, root: Ty, st: State, t: Ty, ts: seq<Ty>)
    requires Below(d, st.expanding, t) && UsesAll(d, ts) <= Uses(d, t) && Witnessed(d, root, st.errors)
    requires AllFrom(d, root, ts)
    ensures Witnessed(d, root, NormalizeAll(d, st, ts).0.errors)
    decreases st.remaining, |ts|
  {
    if ts != [] {
      ErrorsAreWitnessed(d, root, st, ts[0]);
      AllErrorsAreWitnessed(d, root, Normalize(d, st, ts[0]).0, t, ts[1..]);
    }
  }

  lemma {:induction false} ExpandIsWitnessed(d: Aliases, root: Ty, st: State, t: Ty, def: DefId, args: seq<Ty>)
    requires Below(d, st.expanding, t) && From(d, root, t) && Witnessed(d, root, st.errors) && AllNormal(d, args)
    requires (def in d ==> def in Uses(d, t)) && Applies(t, def, |args|)
    ensures Witnessed(d, root, Expand(d, st, def, args).0.errors)
    decreases st.remaining, 1
  {
    if def in st.expanding {
      CycleOnPath(d, st.expanding, t, def);
    } else if def in d && d[def].arity == |args| {
      var st1 := st.(expanding := st.expanding + [def]);
      PathAppend(d, st.expanding, t, def);
      UsesSubstitution(d, d[def].body, args);
      FromBody(d, root, def, args);
      ErrorsAreWitnessed(d, root, st1, FromAliasBody(d[def].body, args));
    }
  }

  // ----- the theorems about one normalisation -----

  /**
   Without an error, the value is the full expansion of the type; it contains no resolvable alias, and normalising it
   again changes nothing and reports nothing.
   */
  lemma NormalizationPreservesMeaning(d: Aliases, t: Ty)
    requires Normalize(d, FRESH, t).0.errors == []
    ensures Expandable(d, {}, t)
    ensures var value := Normalize(d, FRESH, t).1;
      && value == Expansion(d, {}, t, [], false)
      && Normal(d, value)
      && Normalize(d, FRESH, value).1 == value && Normalize(d, FRESH, value).0.errors == []
  {
    var (st, value) := Normalize(d, FRESH, t);
    assert Elements(FRESH.expanding) == {};
    NormalizeSound(d, FRESH, t);
    ResultIsNormal(d, FRESH, t);
    assert CountLimits(st.errors) == 0;
    ResultFitsBudget(d, FRESH, t);
    NormalIsFixed(d, FRESH, value);
  }

  /**
   Unless the budget ran out, there is no error exactly when every alias that the type reaches is applied to the right
   number of arguments and is not defined in terms of itself.
   */
  lemma ErrorsAreExact(d: Aliases, t: Ty)
    requires !Normalize(d, FRESH, t).0.exhausted
    ensures Normalize(d, FRESH, t).0.errors == [] <==> AllReachableFine(d, t)
  {
    assert Elements(FRESH.expanding) == {};
    if Normalize(d, FRESH, t).0.errors == [] {
      NormalizeSound(d, FRESH, t);
      ExpandableIsFine(d, {}, t);
    }
    if AllReachableFine(d, t) {
      FineIsExpandable(d, [], t);
      assert Elements([]) == {};
      NormalizeComplete(d, FRESH, t);
    }
  }

  /** Every error has a witness in what the type reaches, and the budget is reported at most once. */
  lemma ErrorsHaveWitnesses(d: Aliases, t: Ty)
    ensures Witnessed(d, t, Normalize(d, FRESH, t).0.errors)
    ensures CountLimits(Normalize(d, FRESH, t).0.errors) == if Normalize(d, FRESH, t).0.exhausted then 1 else 0
    ensures Normalize(d, FRESH, t).0.remaining <= NODE_BUDGET && Normalize(d, FRESH, t).0.expanding == []
  {
    FromItself(d, t);
    ErrorsAreWitnessed(d, t, FRESH, t);
  }

  // ----- the theorem about the declarations of a module -----

  /** The stack holds one alias and the type is its body. */
  function Rooted(a: DefId): State {
    State([a], [], NODE_BUDGET, false)
  }

  /** No declaration ran out of budget. */
  predicate NoLimit(errors: seq<AliasError>) {
    forall e | e in errors :: !e.ExpansionLimit?
  }

  lemma {:induction false} CountNoLimit(errors: seq<AliasError>)
    ensures CountLimits(errors) == 0 <==> NoLimit(errors)
    decreases errors
  {
    if errors != [] {
      var (front, last) := (errors[..|errors| - 1], errors[|errors| - 1]);
      CountNoLimit(front);
      assert errors == front + [last];
    }
  }

  lemma {:induction false} DeclarationErrorsAreExact(d: Aliases, a: DefId)
    requires a in d && NoLimit(Normalize(d, Rooted(a), d[a].body).0.errors)
    ensures Normalize(d, Rooted(a), d[a].body).0.errors == [] <==> AllReachableFine(d, d[a].body)
  {
    var st := Normalize(d, Rooted(a), d[a].body).0;
    CountNoLimit(st.errors);
    assert Elements([a]) == {a};
    if st.errors == [] {
      NormalizeSound(d, Rooted(a), d[a].body);
      ExpandableIsFine(d, {a}, d[a].body);
    }
    if AllReachableFine(d, d[a].body) {
      FineIsExpandable(d, [a], d[a].body);
      NormalizeComplete(d, Rooted(a), d[a].body);
    }
  }

  /** A self-recursive alias is among those that its own body reaches. */
  lemma FineIsAcyclic(d: Aliases, a: DefId)
    requires a in d && AllReachableFine(d, d[a].body)
    ensures !Cyclic(d, a)
  {
    forall p | IsPath(d, p) && |p| >= 2 && p[0] == a ensures p[|p| - 1] != a {
      var q := p[1..];
      assert Edge(d, p[0], p[1]);
      forall i | 0 <= i < |q| - 1 ensures Edge(d, q[i], q[i + 1]) { assert Edge(d, p[i + 1], p[i + 2]); }
      assert IsPath(d, q) && q[0] in Uses(d, d[a].body);
      assert Reaches(d, d[a].body, q[|q| - 1]);
    }
  }

  /** Without an exhausted budget, a module has no alias errors exactly when all its declarations are fine. */
  lemma {:induction false} ModuleErrorsAreExact(d: Aliases, order: seq<DefId>)
    requires (forall a | a in order :: a in d) && NoLimit(ModuleErrors(d, order))
    ensures ModuleErrors(d, order) == [] <==> forall a | a in order :: AllReachableFine(d, d[a].body) && !Cyclic(d, a)
    decreases order
  {
    if order != [] {
      var a := order[0];
      var errors := Normalize(d, Rooted(a), d[a].body).0.errors;
      assert forall e | e in errors :: e in ModuleErrors(d, order);
      DeclarationErrorsAreExact(d, a);
      if AllReachableFine(d, d[a].body) { FineIsAcyclic(d, a); }
      var rest := ModuleErrors(d, order[1..]);
      assert ModuleErrors(d, order) == errors + rest;
      assert forall e | e in rest :: e in ModuleErrors(d, order);
      ModuleErrorsAreExact(d, order[1..]);
      assert forall b | b in order :: b == a || b in order[1..];
    }
  }

  /** Each error has its witness in one of the declarations. */
  lemma {:induction false} ModuleErrorsAreWitnessed(d: Aliases, order: seq<DefId>)
    requires forall a | a in order :: a in d
    ensures forall e | e in ModuleErrors(d, order) :: exists a :: a in order && Witness(d, d[a].body, e)
    decreases order
  {
    if order != [] {
      var a := order[0];
      FromItself(d, d[a].body);
      ErrorsAreWitnessed(d, d[a].body, Rooted(a), d[a].body);
      ModuleErrorsAreWitnessed(d, order[1..]);
      forall e | e in ModuleErrors(d, order)
        ensures exists b :: b in order && Witness(d, d[b].body, e)
      {
        if e in Normalize(d, Rooted(a), d[a].body).0.errors {
          assert a in order && Witness(d, d[a].body, e);
        } else {
          assert e in ModuleErrors(d, order[1..]);
          var b :| b in order[1..] && Witness(d, d[b].body, e);
          assert b in order;
        }
      }
    }
  }

  /** The errors of the declarations in order, up to the first that runs out of budget. */
  function ModuleErrors(d: Aliases, order: seq<DefId>): seq<AliasError>
    requires forall a | a in order :: a in d
  {
    if order == [] then []
    else
      var errors := Normalize(d, Rooted(order[0]), d[order[0]].body).0.errors;
      if NoLimit(errors) then errors + ModuleErrors(d, order[1..]) else errors
  }

  /** The first occurrence of each error, in the order of their first occurrences. */
  method DedupErrors(errors: seq<AliasError>) returns (result: seq<AliasError>)
    ensures result == FirstUses(errors)
    ensures forall e :: e in result <==> e in errors
    ensures forall i, j :: 0 <= i < j < |result| ==> result[i] != result[j] && UsedBefore(errors, result[i], result[j])
  {
    var seen: set<AliasError> := {};
    result := [];
    for i := 0 to |errors|
      invariant result == FirstUses(errors[..i])
      invariant forall e :: e in seen <==> e in errors[..i]
    {
      assert errors[..i + 1][..i] == errors[..i];
      if errors[i] !in seen {
        seen := seen + {errors[i]};
        result := result + [errors[i]];
      }
    }
    assert errors[..|errors|] == errors;
    FirstUsesAreDistinct(errors);
    forall i, j | 0 <= i < j < |result|
      ensures UsedBefore(errors, result[i], result[j])
    {
      FirstUsesAreInOrder(errors, i, j);
    }
  }

  /** The errors of one declaration, normalised with the declaration itself on the stack. */
  method DeclarationErrors(d: Aliases, a: DefId) returns (errors: seq<AliasError>)
    requires a in d
    ensures errors == Normalize(d, Rooted(a), d[a].body).0.errors
  {
    var normalizer := new AliasNormalizer(d);
    normalizer.expanding := [a];
    var _ := normalizer.NormalizeTy(d[a].body);
    errors := normalizer.TakeErrors();
  }

  /** What is left to report from a declaration on, by what it reports itself. */
  lemma LeftToReport(d: Aliases, order: seq<DefId>, i: nat, before: seq<AliasError>, errors: seq<AliasError>)
    requires (forall a | a in order :: a in d) && i < |order|
    requires errors == Normalize(d, Rooted(order[i]), d[order[i]].body).0.errors
    ensures NoLimit(errors) ==>
      before + ModuleErrors(d, order[i..]) == before + errors + ModuleErrors(d, order[i + 1..])
    ensures !NoLimit(errors) ==> before + ModuleErrors(d, order[i..]) == before + errors
  {
    assert order[i..][1..] == order[i + 1..];
    var rest := ModuleErrors(d, order[i + 1..]);
    assert before + (errors + rest) == before + errors + rest;
  }

  lemma NothingLeft(d: Aliases, order: seq<DefId>, before: seq<AliasError>)
    requires forall a | a in order :: a in d
    ensures before + ModuleErrors(d, order[|order|..]) == before && order[0..] == order
    ensures [] + ModuleErrors(d, order) == ModuleErrors(d, order)
  {
  }

  /** `type_alias_normalization_errors`. */
  method TypeAliasNormalizationErrors(d: Aliases, order: seq<DefId>) returns (result: seq<AliasError>)
    requires forall a | a in order :: a in d
    ensures result == FirstUses(ModuleErrors(d, order))
  {
    var errors := AllErrors(d, order);
    result := DedupErrors(errors);
  }

  method AllErrors(d: Aliases, order: seq<DefId>) returns (errors: seq<AliasError>)
    requires forall a | a in order :: a in d
    ensures errors == ModuleErrors(d, order)
  {
    ghost var all := ModuleErrors(d, order);
    errors := [];
    NothingLeft(d, order, errors);
    for i := 0 to |order|
      invariant errors + ModuleErrors(d, order[i..]) == all
    {
      var aliasErrors := DeclarationErrors(d, order[i]);
      LeftToReport(d, order, i, errors, aliasErrors);
      errors := errors + aliasErrors;
      if !NoLimit(aliasErrors) {
        return;
      }
    }
    NothingLeft(d, order, errors);
  }

  /** No error is lost or invented by the deduplication, so the module is clean exactly when its declarations are. */
  lemma ModuleIsCleanExactly(d: Aliases, order: seq<DefId>)
    requires (forall a | a in order :: a in d) && NoLimit(FirstUses(ModuleErrors(d, order)))
    ensures FirstUses(ModuleErrors(d, order)) == [] <==>
      forall a | a in order :: AllReachableFine(d, d[a].body) && !Cyclic(d, a)
  {
    var errors := ModuleErrors(d, order);
    FirstUsesAreDistinct(errors);
    assert NoLimit(errors) by { forall e | e in errors ensures !e.ExpansionLimit? { assert e in FirstUses(errors); } }
    ModuleErrorsAreExact(d, order);
    if errors != [] { assert errors[0] in FirstUses(errors); }
  }
}
