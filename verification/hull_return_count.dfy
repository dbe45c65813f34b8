/** Exactly when `return_count` gives equal types the same number (crates/hull/src/check.rs:1158-1219). */
module HullReturnCount {
  import opened HullIr
  import opened HullTyping
  import opened HullTypes
  import opened HullEval

  // ----- which types equal some type that passes the test -----

  /** A type that matches the definitions and equals `t` can be written: its names can be referenced or looked into. */
  predicate Matchable(d: Defs, t: Ty) {
    match t
    case NamedRef(_) => true
    case Named(a, inner) => a in d || (!StripNamed(inner).NamedRef? && Matchable(d, StripNamed(inner)))
    case Product(l, r) => Matchable(d, l) && Matchable(d, r)
    case Sum(l, r) => Matchable(d, l) && Matchable(d, r)
    case _ => true
  }

  /** Such a type: defined names by reference. */
  function Counterpart(d: Defs, t: Ty): Ty
    requires Matchable(d, t)
  {
    match t
    case NamedRef(a) => if a in d then t else Named(a, Word)
    case Named(a, inner) => if a in d then NamedRef(a) else Counterpart(d, StripNamed(inner))
    case Product(l, r) => Product(Counterpart(d, l), Counterpart(d, r))
    case Sum(l, r) => Sum(Counterpart(d, l), Counterpart(d, r))
    case Function(params, ret) => Function(ByName(params), ByNameOne(ret))
    case _ => t
  }

  /** A type that `type_eq` accepts for `t`, matching or not; inside a function type nothing more is asked. */
  function ByNameOne(t: Ty): Ty {
    match t
    case Named(a, _) => NamedRef(a)
    case Product(l, r) => Product(ByNameOne(l), ByNameOne(r))
    case Sum(l, r) => Sum(ByNameOne(l), ByNameOne(r))
    case Function(params, ret) => Function(ByName(params), ByNameOne(ret))
    case _ => t
  }

  function ByName(ts: seq<Ty>): (r: seq<Ty>)
    ensures |r| == |ts|
  {
    if ts == [] then [] else [ByNameOne(ts[0])] + ByName(ts[1..])
  }

  lemma {:induction false} ByNameOneEqual(t: Ty)
    ensures TypeEq(ByNameOne(t), t)
    decreases t
  {
    match t
    case Product(l, r) =>
      ByNameOneEqual(l);
      ByNameOneEqual(r);
    case Sum(l, r) =>
      ByNameOneEqual(l);
      ByNameOneEqual(r);
    case Function(params, ret) =>
      ByNameEqual(params);
      ByNameOneEqual(ret);
    case _ =>
  }

  lemma {:induction false} ByNameEqual(ts: seq<Ty>)
    ensures TypesEq(ByName(ts), ts)
    decreases ts
  {
    if ts != [] {
      ByNameOneEqual(ts[0]);
      ByNameEqual(ts[1..]);
      assert ByName(ts)[1..] == ByName(ts[1..]);
    }
  }

  lemma {:induction false} CounterpartIsEqual(d: Defs, t: Ty)
    requires Matchable(d, t)
    ensures TypeEq(Counterpart(d, t), t) && Matching(d, Counterpart(d, t))
    ensures !t.NamedRef? && !t.Named? ==> !Counterpart(d, t).NamedRef? && !Counterpart(d, t).Named?
    decreases t
  {
    match t
    case Named(a, inner) =>
      if a !in d {
        CounterpartIsEqual(d, StripNamed(inner));
      }
    case Product(l, r) =>
      CounterpartIsEqual(d, l);
      CounterpartIsEqual(d, r);
    case Sum(l, r) =>
      CounterpartIsEqual(d, l);
      CounterpartIsEqual(d, r);
    case Function(params, ret) =>
      ByNameEqual(params);
      ByNameOneEqual(ret);
    case _ =>
  }

  /** What a matching type equals is matchable, so the predicate decides whether there is one. */
  lemma {:induction false} EqualIsMatchable(d: Defs, a: Ty, t: Ty)
    requires Matching(d, a) && TypeEq(a, t)
    ensures Matchable(d, t)
    decreases t
  {
    MatchingStrip(d, a);
    match t
    case Named(_, inner) =>
      if !a.NamedRef? {
        EqualIsMatchable(d, StripNamed(a), StripNamed(inner));
      }
    case Product(l, r) =>
      EqualIsMatchable(d, StripNamed(a).lhs, l);
      EqualIsMatchable(d, StripNamed(a).rhs, r);
    case Sum(l, r) =>
      EqualIsMatchable(d, StripNamed(a).lhs, l);
      EqualIsMatchable(d, StripNamed(a).rhs, r);
    case _ =>
  }

  ghost predicate MatchingEqual(d: Defs, a: Ty, t: Ty) {
    Matching(d, a) && TypeEq(a, t)
  }

  lemma MatchableExactly(d: Defs, t: Ty)
    ensures Matchable(d, t) <==> exists a :: MatchingEqual(d, a, t)
  {
    if Matchable(d, t) {
      CounterpartIsEqual(d, t);
      assert MatchingEqual(d, Counterpart(d, t), t);
    }
    if a :| MatchingEqual(d, a, t) {
      EqualIsMatchable(d, a, t);
    }
  }

  // ----- the counts -----

  /** Every definition that a use can be written for takes one slot, as a reference to it does. */
  ghost predicate DefsCountOne(d: Defs) {
    forall x :: x in d && Matchable(d, d[x]) ==> ReturnCount(d[x]) == 1
  }

  lemma {:induction false} CountOfStrip(t: Ty)
    ensures ReturnCount(StripNamed(t)) == ReturnCount(t)
    decreases t
  {
    if t.Named? {
      CountOfStrip(t.inner);
    }
  }

  /** A use of a defined name wraps a type that equals the definition, whose count is therefore one. */
  lemma DefOfUse(d: Defs, t: Ty)
    requires DefsMatch(d) && DefsCountOne(d) && Matching(d, t) && t.Named? && t.name in d
    ensures Matching(d, t.inner) && TypeEq(t.inner, d[t.name])
    ensures Matching(d, d[t.name]) && ReturnCount(d[t.name]) == 1
  {
    EqualIsMatchable(d, t.inner, d[t.name]);
  }

  /** What equals a type without slots has none. */
  lemma {:induction false} NoSlots(d: Defs, t: Ty, u: Ty)
    requires DefsMatch(d) && DefsCountOne(d) && Matching(d, t) && Matching(d, u) && TypeEq(t, u) && ReturnCount(t) == 0
    ensures ReturnCount(u) == 0
    decreases t
  {
    if t.Named? && u.NamedRef? {
      DefOfUse(d, t);
      NoSlots(d, t.inner, d[t.name]);
    } else {
      CountOfStrip(t);
      CountOfStrip(u);
      MatchingStrip(d, t);
      MatchingStrip(d, u);
      match (StripNamed(t), StripNamed(u))
      case (Product(tl, tr), Product(ul, ur)) =>
        NoSlots(d, tl, ul);
        NoSlots(d, tr, ur);
      case _ =>
    }
  }

  /** What equals a type of one slot has one. */
  lemma {:induction false} OneSlot(d: Defs, t: Ty, u: Ty)
    requires DefsMatch(d) && DefsCountOne(d) && Matching(d, t) && Matching(d, u) && TypeEq(t, u) && ReturnCount(u) == 1
    ensures ReturnCount(t) == 1
    decreases t
  {
    if t.Named? && u.NamedRef? {
      DefOfUse(d, t);
      OneSlot(d, t.inner, d[t.name]);
    } else if !t.NamedRef? {
      CountOfStrip(t);
      CountOfStrip(u);
      MatchingStrip(d, t);
      MatchingStrip(d, u);
      match (StripNamed(t), StripNamed(u))
      case (Product(tl, tr), Product(ul, ur)) =>
        TypeEqSymmetric(tl, ul);
        TypeEqSymmetric(tr, ur);
        if ReturnCount(ul) == 1 {
          OneSlot(d, tl, ul);
          NoSlots(d, ur, tr);
        } else {
          OneSlot(d, tr, ur);
          NoSlots(d, ul, tl);
        }
      case (Sum(tl, tr), Sum(ul, ur)) =>
        TypeEqSymmetric(tl, ul);
        TypeEqSymmetric(tr, ur);
        NoSlots(d, ul, tl);
        NoSlots(d, ur, tr);
      case _ =>
    }
  }

  lemma {:induction false} EqualTypesCountAlike(d: Defs, a: Ty, b: Ty)
    requires DefsMatch(d) && DefsCountOne(d) && Matching(d, a) && Matching(d, b) && TypeEq(a, b)
    ensures ReturnCount(a) == ReturnCount(b)
    decreases a
  {
    if a.Named? && b.NamedRef? {
      DefOfUse(d, a);
      OneSlot(d, a.inner, d[a.name]);
    } else if a.NamedRef? && b.Named? {
      DefOfUse(d, b);
      OneSlot(d, b.inner, d[b.name]);
    } else if !a.NamedRef? {
      CountOfStrip(a);
      CountOfStrip(b);
      MatchingStrip(d, a);
      MatchingStrip(d, b);
      match (StripNamed(a), StripNamed(b))
      case (Product(al, ar), Product(bl, br)) =>
        EqualTypesCountAlike(d, al, bl);
        EqualTypesCountAlike(d, ar, br);
      case (Sum(al, ar), Sum(bl, br)) =>
        EqualTypesCountAlike(d, al, bl);
        EqualTypesCountAlike(d, ar, br);
      case _ =>
    }
  }

  /** Equal types that match the definitions count the same. */
  ghost predicate CountsInvariant(d: Defs) {
    forall a, b :: Matching(d, a) && Matching(d, b) && TypeEq(a, b) ==> ReturnCount(a) == ReturnCount(b)
  }

  /** A definition of another count is told apart from a reference to it, or from a type that equals it. */
  lemma OtherCountBreaks(d: Defs, x: Name)
    requires DefsMatch(d) && x in d && Matchable(d, d[x]) && ReturnCount(d[x]) != 1
    ensures !CountsInvariant(d)
  {
    var t := Counterpart(d, d[x]);
    CounterpartIsEqual(d, d[x]);
    assert Matching(d, d[x]);
    var use := Named(x, t);
    assert Matching(d, use) && Matching(d, NamedRef(x)) && TypeEq(NamedRef(x), use);
    if ReturnCount(t) == 1 {
      assert ReturnCount(t) != ReturnCount(d[x]);
    } else {
      assert ReturnCount(NamedRef(x)) != ReturnCount(use);
    }
  }

  /** `return_count` is invariant exactly when every definition that can be matched takes one slot. */
  lemma ReturnCountInvariantExactly(d: Defs)
    requires DefsMatch(d)
    ensures CountsInvariant(d) <==> DefsCountOne(d)
  {
    if DefsCountOne(d) {
      forall a, b | Matching(d, a) && Matching(d, b) && TypeEq(a, b)
        ensures ReturnCount(a) == ReturnCount(b)
      {
        EqualTypesCountAlike(d, a, b);
      }
    } else {
      var x :| x in d && Matchable(d, d[x]) && ReturnCount(d[x]) != 1;
      OtherCountBreaks(d, x);
    }
  }

  /** For definitions that equal themselves the condition is on their counts alone. */
  lemma ReflexiveDefsCount(d: Defs)
    requires DefsMatch(d) && forall x | x in d :: NoWrappedRef(d[x])
    ensures CountsInvariant(d) <==> forall x | x in d :: ReturnCount(d[x]) == 1
  {
    forall x | x in d
      ensures Matchable(d, d[x])
    {
      TypeEqReflexive(d[x]);
      EqualIsMatchable(d, d[x], d[x]);
    }
    ReturnCountInvariantExactly(d);
  }

  // ----- types without references -----

  lemma {:induction false} RefFreeMatches(t: Ty)
    requires RefFree(t)
    ensures Matching(map[], t)
    decreases t
  {
    match t
    case Product(l, r) =>
      RefFreeMatches(l);
      RefFreeMatches(r);
    case Sum(l, r) =>
      RefFreeMatches(l);
      RefFreeMatches(r);
    case Named(_, inner) => RefFreeMatches(inner);
    case _ =>
  }

  /** Without references, equal types take the same number of stack slots. */
  lemma ReturnCountInvariant(a: Ty, b: Ty)
    requires RefFree(a) && RefFree(b) && TypeEq(a, b)
    ensures ReturnCount(a) == ReturnCount(b)
  {
    RefFreeMatches(a);
    RefFreeMatches(b);
    ReturnCountInvariantExactly(map[]);
  }

  /** With references it fails: the reference counts one, whatever its definition counts. */
  lemma ReturnCountSeesReferences()
    ensures exists a, b :: TypeEq(a, b) && ReturnCount(a) != ReturnCount(b)
  {
    var d: Defs := map["T" := Unit];
    ReturnCountInvariantExactly(d);
    assert "T" in d && Matchable(d, d["T"]) && ReturnCount(d["T"]) == 0;
    var a, b :| Matching(d, a) && Matching(d, b) && TypeEq(a, b) && ReturnCount(a) != ReturnCount(b);
  }

  // ----- what is counted -----

  /** The slots a value takes: one for a word, a boolean or the tag of a sum. */
  function Slots(v: Value): nat {
    match v
    case WordV(_) => 1
    case BoolV(_) => 1
    case UnitV => 0
    case PairV(a, b) => Slots(a) + Slots(b)
    case InlV(payload) => 1 + Slots(payload)
    case InrV(payload) => 1 + Slots(payload)
  }

  lemma {:induction false} SlotsAreCounted(d: Defs, n: nat, v: Value, t: Ty)
    requires RefFree(t) && HasTypeN(d, n, v, t)
    ensures Slots(v) <= ReturnCount(t)
    decreases t
  {
    match t
    case Product(l, r) =>
      SlotsAreCounted(d, n, v.fst, l);
      SlotsAreCounted(d, n, v.snd, r);
    case Sum(l, r) => SlotsAreCounted(d, n, v.payload, if v.InlV? then l else r);
    case Named(_, inner) => SlotsAreCounted(d, n, v, inner);
    case _ =>
  }

  /** A value of the type that takes the most slots. */
  function Widest(t: Ty): Value {
    match t
    case Bool => BoolV(true)
    case Unit => UnitV
    case Product(l, r) => PairV(Widest(l), Widest(r))
    case Sum(l, r) => if Slots(Widest(l)) >= Slots(Widest(r)) then InlV(Widest(l)) else InrV(Widest(r))
    case Named(_, inner) => Widest(inner)
    case _ => WordV(0)
  }

  lemma {:induction false} WidestIsCounted(d: Defs, t: Ty)
    requires RefFree(t) && !ContainsFunction(t)
    ensures HasTypeN(d, 0, Widest(t), t) && Slots(Widest(t)) == ReturnCount(t)
    decreases t
  {
    match t
    case Product(l, r) => WidestIsCounted(d, l); WidestIsCounted(d, r);
    case Sum(l, r) => WidestIsCounted(d, l); WidestIsCounted(d, r);
    case Named(_, inner) => WidestIsCounted(d, inner);
    case _ =>
  }

  /** Without references and functions: the most slots that a value of the type takes. */
  lemma ReturnCountIsWidest(d: Defs, t: Ty)
    requires RefFree(t) && !ContainsFunction(t)
    ensures forall v :: HasType(d, v, t) ==> Slots(v) <= ReturnCount(t)
    ensures exists v :: HasType(d, v, t) && Slots(v) == ReturnCount(t)
  {
    forall v | HasType(d, v, t)
      ensures Slots(v) <= ReturnCount(t)
    {
      var n: nat :| HasTypeN(d, n, v, t);
      SlotsAreCounted(d, n, v, t);
    }
    WidestIsCounted(d, t);
    assert HasType(d, Widest(t), t);
  }
}
