/** What types mean, and what `type_eq` decides about that meaning. */
module HullTypes {
  import opened HullIr
  import opened HullTyping
  import opened HullEval

  /** The definition that each type reference stands for. */
  type Defs = map<Name, Ty>

  /** Membership with at most `n` unfoldings of references. */
  ghost predicate HasTypeN(d: Defs, n: nat, v: Value, t: Ty)
    decreases n, t
  {
    match t
    case Word => v.WordV? && v.n < TWO_256
    case Bool => v.BoolV?
    case Unit => v.UnitV?
    case Product(l, r) => v.PairV? && HasTypeN(d, n, v.fst, l) && HasTypeN(d, n, v.snd, r)
    case Sum(l, r) => (v.InlV? && HasTypeN(d, n, v.payload, l)) || (v.InrV? && HasTypeN(d, n, v.payload, r))
    case Named(_, inner) => HasTypeN(d, n, v, inner)
    case NamedRef(a) => n > 0 && a in d && HasTypeN(d, n - 1, v, d[a])
    case Function(_, _) => false
  }

  ghost predicate HasType(d: Defs, v: Value, t: Ty) {
    exists n: nat :: HasTypeN(d, n, v, t)
  }

  ghost predicate SameValues(d: Defs, s: Ty, t: Ty) {
    forall v :: HasType(d, v, s) <==> HasType(d, v, t)
  }

  /**
   One meaning per referenced name: every reference in the type is defined, and a use of a defined name wraps a type
   with the values of the definition.
   */
  ghost predicate Coherent(d: Defs, t: Ty) {
    match t
    case Product(l, r) => Coherent(d, l) && Coherent(d, r)
    case Sum(l, r) => Coherent(d, l) && Coherent(d, r)
    case Named(a, inner) => Coherent(d, inner) && (a in d ==> SameValues(d, inner, d[a]))
    case NamedRef(a) => a in d
    case _ => true
  }

  /**
   The same, by a test on the types: a use of a defined name wraps a type that `type_eq` accepts for the definition.
   */
  predicate Matching(d: Defs, t: Ty) {
    match t
    case Product(l, r) => Matching(d, l) && Matching(d, r)
    case Sum(l, r) => Matching(d, l) && Matching(d, r)
    case Named(a, inner) => Matching(d, inner) && (a in d ==> TypeEq(inner, d[a]))
    case NamedRef(a) => a in d
    case _ => true
  }

  predicate DefsMatch(d: Defs) {
    forall a | a in d :: Matching(d, d[a])
  }

  lemma {:induction false} HasTypeMono(d: Defs, n: nat, m: nat, v: Value, t: Ty)
    requires n <= m && HasTypeN(d, n, v, t)
    ensures HasTypeN(d, m, v, t)
    decreases n, t
  {
    match t
    case Product(l, r) => HasTypeMono(d, n, m, v.fst, l); HasTypeMono(d, n, m, v.snd, r);
    case Sum(l, r) =>
      if v.InlV? { HasTypeMono(d, n, m, v.payload, l); } else { HasTypeMono(d, n, m, v.payload, r); }
    case Named(_, inner) => HasTypeMono(d, n, m, v, inner);
    case NamedRef(a) => HasTypeMono(d, n - 1, m - 1, v, d[a]);
    case _ =>
  }

  lemma HasTypePair(d: Defs, v1: Value, v2: Value, t1: Ty, t2: Ty)
    ensures HasType(d, PairV(v1, v2), Product(t1, t2)) <==> HasType(d, v1, t1) && HasType(d, v2, t2)
  {
    if HasType(d, PairV(v1, v2), Product(t1, t2)) {
      var n: nat :| HasTypeN(d, n, PairV(v1, v2), Product(t1, t2));
      assert HasTypeN(d, n, v1, t1) && HasTypeN(d, n, v2, t2);
    }
    if HasType(d, v1, t1) && HasType(d, v2, t2) {
      var n1: nat :| HasTypeN(d, n1, v1, t1);
      var n2: nat :| HasTypeN(d, n2, v2, t2);
      HasTypeMono(d, n1, n1 + n2, v1, t1);
      HasTypeMono(d, n2, n1 + n2, v2, t2);
      assert HasTypeN(d, n1 + n2, PairV(v1, v2), Product(t1, t2));
    }
  }

  lemma HasTypeInl(d: Defs, v: Value, l: Ty, r: Ty)
    ensures HasType(d, InlV(v), Sum(l, r)) <==> HasType(d, v, l)
  {
    if HasType(d, InlV(v), Sum(l, r)) {
      var n: nat :| HasTypeN(d, n, InlV(v), Sum(l, r));
      assert HasTypeN(d, n, v, l);
    }
    if HasType(d, v, l) {
      var n: nat :| HasTypeN(d, n, v, l);
      assert HasTypeN(d, n, InlV(v), Sum(l, r));
    }
  }

  lemma HasTypeInr(d: Defs, v: Value, l: Ty, r: Ty)
    ensures HasType(d, InrV(v), Sum(l, r)) <==> HasType(d, v, r)
  {
    if HasType(d, InrV(v), Sum(l, r)) {
      var n: nat :| HasTypeN(d, n, InrV(v), Sum(l, r));
      assert HasTypeN(d, n, v, r);
    }
    if HasType(d, v, r) {
      var n: nat :| HasTypeN(d, n, v, r);
      assert HasTypeN(d, n, InrV(v), Sum(l, r));
    }
  }

  lemma {:induction false} HasTypeStripN(d: Defs, n: nat, v: Value, t: Ty)
    ensures HasTypeN(d, n, v, t) == HasTypeN(d, n, v, StripNamed(t))
    decreases t
  {
    if t.Named? { HasTypeStripN(d, n, v, t.inner); }
  }

  /** Names around a type do not change its values. */
  lemma HasTypeStrip(d: Defs, v: Value, t: Ty)
    ensures HasType(d, v, t) <==> HasType(d, v, StripNamed(t))
  {
    if HasType(d, v, t) {
      var n: nat :| HasTypeN(d, n, v, t);
      HasTypeStripN(d, n, v, t);
    }
    if HasType(d, v, StripNamed(t)) {
      var n: nat :| HasTypeN(d, n, v, StripNamed(t));
      HasTypeStripN(d, n, v, t);
    }
  }

  lemma {:induction false} CoherentStrip(d: Defs, t: Ty)
    requires Coherent(d, t)
    ensures Coherent(d, StripNamed(t))
    decreases t
  {
    if t.Named? { CoherentStrip(d, t.inner); }
  }

  lemma {:induction false} MatchingStrip(d: Defs, t: Ty)
    requires Matching(d, t)
    ensures Matching(d, StripNamed(t))
    decreases t
  {
    if t.Named? { MatchingStrip(d, t.inner); }
  }

  lemma {:induction false} TypeEqSymmetric(a: Ty, b: Ty)
    requires TypeEq(a, b)
    ensures TypeEq(b, a)
    decreases a
  {
    if !((a.NamedRef? && (b.NamedRef? || b.Named?)) || (a.Named? && b.NamedRef?)) {
      match (StripNamed(a), StripNamed(b))
      case (Product(al, ar), Product(bl, br)) => TypeEqSymmetric(al, bl); TypeEqSymmetric(ar, br);
      case (Sum(al, ar), Sum(bl, br)) => TypeEqSymmetric(al, bl); TypeEqSymmetric(ar, br);
      case (Function(ap, ar), Function(bp, br)) => TypesEqSymmetric(ap, bp); TypeEqSymmetric(ar, br);
      case _ =>
    }
  }

  lemma {:induction false} TypesEqSymmetric(a: seq<Ty>, b: seq<Ty>)
    requires TypesEq(a, b)
    ensures TypesEq(b, a)
    decreases a
  {
    if a != [] {
      TypeEqSymmetric(a[0], b[0]);
      TypesEqSymmetric(a[1..], b[1..]);
    }
  }

  /** A reference has the values of its definition. */
  lemma HasTypeRef(d: Defs, v: Value, a: Name)
    requires a in d
    ensures HasType(d, v, NamedRef(a)) <==> HasType(d, v, d[a])
  {
    if HasType(d, v, NamedRef(a)) {
      var n: nat :| HasTypeN(d, n, v, NamedRef(a));
      assert HasTypeN(d, n - 1, v, d[a]);
    }
    if n: nat :| HasTypeN(d, n, v, d[a]) {
      assert HasTypeN(d, n + 1, v, NamedRef(a));
    }
  }

  /** A use of a defined name has the values of a reference to it. */
  lemma UseHasTypeRef(d: Defs, v: Value, t: Ty)
    requires Coherent(d, t) && t.Named? && t.name in d
    ensures HasType(d, v, t) <==> HasType(d, v, NamedRef(t.name))
  {
    HasTypeRef(d, v, t.name);
    HasTypeStrip(d, v, t);
    HasTypeStrip(d, v, t.inner);
    assert SameValues(d, t.inner, d[t.name]);
  }

  /** `type_eq` is sound: equal types have the same values. */
  lemma {:induction false} TypeEqSound(d: Defs, v: Value, a: Ty, b: Ty)
    requires Coherent(d, a) && Coherent(d, b) && TypeEq(a, b)
    ensures HasType(d, v, a) <==> HasType(d, v, b)
    decreases a
  {
    if a.NamedRef? && b.Named? {
      UseHasTypeRef(d, v, b);
    } else if a.Named? && b.NamedRef? {
      UseHasTypeRef(d, v, a);
    } else if !a.NamedRef? {
      HasTypeStrip(d, v, a);
      HasTypeStrip(d, v, b);
      CoherentStrip(d, a);
      CoherentStrip(d, b);
      PartsSound(d, v, StripNamed(a), StripNamed(b));
    }
  }

  lemma {:induction false} PartsSound(d: Defs, v: Value, a: Ty, b: Ty)
    requires Coherent(d, a) && Coherent(d, b) && TypeEq(a, b) && !a.Named? && !a.NamedRef? && !b.Named? && !b.NamedRef?
    ensures HasType(d, v, a) <==> HasType(d, v, b)
    decreases a, 0
  {
    match (a, b)
    case (Product(al, ar), Product(bl, br)) =>
      if v.PairV? {
        TypeEqSound(d, v.fst, al, bl);
        TypeEqSound(d, v.snd, ar, br);
        HasTypePair(d, v.fst, v.snd, al, ar);
        HasTypePair(d, v.fst, v.snd, bl, br);
      }
    case (Sum(al, ar), Sum(bl, br)) =>
      if v.InlV? {
        TypeEqSound(d, v.payload, al, bl);
        HasTypeInl(d, v.payload, al, ar);
        HasTypeInl(d, v.payload, bl, br);
      } else if v.InrV? {
        TypeEqSound(d, v.payload, ar, br);
        HasTypeInr(d, v.payload, al, ar);
        HasTypeInr(d, v.payload, bl, br);
      }
    case _ =>
  }

  // ----- the test is enough -----

  lemma {:induction false} MatchingSoundN(d: Defs, n: nat, v: Value, a: Ty, b: Ty)
    requires DefsMatch(d) && Matching(d, a) && Matching(d, b)
    requires TypeEq(a, b) && HasTypeN(d, n, v, a)
    ensures HasType(d, v, b)
    decreases n, a
  {
    if a.NamedRef? && b.NamedRef? {
      assert a == b;
    } else if a.NamedRef? && b.Named? {
      TypeEqSymmetric(b.inner, d[a.name]);
      MatchingSoundN(d, n - 1, v, d[a.name], b.inner);
      HasTypeStrip(d, v, b);
      HasTypeStrip(d, v, b.inner);
    } else if a.Named? && b.NamedRef? {
      MatchingSoundN(d, n, v, a.inner, d[b.name]);
      var m: nat :| HasTypeN(d, m, v, d[b.name]);
      assert HasTypeN(d, m + 1, v, b);
    } else {
      var (s, t) := (StripNamed(a), StripNamed(b));
      HasTypeStripN(d, n, v, a);
      MatchingStrip(d, a);
      MatchingStrip(d, b);
      HasTypeStrip(d, v, b);
      match (s, t)
      case (Product(al, ar), Product(bl, br)) =>
        MatchingSoundN(d, n, v.fst, al, bl);
        MatchingSoundN(d, n, v.snd, ar, br);
        HasTypePair(d, v.fst, v.snd, bl, br);
      case (Sum(al, ar), Sum(bl, br)) =>
        if v.InlV? {
          MatchingSoundN(d, n, v.payload, al, bl);
          HasTypeInl(d, v.payload, bl, br);
        } else {
          MatchingSoundN(d, n, v.payload, ar, br);
          HasTypeInr(d, v.payload, bl, br);
        }
      case _ =>
    }
  }

  lemma MatchingSound(d: Defs, a: Ty, b: Ty)
    requires DefsMatch(d) && Matching(d, a) && Matching(d, b) && TypeEq(a, b)
    ensures SameValues(d, a, b)
  {
    TypeEqSymmetric(a, b);
    forall v
      ensures HasType(d, v, a) <==> HasType(d, v, b)
    {
      if n: nat :| HasTypeN(d, n, v, a) {
        MatchingSoundN(d, n, v, a, b);
      }
      if n: nat :| HasTypeN(d, n, v, b) {
        MatchingSoundN(d, n, v, b, a);
      }
    }
  }

  /** Types that pass the test against definitions that pass it are coherent. */
  lemma {:induction false} MatchingIsCoherent(d: Defs, t: Ty)
    requires DefsMatch(d) && Matching(d, t)
    ensures Coherent(d, t)
    decreases t
  {
    match t
    case Product(l, r) =>
      MatchingIsCoherent(d, l);
      MatchingIsCoherent(d, r);
    case Sum(l, r) =>
      MatchingIsCoherent(d, l);
      MatchingIsCoherent(d, r);
    case Named(a, inner) =>
      MatchingIsCoherent(d, inner);
      if a in d {
        MatchingSound(d, inner, d[a]);
      }
    case _ =>
  }

  // ----- what type_eq decides on types without references -----

  predicate RefFree(t: Ty) {
    match t
    case Product(l, r) => RefFree(l) && RefFree(r)
    case Sum(l, r) => RefFree(l) && RefFree(r)
    case Named(_, inner) => RefFree(inner)
    case NamedRef(_) => false
    case Function(params, ret) => (forall p | p in params :: RefFree(p)) && RefFree(ret)
    case _ => true
  }

  /** The type with all names removed. */
  function Erase(t: Ty): Ty {
    match t
    case Product(l, r) => Product(Erase(l), Erase(r))
    case Sum(l, r) => Sum(Erase(l), Erase(r))
    case Named(_, inner) => Erase(inner)
    case Function(params, ret) => Function(EraseAll(params), Erase(ret))
    case _ => t
  }

  function EraseAll(ts: seq<Ty>): (r: seq<Ty>)
    ensures |r| == |ts|
  {
    if ts == [] then [] else [Erase(ts[0])] + EraseAll(ts[1..])
  }

  lemma {:induction false} EraseStrip(t: Ty)
    ensures Erase(StripNamed(t)) == Erase(t)
    ensures RefFree(t) ==> RefFree(StripNamed(t))
    decreases t
  {
    if t.Named? { EraseStrip(t.inner); }
  }

  /** Without references `type_eq` is equality up to names, hence an equivalence. */
  lemma {:induction false} TypeEqIsErasedEquality(a: Ty, b: Ty)
    requires RefFree(a) && RefFree(b)
    ensures TypeEq(a, b) <==> Erase(a) == Erase(b)
    decreases a
  {
    EraseStrip(a);
    EraseStrip(b);
    match (StripNamed(a), StripNamed(b))
    case (Product(al, ar), Product(bl, br)) => TypeEqIsErasedEquality(al, bl); TypeEqIsErasedEquality(ar, br);
    case (Sum(al, ar), Sum(bl, br)) => TypeEqIsErasedEquality(al, bl); TypeEqIsErasedEquality(ar, br);
    case (Function(ap, ar), Function(bp, br)) => TypesEqIsErasedEquality(ap, bp); TypeEqIsErasedEquality(ar, br);
    case _ =>
  }

  lemma {:induction false} TypesEqIsErasedEquality(a: seq<Ty>, b: seq<Ty>)
    requires (forall p | p in a :: RefFree(p)) && (forall p | p in b :: RefFree(p))
    ensures TypesEq(a, b) <==> EraseAll(a) == EraseAll(b)
    decreases a
  {
    if |a| == |b| && a != [] {
      TypeEqIsErasedEquality(a[0], b[0]);
      TypesEqIsErasedEquality(a[1..], b[1..]);
      assert EraseAll(a)[0] == Erase(a[0]) && EraseAll(a)[1..] == EraseAll(a[1..]);
      assert EraseAll(b)[0] == Erase(b[0]) && EraseAll(b)[1..] == EraseAll(b[1..]);
    } else if |a| != |b| {
      assert |EraseAll(a)| != |EraseAll(b)|;
    }
  }

  /** No name wraps a bare reference, wherever `type_eq` looks. */
  predicate NoWrappedRef(t: Ty) {
    !(t.Named? && StripNamed(t).NamedRef?) &&
    match t
    case Product(l, r) => NoWrappedRef(l) && NoWrappedRef(r)
    case Sum(l, r) => NoWrappedRef(l) && NoWrappedRef(r)
    case Named(_, inner) => NoWrappedRef(inner)
    case Function(params, ret) => (forall p | p in params :: NoWrappedRef(p)) && NoWrappedRef(ret)
    case _ => true
  }

  lemma {:induction false} NoWrappedRefStrip(t: Ty)
    requires !StripNamed(t).NamedRef?
    ensures NoWrappedRef(t) <==> NoWrappedRef(StripNamed(t))
    decreases t
  {
    if t.Named? { NoWrappedRefStrip(t.inner); }
  }

  /** `type_eq` is reflexive exactly on the types in which no name wraps a bare reference. */
  lemma {:induction false} TypeEqReflexive(t: Ty)
    ensures TypeEq(t, t) <==> NoWrappedRef(t)
    decreases t
  {
    if !t.NamedRef? && !StripNamed(t).NamedRef? {
      NoWrappedRefStrip(t);
      match StripNamed(t)
      case Product(l, r) => TypeEqReflexive(l); TypeEqReflexive(r);
      case Sum(l, r) => TypeEqReflexive(l); TypeEqReflexive(r);
      case Function(params, ret) => TypesEqReflexive(params); TypeEqReflexive(ret);
      case _ =>
    }
  }

  lemma {:induction false} TypesEqReflexive(ts: seq<Ty>)
    ensures TypesEq(ts, ts) <==> forall t | t in ts :: NoWrappedRef(t)
    decreases ts
  {
    if ts != [] {
      TypeEqReflexive(ts[0]);
      TypesEqReflexive(ts[1..]);
    }
  }
}
