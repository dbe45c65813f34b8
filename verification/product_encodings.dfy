/** How a list of types, expressions or patterns becomes a right-nested pair, and how fields are read back. */
module ProductEncodings {
  import opened Wrappers

  // ----- lowered types -----

  /** A type after lowering; only what matters for products is told apart. */
  datatype Ty =
    | Unit
    | Pair(head: Ty, tail: Ty)
    | Tuple(elems: seq<Ty>)
    | Other(name: string)

  function ProductTy(elems: seq<Ty>): Ty {
    if elems == [] then Unit else if |elems| == 1 then elems[0] else Pair(elems[0], ProductTy(elems[1..]))
  }

  /** The heads along the tail of a pair, and what ends it. */
  function TailParams(ty: Ty): (r: seq<Ty>)
    ensures r != []
  {
    if ty.Pair? then [ty.head] + TailParams(ty.tail) else [ty]
  }

  method PushProductTailParams(ty: Ty, out: seq<Ty>) returns (r: seq<Ty>)
    ensures r == out + TailParams(ty)
  {
    if ty.Pair? {
      r := PushProductTailParams(ty.tail, out + [ty.head]);
    } else {
      r := out + [ty];
    }
  }

  function Params(ty: Ty): seq<Ty> {
    match ty
    case Tuple(elems) => elems
    case Unit => []
    case Pair(_, _) => TailParams(ty)
    case Other(_) => [ty]
  }

  /** The parameters, those past the arity taken together again. */
  function TupleParams(ty: Ty, arity: nat): seq<Ty> {
    var params := Params(ty);
    if arity > 0 && |params| > arity then params[..arity - 1] + [ProductTy(params[arity - 1..])] else params
  }

  method TupleParamsInPlace(ty: Ty, arity: nat) returns (params: seq<Ty>)
    ensures params == TupleParams(ty, arity)
  {
    match ty {
      case Tuple(elems) => params := elems;
      case Unit => params := [];
      case Pair(head, tail) => params := PushProductTailParams(tail, [head]);
      case Other(_) => params := [ty];
    }
    if arity > 0 && |params| > arity {
      var tail := params[arity - 1..];
      params := params[..arity - 1] + [ProductTy(tail)];
    }
  }

  /** The parameters of a constructor: the list of that many types whose product its fields are. */
  method CtorParams(fields: Ty, fieldCount: nat) returns (params: seq<Ty>)
    ensures params == LoweredCtorParams(fields, fieldCount)
    ensures forall fs :: |fs| == fieldCount && ProductTy(fs) == fields ==> params == fs
  {
    forall fs | |fs| == fieldCount && ProductTy(fs) == fields
      ensures LoweredCtorParams(fields, fieldCount) == fs
    {
      CtorFieldsRoundTrip(fs);
    }
    if fieldCount == 0 {
      params := [];
    } else if fieldCount == 1 {
      params := [fields];
    } else {
      params := TupleParamsInPlace(fields, fieldCount);
    }
  }

  function LoweredCtorParams(fields: Ty, fieldCount: nat): seq<Ty> {
    if fieldCount == 0 then [] else if fieldCount == 1 then [fields] else TupleParams(fields, fieldCount)
  }

  /** Flattening all but the end of a pair and nesting it again changes nothing. */
  lemma {:induction false} NestFlattened(ty: Ty)
    ensures ProductTy(TailParams(ty)) == ty
  {
    if ty.Pair? {
      NestFlattened(ty.tail);
      assert TailParams(ty)[1..] == TailParams(ty.tail);
    }
  }

  lemma {:induction false} FlattenNested(fields: seq<Ty>)
    requires fields != []
    ensures TailParams(ProductTy(fields)) == fields[..|fields| - 1] + TailParams(fields[|fields| - 1])
  {
    if |fields| > 1 {
      FlattenNested(fields[1..]);
      assert fields == [fields[0]] + fields[1..];
      var n := |fields| - 1;
      assert fields[..n] == [fields[0]] + fields[1..][..n - 1];
    } else {
      assert fields[..0] == [];
    }
  }

  /** Two or more fields are read back from their product, whatever their own types. */
  lemma FieldsRoundTrip(fields: seq<Ty>)
    requires |fields| >= 2
    ensures TupleParams(ProductTy(fields), |fields|) == fields
  {
    FlattenNested(fields);
    var n := |fields| - 1;
    NestFlattened(fields[n]);
    assert Params(ProductTy(fields)) == TailParams(ProductTy(fields));
    LastTakenTogether(fields, TailParams(fields[n]), Params(ProductTy(fields)));
  }

  /** Parameters past the arity are those of the last field. */
  lemma LastTakenTogether(fields: seq<Ty>, last: seq<Ty>, params: seq<Ty>)
    requires fields != [] && last != [] && ProductTy(last) == fields[|fields| - 1]
    requires params == fields[..|fields| - 1] + last
    ensures fields ==
      if |params| > |fields| then params[..|fields| - 1] + [ProductTy(params[|fields| - 1..])] else params
  {
    var n := |fields| - 1;
    assert fields == fields[..n] + [fields[n]];
    assert params[..n] == fields[..n] && params[n..] == last;
    if |last| == 1 {
      assert ProductTy(last) == last[0];
    }
  }

  /** Every constructor gets its fields back. */
  lemma CtorFieldsRoundTrip(fields: seq<Ty>)
    ensures LoweredCtorParams(ProductTy(fields), |fields|) == fields
  {
    if |fields| >= 2 {
      FieldsRoundTrip(fields);
    }
  }

  lemma {:induction false} ElementIsSmaller(elems: seq<Ty>)
    requires |elems| == 1
    ensures elems[0] != Tuple(elems)
  {
  }

  /** One field goes through the flattening unharmed exactly when it is neither a tuple nor unit. */
  lemma OneFieldFlattened(field: Ty)
    ensures TupleParams(ProductTy([field]), 1) == [field] <==> !field.Tuple? && !field.Unit?
  {
    assert ProductTy([field]) == field;
    match field
    case Unit =>
    case Pair(_, _) =>
      NestFlattened(field);
      var params := TailParams(field);
      assert params[0..] == params;
    case Tuple(elems) =>
      if |elems| == 1 {
        ElementIsSmaller(elems);
        assert elems[0] != field;
      } else if |elems| > 1 {
        assert ProductTy(elems).Pair?;
        assert TupleParams(field, 1)[0] == ProductTy(elems[0..]) && elems[0..] == elems;
      }
    case Other(_) =>
  }

  // ----- shapes -----

  datatype ProductShape<T> = UnitShape | Single(elem: T) | PairShape(head: T, tail: ProductShape<T>)

  function FromSlice<T>(elems: seq<T>): ProductShape<T> {
    if elems == [] then UnitShape
    else if |elems| == 1 then Single(elems[0])
    else PairShape(elems[0], FromSlice(elems[1..]))
  }

  function Elements<T>(shape: ProductShape<T>): seq<T> {
    match shape
    case UnitShape => []
    case Single(elem) => [elem]
    case PairShape(head, tail) => [head] + Elements(tail)
  }

  function Length<T>(shape: ProductShape<T>): nat {
    match shape
    case UnitShape => 0
    case Single(_) => 1
    case PairShape(_, tail) => 1 + Length(tail)
  }

  function MapShape<T, U>(shape: ProductShape<T>, f: T -> U): ProductShape<U> {
    match shape
    case UnitShape => UnitShape
    case Single(elem) => Single(f(elem))
    case PairShape(head, tail) => PairShape(f(head), MapShape(tail, f))
  }

  method ExtendVec<T>(shape: ProductShape<T>, out: seq<T>) returns (r: seq<T>)
    ensures r == out + Elements(shape)
  {
    match shape {
      case UnitShape => r := out;
      case Single(elem) => r := out + [elem];
      case PairShape(head, tail) => r := ExtendVec(tail, out + [head]);
    }
  }

  /** No unit ends a pair; only such shapes are built from a list. */
  predicate Canonical<T>(shape: ProductShape<T>) {
    shape.PairShape? ==> !shape.tail.UnitShape? && Canonical(shape.tail)
  }

  /** A list goes into a shape and back, with its length, and under any map. */
  lemma {:induction false} ShapeRoundTrip<T, U>(elems: seq<T>, f: T -> U)
    ensures Elements(FromSlice(elems)) == elems && Length(FromSlice(elems)) == |elems|
    ensures Canonical(FromSlice(elems))
    ensures MapShape(FromSlice(elems), f) == FromSlice(seq(|elems|, i requires 0 <= i < |elems| => f(elems[i])))
  {
    var mapped := seq(|elems|, i requires 0 <= i < |elems| => f(elems[i]));
    if |elems| > 1 {
      var rest := elems[1..];
      ShapeRoundTrip(rest, f);
      assert elems == [elems[0]] + rest;
      assert mapped[1..] == seq(|rest|, i requires 0 <= i < |rest| => f(rest[i]));
    }
  }

  /** Exactly the canonical shapes come back from their elements. */
  lemma {:induction false} CanonicalRoundTrip<T>(shape: ProductShape<T>)
    ensures FromSlice(Elements(shape)) == shape <==> Canonical(shape)
  {
    if shape.PairShape? {
      CanonicalRoundTrip(shape.tail);
      assert Elements(shape)[1..] == Elements(shape.tail);
      ElementsEmpty(shape.tail);
    }
  }

  lemma ElementsEmpty<T>(shape: ProductShape<T>)
    ensures Elements(shape) == [] <==> shape.UnitShape?
  {
  }

  // ----- generated syntax -----

  /** Tuple syntax around leaves, of types, expressions or patterns alike. */
  datatype Syntax<T> = Leaf(leaf: T) | TupleSyntax(elems: seq<Syntax<T>>)

  /** What it stands for: nested pairs of leaves. */
  datatype Product<T> = UnitProduct | Atom(atom: T) | PairProduct(first: Product<T>, second: Product<T>)

  /** A tuple of syntax stands for the shape of its elements. */
  function Denote<T>(s: Syntax<T>): Product<T> {
    match s
    case Leaf(leaf) => Atom(leaf)
    case TupleSyntax(elems) => DenoteAll(elems)
  }

  function DenoteAll<T>(elems: seq<Syntax<T>>): Product<T> {
    if elems == [] then UnitProduct
    else if |elems| == 1 then Denote(elems[0])
    else PairProduct(Denote(elems[0]), DenoteAll(elems[1..]))
  }

  function OfShape<T>(shape: ProductShape<T>): Product<T> {
    match shape
    case UnitShape => UnitProduct
    case Single(elem) => Atom(elem)
    case PairShape(head, tail) => PairProduct(Atom(head), OfShape(tail))
  }

  /** Nested tuples of two, as generated for types and expressions. */
  function Nested<T>(elems: seq<T>): Syntax<T> {
    if elems == [] then TupleSyntax([])
    else if |elems| == 1 then Leaf(elems[0])
    else TupleSyntax([Leaf(elems[0]), Nested(elems[1..])])
  }

  /** One flat tuple, as generated for patterns. */
  function Flat<T>(elems: seq<T>): Syntax<T> {
    if |elems| == 1 then Leaf(elems[0]) else TupleSyntax(Leaves(elems))
  }

  function Leaves<T>(elems: seq<T>): seq<Syntax<T>> {
    if elems == [] then [] else [Leaf(elems[0])] + Leaves(elems[1..])
  }

  lemma {:induction false} NestedDenotes<T>(elems: seq<T>)
    ensures Denote(Nested(elems)) == OfShape(FromSlice(elems))
  {
    if |elems| > 1 {
      NestedDenotes(elems[1..]);
      var pair := [Leaf(elems[0]), Nested(elems[1..])];
      assert pair[1..] == [Nested(elems[1..])];
      assert DenoteAll(pair) == PairProduct(Denote(pair[0]), DenoteAll(pair[1..]));
      assert DenoteAll([Nested(elems[1..])]) == Denote(Nested(elems[1..]));
    }
  }

  lemma {:induction false} LeavesDenote<T>(elems: seq<T>)
    ensures |Leaves(elems)| == |elems| && DenoteAll(Leaves(elems)) == OfShape(FromSlice(elems))
  {
    if elems != [] {
      LeavesDenote(elems[1..]);
      assert Leaves(elems)[1..] == Leaves(elems[1..]);
    }
  }

  /** The nested and the flat syntax and the shape of a list stand for the same product. */
  lemma EncodersAgree<T>(elems: seq<T>)
    ensures Denote(Nested(elems)) == Denote(Flat(elems)) == OfShape(FromSlice(elems))
  {
    NestedDenotes(elems);
    LeavesDenote(elems);
  }

  // ----- lowered tuples -----

  /** How tuple syntax of types is lowered: the elements first, and then their product. */
  function LowerSyntax(s: Syntax<Ty>): Ty {
    match s
    case Leaf(leaf) => leaf
    case TupleSyntax(elems) => ProductTy(LowerAll(elems))
  }

  function LowerAll(elems: seq<Syntax<Ty>>): (r: seq<Ty>)
    ensures |r| == |elems|
  {
    if elems == [] then [] else [LowerSyntax(elems[0])] + LowerAll(elems[1..])
  }

  /** A product of types as a lowered type. */
  function TyOfProduct(p: Product<Ty>): Ty {
    match p
    case UnitProduct => Unit
    case Atom(atom) => atom
    case PairProduct(first, second) => Pair(TyOfProduct(first), TyOfProduct(second))
  }

  lemma {:induction false} LoweringDenotes(s: Syntax<Ty>)
    ensures LowerSyntax(s) == TyOfProduct(Denote(s))
    decreases s
  {
    if s.TupleSyntax? {
      LoweringDenotesAll(s.elems);
    }
  }

  lemma {:induction false} LoweringDenotesAll(elems: seq<Syntax<Ty>>)
    ensures ProductTy(LowerAll(elems)) == TyOfProduct(DenoteAll(elems))
    decreases elems
  {
    if elems != [] {
      LoweringDenotes(elems[0]);
      LoweringDenotesAll(elems[1..]);
      assert LowerAll(elems)[1..] == LowerAll(elems[1..]);
    }
  }

  /** Lowering the nested syntax that is generated for types, or the flat one, gives the product of the types. */
  lemma LoweredEncodersAgree(elems: seq<Ty>)
    ensures LowerSyntax(Nested(elems)) == LowerSyntax(Flat(elems)) == ProductTy(elems)
  {
    EncodersAgree(elems);
    LoweringDenotes(Nested(elems));
    LoweringDenotes(Flat(elems));
    ShapeLowers(elems);
  }

  lemma {:induction false} ShapeLowers(elems: seq<Ty>)
    ensures TyOfProduct(OfShape(FromSlice(elems))) == ProductTy(elems)
  {
    if |elems| > 1 {
      ShapeLowers(elems[1..]);
    }
  }

  // ----- matching -----

  /** Matching a value against a pattern of names; leaves of the pattern take whatever is there. */
  function Match<N, V>(pattern: Product<N>, value: Product<V>): Option<seq<(N, Product<V>)>> {
    match pattern
    case UnitProduct => if value.UnitProduct? then Some([]) else None
    case Atom(name) => Some([(name, value)])
    case PairProduct(p, q) =>
      if !value.PairProduct? then None
      else
        var a, b := Match(p, value.first), Match(q, value.second);
        if a.None? || b.None? then None else Some(a.value + b.value)
  }

  /** The product of values that may be products themselves. */
  function ProductOf<V>(values: seq<Product<V>>): Product<V> {
    if values == [] then UnitProduct
    else if |values| == 1 then values[0]
    else PairProduct(values[0], ProductOf(values[1..]))
  }

  function Zip<N, V>(names: seq<N>, values: seq<Product<V>>): seq<(N, Product<V>)>
    requires |names| == |values|
  {
    if names == [] then [] else [(names[0], values[0])] + Zip(names[1..], values[1..])
  }

  lemma {:induction false} ShapeMatches<N, V>(names: seq<N>, values: seq<Product<V>>)
    requires |names| == |values|
    ensures Match(OfShape(FromSlice(names)), ProductOf(values)) == Some(Zip(names, values))
  {
    if |names| == 1 {
      assert Zip(names[1..], values[1..]) == [];
      assert [(names[0], values[0])] + [] == [(names[0], values[0])];
    } else if |names| > 1 {
      ShapeMatches(names[1..], values[1..]);
    }
  }

  /** The flat pattern takes a product of arguments apart into exactly those arguments, products among them included. */
  lemma PatternsDestructure<N, V>(names: seq<N>, values: seq<Product<V>>)
    requires |names| == |values|
    ensures Match(Denote(Flat(names)), ProductOf(values)) == Some(Zip(names, values))
  {
    EncodersAgree(names);
    ShapeMatches(names, values);
  }
}
