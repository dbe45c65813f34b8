/** The names of the types that contract dispatch generates, one for each public method of each contract of a module. */
module DispatchNames {
  import opened Wrappers
  import opened Sequences
  import WordLiterals

  const PREFIX: string := "DispatchNameTy_"

  function Readable(contract: string, m: string): string {
    PREFIX + contract + "_" + m
  }

  /** The lengths are added when the boundary between the two names could be mistaken. */
  function NameTypeName(contract: string, m: string): string {
    if '_' in contract || '_' in m then
      Readable(contract, m) + "__" + WordLiterals.Decimal(|contract|) + "_" + WordLiterals.Decimal(|m|)
    else Readable(contract, m)
  }

  // ----- reading a name back -----

  /** The text before the last underscore, and the text behind it. */
  function CutLast(s: string): Option<(string, string)> {
    if s == "" then None
    else
      var n := |s| - 1;
      if s[n] == '_' then Some((s[..n], ""))
      else
        match CutLast(s[..n])
        case None => None
        case Some(parts) => Some((parts.0, parts.1 + [s[n]]))
  }

  /** The two names behind `DispatchNameTy_`: cut at the only underscore, or by the lengths at the end. */
  function ReadName(text: string): Option<(string, string)> {
    if |text| < 15 || text[..15] != "DispatchNameTy_" then None
    else
      match CutLast(text[15..])
      case None => None
      case Some((front, back)) =>
        if '_' !in front then Some((front, back)) else ReadSized(text[15..], front, back)
  }

  function ReadSized(names: string, front: string, back: string): Option<(string, string)> {
    match CutLast(front)
    case None => None
    case Some((_, middle)) =>
      match (WordLiterals.LiteralValue(middle), WordLiterals.LiteralValue(back))
      case (Some(c), Some(m)) =>
        if c + 1 + m <= |names| && names[c] == '_' then Some((names[..c], names[c + 1..c + 1 + m])) else None
      case _ => None
  }

  lemma {:induction false} DigitsHaveNoUnderscore(n: nat)
    ensures '_' !in WordLiterals.Digits(n)
  {
    if n > 0 {
      DigitsHaveNoUnderscore(n / 10);
    }
  }

  lemma {:induction false} LastUnderscoreCuts(x: string, a: string, s: string)
    requires '_' !in a && s == x + "_" + a
    ensures CutLast(s) == Some((x, a))
    decreases |a|
  {
    var n := |s| - 1;
    if a == "" {
      assert s[n] == '_' && s[..n] == x;
    } else {
      var front := a[..|a| - 1];
      assert a == front + [a[|a| - 1]];
      assert s[n] == a[|a| - 1] && s[n] in a && s[..n] == x + "_" + front;
      LastUnderscoreCuts(x, front, s[..n]);
    }
  }

  lemma BehindPrefix(contract: string, m: string, rest: string, text: string)
    requires text == Readable(contract, m) + rest
    ensures |text| >= 15 && text[..15] == "DispatchNameTy_" && text[15..] == contract + "_" + m + rest
  {
  }

  lemma PlainIsRead(contract: string, m: string)
    requires '_' !in contract && '_' !in m
    ensures ReadName(Readable(contract, m)) == Some((contract, m))
  {
    var text := Readable(contract, m);
    assert text == text + "";
    BehindPrefix(contract, m, "", text);
    assert contract + "_" + m + "" == contract + "_" + m;
    LastUnderscoreCuts(contract, m, text[15..]);
  }

  lemma CutBySizes(contract: string, m: string, rest: string, names: string)
    requires names == contract + ("_" + (m + rest))
    ensures |contract| + 1 + |m| <= |names| && names[|contract|] == '_'
    ensures names[..|contract|] == contract && names[|contract| + 1..|contract| + 1 + |m|] == m
  {
    assert names[|contract| + 1..] == m + rest;
  }

  lemma ReadBySizes(contract: string, m: string, rest: string, names: string, front: string, x: string, back: string)
    requires names == contract + ("_" + (m + rest))
    requires CutLast(front) == Some((x, WordLiterals.Decimal(|contract|))) && back == WordLiterals.Decimal(|m|)
    ensures ReadSized(names, front, back) == Some((contract, m))
  {
    WordLiterals.DecimalRoundTrip(|contract|);
    WordLiterals.DecimalRoundTrip(|m|);
    CutBySizes(contract, m, rest, names);
  }

  lemma SizesAreRead(contract: string, m: string, names: string, front: string, back: string, middle: string)
    requires middle == WordLiterals.Decimal(|contract|) && back == WordLiterals.Decimal(|m|)
    requires front == contract + "_" + m + "_" + "_" + middle && names == front + "_" + back
    ensures ReadSized(names, front, back) == Some((contract, m))
  {
    DigitsHaveNoUnderscore(|contract|);
    LastUnderscoreCuts(contract + "_" + m + "_", middle, front);
    assert names == contract + ("_" + (m + ("_" + "_" + middle + "_" + back)));
    ReadBySizes(contract, m, "_" + "_" + middle + "_" + back, names, front, contract + "_" + m + "_", back);
  }

  lemma SizedIsRead(contract: string, m: string)
    ensures ReadName(Readable(contract, m) + "__" + WordLiterals.Decimal(|contract|) + "_" + WordLiterals.Decimal(|m|))
      == Some((contract, m))
  {
    var middle, back := WordLiterals.Decimal(|contract|), WordLiterals.Decimal(|m|);
    var text := Readable(contract, m) + "__" + middle + "_" + back;
    var front := contract + "_" + m + "_" + "_" + middle;
    assert text == Readable(contract, m) + ("__" + middle + "_" + back);
    BehindPrefix(contract, m, "__" + middle + "_" + back, text);
    assert contract + "_" + m + ("__" + middle + "_" + back) == front + "_" + back;
    DigitsHaveNoUnderscore(|m|);
    LastUnderscoreCuts(front, back, text[15..]);
    assert front[|contract|] == '_';
    SizesAreRead(contract, m, text[15..], front, back, middle);
  }

  /** The name of a type reads back as the two names it was made of, for all byte strings. */
  lemma NameRoundTrip(contract: string, m: string)
    ensures ReadName(NameTypeName(contract, m)) == Some((contract, m))
  {
    if '_' in contract || '_' in m {
      SizedIsRead(contract, m);
    } else {
      PlainIsRead(contract, m);
    }
  }

  /** Names without underscores keep the readable spelling, and others have it in front. */
  lemma SpellingIsReadable(contract: string, m: string)
    ensures "DispatchNameTy_" + contract + "_" + m <= NameTypeName(contract, m)
    ensures NameTypeName(contract, m) == "DispatchNameTy_" + contract + "_" + m <==>
      '_' !in contract && '_' !in m
  {
    var sized := Readable(contract, m) + "__" + WordLiterals.Decimal(|contract|) + "_" + WordLiterals.Decimal(|m|);
    assert |sized| > |Readable(contract, m)|;
    assert Readable(contract, m) == "DispatchNameTy_" + contract + "_" + m;
  }

  /** Different pairs of names get different type names, for all byte strings. */
  lemma NameTypeNameIsInjective(c: string, m: string, d: string, n: string)
    requires NameTypeName(c, m) == NameTypeName(d, n)
    ensures c == d && m == n
  {
    NameRoundTrip(c, m);
    NameRoundTrip(d, n);
  }

  // ----- the names of a module -----

  function NamesOf(contract: string, methods: seq<string>): seq<string> {
    seq(|methods|, i requires 0 <= i < |methods| => NameTypeName(contract, methods[i]))
  }

  /** The name types generated for one contract; an overloaded method gets one. */
  method DispatchNameTypes(contract: string, methods: seq<string>) returns (names: seq<string>)
    ensures names == NamesOf(contract, FirstUses(methods))
  {
    names := [];
    var declared: set<string> := {};
    for i := 0 to |methods|
      invariant declared == set m | m in methods[..i]
      invariant names == NamesOf(contract, FirstUses(methods[..i]))
    {
      assert methods[..i + 1][..i] == methods[..i];
      if methods[i] !in declared {
        declared := declared + {methods[i]};
        names := names + [NameTypeName(contract, methods[i])];
      }
    }
    assert methods[..|methods|] == methods;
  }

  /** Two generated names of a module are the same only for the same method of the same contract. */
  lemma ModuleNamesAreDistinct(contracts: seq<string>, methods: seq<seq<string>>, a: nat, i: nat, b: nat, j: nat)
    requires |contracts| == |methods| && a < |contracts| && b < |contracts|
    requires forall k, l :: 0 <= k < l < |contracts| ==> contracts[k] != contracts[l]
    requires i < |FirstUses(methods[a])| && j < |FirstUses(methods[b])|
    requires NamesOf(contracts[a], FirstUses(methods[a]))[i] == NamesOf(contracts[b], FirstUses(methods[b]))[j]
    ensures a == b && i == j
  {
    NameTypeNameIsInjective(contracts[a], FirstUses(methods[a])[i], contracts[b], FirstUses(methods[b])[j]);
    FirstUsesAreDistinct(methods[a]);
  }
}
