/** Texts whose code delimiters are balanced are exactly those in which the scan pairs every delimiter. */
module FoldingBalance {
  import opened Lexical
  import opened Folding

  // A delimiter of the code, opening or closing, is an `Open` here: its byte and where it stands.

  predicate Delimiter(c: char) {
    c in "{}()[]"
  }

  predicate Matching(opening: char, closing: char) {
    || (opening == '{' && closing == '}')
    || (opening == '(' && closing == ')')
    || (opening == '[' && closing == ']')
  }

  lemma DelimitersAre(c: char)
    ensures Delimiter(c) <==> Opens(c) || Closes(c)
    ensures Opens(c) <==> c in "{(["
    ensures Closes(c) <==> c in "})]"
    ensures Closes(c) ==> Matching(Expected(c), c)
  {
  }

  /** The delimiters of the first `i` bytes that stand in code. */
  function Delims(s: string, i: nat): seq<Open>
    requires i <= |s|
  {
    if i == 0 then []
    else
      Delims(s, i - 1)
      + if InCode(ModeAt(s, i - 1)) && Delimiter(s[i - 1]) then [Open(s[i - 1], i - 1)] else []
  }

  /** The grammar of balanced delimiters: nothing, or a pair around a balanced text and a balanced text behind it. */
  ghost predicate Balanced(ds: seq<Open>)
    decreases |ds|
  {
    ds == [] || exists k :: Splits(ds, k) && Balanced(ds[1..k]) && Balanced(ds[k + 1..])
  }

  predicate Splits(ds: seq<Open>, k: int) {
    0 < k < |ds| && Matching(ds[0].opening, ds[k].opening)
  }

  // ----- the scan on delimiters -----

  function Fold(p: Pairing, ds: seq<Open>): Pairing {
    if ds == [] then p
    else
      var last := ds[|ds| - 1];
      PairStep(Fold(p, ds[..|ds| - 1]), last.opening, last.at)
  }

  lemma {:induction false} FoldConcat(p: Pairing, a: seq<Open>, b: seq<Open>)
    ensures Fold(p, a + b) == Fold(Fold(p, a), b)
    decreases |b|
  {
    if b == [] {
      assert a + b == a;
    } else {
      var n := |b| - 1;
      FoldConcat(p, a, b[..n]);
      assert (a + b)[..|a + b| - 1] == a + b[..n];
    }
  }

  lemma FoldOne(p: Pairing, d: Open)
    ensures Fold(p, [d]) == PairStep(p, d.opening, d.at)
  {
    assert [d][..0] == [];
  }

  lemma {:induction false} PairedIsFold(s: string, i: nat)
    requires i <= |s|
    ensures Paired(s, i) == Fold(Pairing([], []), Delims(s, i))
  {
    if i > 0 {
      PairedIsFold(s, i - 1);
      if InCode(ModeAt(s, i - 1)) && Delimiter(s[i - 1]) {
        var d := Open(s[i - 1], i - 1);
        FoldConcat(Pairing([], []), Delims(s, i - 1), [d]);
        FoldOne(Paired(s, i - 1), d);
      } else {
        assert Delims(s, i) == Delims(s, i - 1);
      }
    }
  }

  /** The closing delimiter finds its opening one on top. */
  predicate Pops(p: Pairing, d: Open) {
    && p.open != [] && p.open[|p.open| - 1].opening == Expected(d.opening) && p.open[|p.open| - 1].at <= d.at
  }

  /** No closing delimiter is dropped. */
  ghost predicate KeepsAll(p: Pairing, ds: seq<Open>) {
    forall k :: 0 <= k < |ds| && Closes(ds[k].opening) ==> Pops(Fold(p, ds[..k]), ds[k])
  }

  ghost predicate Ascending(ds: seq<Open>) {
    && (forall k :: 0 <= k < |ds| ==> Delimiter(ds[k].opening))
    && (forall j, k :: 0 <= j < k < |ds| ==> ds[j].at < ds[k].at)
  }

  ghost predicate Under(p: Pairing, ds: seq<Open>) {
    forall j, k :: 0 <= j < |p.open| && 0 <= k < |ds| ==> p.open[j].at < ds[k].at
  }

  lemma KeepsAllConcat(p: Pairing, a: seq<Open>, b: seq<Open>)
    requires KeepsAll(p, a) && KeepsAll(Fold(p, a), b)
    ensures KeepsAll(p, a + b)
  {
    forall k | 0 <= k < |a + b| && Closes((a + b)[k].opening)
      ensures Pops(Fold(p, (a + b)[..k]), (a + b)[k])
    {
      if k < |a| {
        assert (a + b)[..k] == a[..k];
        assert Pops(Fold(p, a[..k]), a[k]);
      } else {
        assert (a + b)[..k] == a + b[..k - |a|];
        FoldConcat(p, a, b[..k - |a|]);
        assert Pops(Fold(Fold(p, a), b[..k - |a|]), b[k - |a|]);
      }
    }
  }

  lemma KeepsAllParts(p: Pairing, a: seq<Open>, b: seq<Open>)
    requires KeepsAll(p, a + b)
    ensures KeepsAll(p, a) && KeepsAll(Fold(p, a), b)
  {
    forall k | 0 <= k < |a| && Closes(a[k].opening)
      ensures Pops(Fold(p, a[..k]), a[k])
    {
      assert (a + b)[..k] == a[..k] && (a + b)[k] == a[k];
    }
    forall k | 0 <= k < |b| && Closes(b[k].opening)
      ensures Pops(Fold(Fold(p, a), b[..k]), b[k])
    {
      assert (a + b)[..|a| + k] == a + b[..k] && (a + b)[|a| + k] == b[k];
      FoldConcat(p, a, b[..k]);
      assert Pops(Fold(p, (a + b)[..|a| + k]), (a + b)[|a| + k]);
    }
  }

  lemma KeepsAllOne(p: Pairing, d: Open)
    ensures KeepsAll(p, [d]) <==> (Closes(d.opening) ==> Pops(p, d))
  {
    assert [d][..0] == [];
    if KeepsAll(p, [d]) && Closes(d.opening) {
      assert Pops(Fold(p, [d][..0]), [d][0]);
    }
  }

  /** Two pieces, one after the other. */
  lemma Join(p: Pairing, a: seq<Open>, q: Pairing, b: seq<Open>, all: seq<Open>)
    requires Fold(p, a) == q && KeepsAll(p, a) && KeepsAll(q, b) && all == a + b
    ensures Fold(p, all) == Fold(q, b) && KeepsAll(p, all)
  {
    FoldConcat(p, a, b);
    KeepsAllConcat(p, a, b);
  }

  // ----- balanced texts are paired -----

  lemma OpenerPushes(p: Pairing, d: Open)
    requires Opens(d.opening)
    ensures Fold(p, [d]).open == p.open + [d] && KeepsAll(p, [d])
  {
    FoldOne(p, d);
    KeepsAllOne(p, d);
  }

  lemma CloserPops(p: Pairing, o: Open, d: Open, below: seq<Open>)
    requires Closes(d.opening) && p.open == below + [o] && o.opening == Expected(d.opening) && o.at <= d.at
    ensures Fold(p, [d]).open == below && KeepsAll(p, [d])
  {
    FoldOne(p, d);
    KeepsAllOne(p, d);
  }

  lemma {:induction false} BalancedFolds(p: Pairing, ds: seq<Open>)
    requires Balanced(ds) && Ascending(ds) && Under(p, ds)
    ensures Fold(p, ds).open == p.open && KeepsAll(p, ds)
    decreases |ds|
  {
    if ds != [] {
      var k :| Splits(ds, k) && Balanced(ds[1..k]) && Balanced(ds[k + 1..]);
      SplitFolds(p, ds, k);
    }
  }

  lemma SplitPieces(ds: seq<Open>, k: nat)
    requires 0 < k < |ds|
    ensures ds[..k] == [ds[0]] + ds[1..k] && ds[..k + 1] == ds[..k] + [ds[k]] && ds == ds[..k + 1] + ds[k + 1..]
  {
  }

  lemma TailUnder(p: Pairing, ds: seq<Open>, i: nat, q: Pairing)
    requires i <= |ds| && Ascending(ds) && Under(p, ds) && q.open == p.open
    ensures Ascending(ds[i..]) && Under(q, ds[i..])
  {
  }

  lemma {:induction false} SplitFolds(p: Pairing, ds: seq<Open>, k: nat)
    requires Splits(ds, k) && Balanced(ds[1..k]) && Balanced(ds[k + 1..]) && Ascending(ds) && Under(p, ds)
    ensures Fold(p, ds).open == p.open && KeepsAll(p, ds)
    decreases |ds|, 2
  {
    SplitPieces(ds, k);
    PairFolds(p, ds, k);
    var q := Fold(p, ds[..k + 1]);
    TailUnder(p, ds, k + 1, q);
    BalancedFolds(q, ds[k + 1..]);
    Join(p, ds[..k + 1], q, ds[k + 1..], ds);
  }

  /** A pair around a balanced text. */
  lemma {:induction false} PairFolds(p: Pairing, ds: seq<Open>, k: nat)
    requires Splits(ds, k) && Balanced(ds[1..k]) && Ascending(ds) && Under(p, ds)
    ensures Fold(p, ds[..k + 1]).open == p.open && KeepsAll(p, ds[..k + 1])
    decreases |ds|, 1
  {
    SplitPieces(ds, k);
    OpenFolds(p, ds, k);
    var q := Fold(p, ds[..k]);
    CloserPops(q, ds[0], ds[k], p.open);
    Join(p, ds[..k], q, [ds[k]], ds[..k + 1]);
  }

  lemma {:induction false} OpenFolds(p: Pairing, ds: seq<Open>, k: nat)
    requires Splits(ds, k) && Balanced(ds[1..k]) && Ascending(ds) && Under(p, ds)
    ensures Fold(p, ds[..k]).open == p.open + [ds[0]] && KeepsAll(p, ds[..k]) && ds[0].at <= ds[k].at
    decreases |ds|, 0
  {
    SplitPieces(ds, k);
    OpenerPushes(p, ds[0]);
    var q := Fold(p, [ds[0]]);
    InnerUnder(p, ds, k, q);
    BalancedFolds(q, ds[1..k]);
    Join(p, [ds[0]], q, ds[1..k], ds[..k]);
  }

  lemma InnerUnder(p: Pairing, ds: seq<Open>, k: nat, p1: Pairing)
    requires 0 < k < |ds| && Ascending(ds) && Under(p, ds) && p1.open == p.open + [ds[0]]
    ensures Ascending(ds[1..k]) && Under(p1, ds[1..k]) && ds[0].at < ds[k].at
  {
  }

  // ----- paired texts are balanced -----

  /** The scan after the first `j` delimiters. */
  function After(p: Pairing, ds: seq<Open>, j: nat): Pairing
    requires j <= |ds|
  {
    Fold(p, ds[..j])
  }

  lemma AfterAll(p: Pairing, ds: seq<Open>)
    ensures After(p, ds, |ds|) == Fold(p, ds) && After(p, ds, 0) == p
  {
    assert ds[..|ds|] == ds;
  }

  lemma AfterNext(p: Pairing, ds: seq<Open>, j: nat)
    requires j < |ds|
    ensures After(p, ds, j + 1) == PairStep(After(p, ds, j), ds[j].opening, ds[j].at)
  {
    assert ds[..j + 1][..j] == ds[..j];
  }

  lemma AfterPart(p: Pairing, ds: seq<Open>, i: nat, end: nat, j: nat)
    requires i <= end <= |ds| && j <= end - i
    ensures After(After(p, ds, i), ds[i..end], j) == After(p, ds, i + j)
  {
    assert ds[i..end][..j] == ds[i..i + j];
    assert ds[..i + j] == ds[..i] + ds[i..i + j];
    FoldConcat(p, ds[..i], ds[i..i + j]);
  }

  lemma PopsAt(p: Pairing, ds: seq<Open>, k: nat)
    requires KeepsAll(p, ds) && k < |ds| && Closes(ds[k].opening)
    ensures Pops(After(p, ds, k), ds[k])
  {
  }

  /** The delimiters that were open at the start stay open all the way. */
  ghost predicate NeverBelow(p: Pairing, ds: seq<Open>) {
    forall k :: 0 <= k <= |ds| ==> |p.open| <= |After(p, ds, k).open|
  }

  lemma {:induction false} StackKept(p: Pairing, ds: seq<Open>, j: nat)
    requires NeverBelow(p, ds) && j <= |ds|
    ensures p.open <= After(p, ds, j).open
    decreases j
  {
    AfterAll(p, ds);
    if j > 0 {
      StackKept(p, ds, j - 1);
      AfterNext(p, ds, j - 1);
    }
  }

  /** The first place, after the start, where the stack is back at its height. */
  lemma FirstReturn(p: Pairing, ds: seq<Open>) returns (k: nat)
    requires ds != [] && |Fold(p, ds).open| == |p.open|
    ensures k < |ds| && |After(p, ds, k + 1).open| == |p.open|
    ensures forall j :: 0 < j <= k ==> |After(p, ds, j).open| != |p.open|
  {
    k := 0;
    AfterAll(p, ds);
    while |After(p, ds, k + 1).open| != |p.open|
      invariant k < |ds|
      invariant forall j :: 0 < j <= k ==> |After(p, ds, j).open| != |p.open|
      decreases |ds| - k
    {
      k := k + 1;
    }
  }

  lemma KeepsAllPart(p: Pairing, ds: seq<Open>, i: nat, j: nat)
    requires KeepsAll(p, ds) && i <= j <= |ds|
    ensures KeepsAll(After(p, ds, i), ds[i..j])
  {
    assert ds == ds[..j] + ds[j..];
    KeepsAllParts(p, ds[..j], ds[j..]);
    assert ds[..j] == ds[..i] + ds[i..j];
    KeepsAllParts(p, ds[..i], ds[i..j]);
  }

  lemma {:induction false} FoldedIsBalanced(p: Pairing, ds: seq<Open>)
    requires Ascending(ds) && KeepsAll(p, ds) && NeverBelow(p, ds) && |Fold(p, ds).open| == |p.open|
    ensures Balanced(ds)
    decreases |ds|
  {
    if ds != [] {
      var k := FirstReturn(p, ds);
      FirstOpens(p, ds);
      InnerPart(p, ds, k);
      FoldedIsBalanced(After(p, ds, 1), ds[1..k]);
      LastCloses(p, ds, k);
      OuterPart(p, ds, k);
      FoldedIsBalanced(After(p, ds, k + 1), ds[k + 1..]);
      assert Splits(ds, k);
    }
  }

  lemma FirstOpens(p: Pairing, ds: seq<Open>)
    requires Ascending(ds) && KeepsAll(p, ds) && NeverBelow(p, ds) && ds != []
    ensures Opens(ds[0].opening) && After(p, ds, 1).open == p.open + [ds[0]]
  {
    AfterAll(p, ds);
    AfterNext(p, ds, 0);
    assert |p.open| <= |After(p, ds, 1).open|;
    if Closes(ds[0].opening) {
      PopsAt(p, ds, 0);
    }
  }

  lemma InnerHeight(p: Pairing, ds: seq<Open>, k: nat, j: nat)
    requires NeverBelow(p, ds) && 0 < k < |ds| && j <= k - 1 && |After(p, ds, 1 + j).open| != |p.open|
    ensures |p.open| + 1 <= |After(After(p, ds, 1), ds[1..k], j).open|
  {
    AfterPart(p, ds, 1, k, j);
    assert |p.open| <= |After(p, ds, 1 + j).open|;
  }

  lemma InnerNeverBelow(p: Pairing, ds: seq<Open>, k: nat, q: Pairing, inner: seq<Open>)
    requires NeverBelow(p, ds) && 0 < k < |ds| && q == After(p, ds, 1) && inner == ds[1..k]
    requires |q.open| == |p.open| + 1 && forall j :: 0 < j <= k ==> |After(p, ds, j).open| != |p.open|
    ensures NeverBelow(q, inner)
  {
    forall j | 0 <= j <= |inner|
      ensures |q.open| <= |After(q, inner, j).open|
    {
      InnerHeight(p, ds, k, j);
    }
  }

  lemma InnerEnds(p: Pairing, ds: seq<Open>, k: nat)
    requires NeverBelow(p, ds) && 0 < k < |ds| && |After(p, ds, k).open| != |p.open|
    requires |After(p, ds, k + 1).open| == |p.open|
    ensures Fold(After(p, ds, 1), ds[1..k]) == After(p, ds, k) && |After(p, ds, k).open| == |p.open| + 1
  {
    AfterPart(p, ds, 1, k, k - 1);
    AfterAll(After(p, ds, 1), ds[1..k]);
    AfterNext(p, ds, k);
    assert |p.open| <= |After(p, ds, k).open|;
  }

  lemma InnerPart(p: Pairing, ds: seq<Open>, k: nat)
    requires Ascending(ds) && KeepsAll(p, ds) && NeverBelow(p, ds) && k < |ds|
    requires After(p, ds, 1).open == p.open + [ds[0]] && |After(p, ds, k + 1).open| == |p.open|
    requires forall j :: 0 < j <= k ==> |After(p, ds, j).open| != |p.open|
    ensures k > 0 && Ascending(ds[1..k]) && KeepsAll(After(p, ds, 1), ds[1..k])
    ensures NeverBelow(After(p, ds, 1), ds[1..k])
    ensures Fold(After(p, ds, 1), ds[1..k]) == After(p, ds, k) && |After(p, ds, k).open| == |p.open| + 1
  {
    KeepsAllPart(p, ds, 1, k);
    InnerNeverBelow(p, ds, k, After(p, ds, 1), ds[1..k]);
    InnerEnds(p, ds, k);
  }

  lemma LastCloses(p: Pairing, ds: seq<Open>, k: nat)
    requires Ascending(ds) && KeepsAll(p, ds) && 0 < k < |ds| && Opens(ds[0].opening)
    requires After(p, ds, 1).open == p.open + [ds[0]] && NeverBelow(After(p, ds, 1), ds[1..k])
    requires Fold(After(p, ds, 1), ds[1..k]) == After(p, ds, k) && |After(p, ds, k).open| == |p.open| + 1
    requires |After(p, ds, k + 1).open| == |p.open|
    ensures Splits(ds, k)
  {
    StackKept(After(p, ds, 1), ds[1..k], k - 1);
    AfterAll(After(p, ds, 1), ds[1..k]);
    AfterNext(p, ds, k);
    assert After(p, ds, k).open == p.open + [ds[0]];
    PopsAt(p, ds, k);
  }

  lemma OuterPart(p: Pairing, ds: seq<Open>, k: nat)
    requires Ascending(ds) && KeepsAll(p, ds) && NeverBelow(p, ds) && k < |ds|
    requires |Fold(p, ds).open| == |p.open| && |After(p, ds, k + 1).open| == |p.open|
    ensures Ascending(ds[k + 1..]) && KeepsAll(After(p, ds, k + 1), ds[k + 1..])
    ensures NeverBelow(After(p, ds, k + 1), ds[k + 1..])
    ensures |Fold(After(p, ds, k + 1), ds[k + 1..]).open| == |p.open|
  {
    var n := |ds|;
    assert ds[k + 1..n] == ds[k + 1..];
    KeepsAllPart(p, ds, k + 1, n);
    TailNeverBelow(p, ds, k + 1, After(p, ds, k + 1), ds[k + 1..]);
  }

  lemma TailAfter(p: Pairing, ds: seq<Open>, i: nat, q: Pairing, tail: seq<Open>, j: nat)
    requires i <= |ds| && tail == ds[i..] && q == After(p, ds, i) && j <= |tail|
    ensures After(q, tail, j) == After(p, ds, i + j)
  {
    assert tail == ds[i..|ds|];
    AfterPart(p, ds, i, |ds|, j);
  }

  lemma TailHeight(p: Pairing, ds: seq<Open>, i: nat, q: Pairing, tail: seq<Open>, j: nat)
    requires NeverBelow(p, ds) && i <= |ds| && tail == ds[i..] && q == After(p, ds, i) && j <= |tail|
    ensures |p.open| <= |After(q, tail, j).open|
  {
    TailAfter(p, ds, i, q, tail, j);
    assert |p.open| <= |After(p, ds, i + j).open|;
  }

  lemma TailEnds(p: Pairing, ds: seq<Open>, i: nat, q: Pairing, tail: seq<Open>)
    requires i <= |ds| && tail == ds[i..] && q == After(p, ds, i)
    ensures Fold(q, tail) == Fold(p, ds)
  {
    assert ds == ds[..i] + tail;
    FoldConcat(p, ds[..i], tail);
  }

  lemma TailNeverBelow(p: Pairing, ds: seq<Open>, i: nat, q: Pairing, tail: seq<Open>)
    requires NeverBelow(p, ds) && i <= |ds| && tail == ds[i..] && q == After(p, ds, i)
    requires |Fold(p, ds).open| == |p.open| == |q.open|
    ensures NeverBelow(q, tail) && |Fold(q, tail).open| == |p.open|
  {
    forall j | 0 <= j <= |tail|
      ensures |q.open| <= |After(q, tail, j).open|
    {
      TailHeight(p, ds, i, q, tail, j);
    }
    TailEnds(p, ds, i, q, tail);
  }

  // ----- in terms of the text -----

  predicate CodeCloser(s: string, i: nat) {
    i < |s| && Closes(s[i]) && InCode(ModeAt(s, i))
  }

  ghost predicate PairEndsAt(p: Pairing, end: nat) {
    exists k :: 0 <= k < |p.pairs| && p.pairs[k].range.end == end
  }

  /** Every delimiter of the code is the one or the other end of a pair. */
  ghost predicate AllPaired(s: string) {
    && (forall i :: 0 <= i < |s| && CodeOpener(s, i) ==> PairAt(Paired(s, |s|), i))
    && (forall i :: 0 <= i < |s| && CodeCloser(s, i) ==> PairEndsAt(Paired(s, |s|), i + 1))
  }

  lemma {:induction false} DelimsAscend(s: string, i: nat)
    requires i <= |s|
    ensures Ascending(Delims(s, i))
    ensures forall k :: 0 <= k < |Delims(s, i)| ==> Delims(s, i)[k].at < i
  {
    if i > 0 {
      DelimsAscend(s, i - 1);
    }
  }

  /** The scan drops the closing delimiter at `i`. */
  predicate DropsAt(s: string, i: nat)
    requires i < |s|
  {
    CodeCloser(s, i) && !Pops(Paired(s, i), Open(s[i], i))
  }

  ghost predicate NoneDropped(s: string, i: nat)
    requires i <= |s|
  {
    forall j :: 0 <= j < i ==> !DropsAt(s, j)
  }

  lemma KeepsAllNext(p: Pairing, ds: seq<Open>, d: Open)
    ensures KeepsAll(p, ds + [d]) <==> KeepsAll(p, ds) && (Closes(d.opening) ==> Pops(Fold(p, ds), d))
  {
    KeepsAllOne(Fold(p, ds), d);
    if KeepsAll(p, ds + [d]) {
      KeepsAllParts(p, ds, [d]);
    }
    if KeepsAll(p, ds) && KeepsAll(Fold(p, ds), [d]) {
      KeepsAllConcat(p, ds, [d]);
    }
  }

  lemma {:induction false} KeepsAllText(s: string, i: nat)
    requires i <= |s|
    ensures KeepsAll(Pairing([], []), Delims(s, i)) <==> NoneDropped(s, i)
  {
    if i > 0 {
      KeepsAllText(s, i - 1);
      PairedIsFold(s, i - 1);
      assert NoneDropped(s, i) <==> NoneDropped(s, i - 1) && !DropsAt(s, i - 1);
      if InCode(ModeAt(s, i - 1)) && Delimiter(s[i - 1]) {
        KeepsAllNext(Pairing([], []), Delims(s, i - 1), Open(s[i - 1], i - 1));
      } else {
        assert Delims(s, i) == Delims(s, i - 1);
      }
    }
  }

  /** A step adds the pair that it closes, and no other. */
  lemma StepEnds(p: Pairing, c: char, i: nat, end: nat)
    ensures PairEndsAt(PairStep(p, c, i), end) <==>
      PairEndsAt(p, end) || (!Opens(c) && Closes(c) && Pops(p, Open(c, i)) && end == i + 1)
  {
    var q := PairStep(p, c, i);
    if PairEndsAt(p, end) {
      var k :| 0 <= k < |p.pairs| && p.pairs[k].range.end == end;
      assert q.pairs[k].range.end == end;
    }
    if Closes(c) && !Opens(c) && Pops(p, Open(c, i)) {
      assert q.pairs[|p.pairs|].range.end == i + 1;
    }
  }

  lemma NoEarlyEnd(s: string, i: nat)
    requires i <= |s|
    ensures !PairEndsAt(Paired(s, i), i + 1)
  {
    PairingIsSound(s, i);
  }

  /** A closing delimiter ends a pair exactly when it is not dropped. */
  lemma {:induction false} PairEnds(s: string, i: nat, j: nat)
    requires j < i <= |s| && CodeCloser(s, j)
    ensures PairEndsAt(Paired(s, i), j + 1) <==> !DropsAt(s, j)
    decreases i
  {
    StepEnds(Paired(s, i - 1), s[i - 1], i - 1, j + 1);
    if j + 1 < i {
      PairEnds(s, i - 1, j);
    } else {
      NoEarlyEnd(s, j);
    }
  }

  /** What is open at the end starts no pair. */
  lemma OpenIsUnpaired(s: string)
    ensures Paired(s, |s|).open != [] ==> exists i :: 0 <= i < |s| && CodeOpener(s, i) && !PairAt(Paired(s, |s|), i)
  {
    PairingIsSound(s, |s|);
    var p := Paired(s, |s|);
    if p.open != [] {
      var i := p.open[0].at;
      forall k | 0 <= k < |p.pairs|
        ensures p.pairs[k].range.start != i
      {
        assert Outside(p.open[0].at, p.pairs[k].range);
        assert GoodPair(s, p.pairs[k]);
      }
      assert CodeOpener(s, i) && !PairAt(p, i);
    }
  }

  lemma AllPairedMeans(s: string)
    ensures AllPaired(s) <==>
      Paired(s, |s|).open == [] && KeepsAll(Pairing([], []), Delims(s, |s|))
  {
    PairingIsSound(s, |s|);
    KeepsAllText(s, |s|);
    OpenIsUnpaired(s);
    assert NoneDropped(s, |s|) <==> forall j :: 0 <= j < |s| ==> !DropsAt(s, j);
    var p := Paired(s, |s|);
    forall j | 0 <= j < |s| && CodeCloser(s, j)
      ensures PairEndsAt(p, j + 1) <==> !DropsAt(s, j)
    {
      PairEnds(s, |s|, j);
    }
    if p.open == [] {
      forall i | 0 <= i < |s| && CodeOpener(s, i)
        ensures PairAt(p, i)
      {
        assert OpenAt(p, i) || PairAt(p, i);
      }
    }
  }

  /** The scan pairs every delimiter of the code exactly when the delimiters of the code are balanced. */
  lemma PairsAllExactly(s: string)
    ensures AllPaired(s) <==> Balanced(Delims(s, |s|))
  {
    var none, ds := Pairing([], []), Delims(s, |s|);
    PairedIsFold(s, |s|);
    DelimsAscend(s, |s|);
    AllPairedMeans(s);
    if Balanced(ds) {
      BalancedFolds(none, ds);
    }
    if AllPaired(s) {
      FoldedIsBalanced(none, ds);
    }
  }
}
