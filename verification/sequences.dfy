/** Lists with each element once. */
module Sequences {
  /** The elements without repetition, each where it comes first. */
  ghost function FirstUses<T>(s: seq<T>): (r: seq<T>) {
    if s == [] then []
    else
      var (front, last) := (s[..|s| - 1], s[|s| - 1]);
      if last in front then FirstUses(front) else FirstUses(front) + [last]
  }

  lemma {:induction false} FirstUsesAreDistinct<T>(s: seq<T>)
    ensures forall x :: x in FirstUses(s) <==> x in s
    ensures forall i, j :: 0 <= i < j < |FirstUses(s)| ==> FirstUses(s)[i] != FirstUses(s)[j]
  {
    if s != [] {
      var n := |s| - 1;
      FirstUsesAreDistinct(s[..n]);
      assert s == s[..n] + [s[n]];
    }
  }

  /** Some beginning of the list has `x` and not yet `y`. */
  ghost predicate UsedBefore<T>(s: seq<T>, x: T, y: T) {
    exists p: nat :: p <= |s| && x in s[..p] && y !in s[..p]
  }

  lemma UsedBeforeInFront<T>(s: seq<T>, n: nat, x: T, y: T)
    requires n <= |s| && UsedBefore(s[..n], x, y)
    ensures UsedBefore(s, x, y)
  {
    var p: nat :| p <= n && x in s[..n][..p] && y !in s[..n][..p];
    assert s[..n][..p] == s[..p];
  }

  /** They come in the order of their first uses. */
  lemma {:induction false} FirstUsesAreInOrder<T>(s: seq<T>, i: nat, j: nat)
    requires i < j < |FirstUses(s)|
    ensures UsedBefore(s, FirstUses(s)[i], FirstUses(s)[j])
    decreases |s|
  {
    var n := |s| - 1;
    var front := FirstUses(s[..n]);
    FirstUsesAreDistinct(s[..n]);
    if j < |front| {
      FirstUsesAreInOrder(s[..n], i, j);
      UsedBeforeInFront(s, n, front[i], front[j]);
    } else {
      assert s[n] !in s[..n] && FirstUses(s) == front + [s[n]];
      var (x, y) := (FirstUses(s)[i], FirstUses(s)[j]);
      assert x in front && y == s[n];
      assert x in s[..n] && y !in s[..n];
    }
  }
}
