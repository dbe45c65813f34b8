/** Exactly which lists of definitions the location table refuses: always, never, or by the order within a hash. */
module AnchorDuplicates {
  import opened Wrappers
  import opened AnchorTables

  // ----- counting -----

  function Count(s: seq<Entry>, p: Entry -> bool): nat {
    if s == [] then 0 else Count(s[..|s| - 1], p) + if p(s[|s| - 1]) then 1 else 0
  }

  function OfHash(h: nat): Entry -> bool {
    (e: Entry) => e.hash == h
  }

  function OfDef(def: DefId): Entry -> bool {
    (e: Entry) => e.def == def
  }

  /** How many entries have the hash, and how many the definition. */
  function ClassSize(s: seq<Entry>, h: nat): nat {
    Count(s, OfHash(h))
  }

  function Copies(s: seq<Entry>, def: DefId): nat {
    Count(s, OfDef(def))
  }

  function Without(s: seq<Entry>, k: nat): (r: seq<Entry>)
    requires k < |s|
    ensures |r| == |s| - 1
  {
    s[..k] + s[k + 1..]
  }

  lemma {:induction false} CountWithout(s: seq<Entry>, k: nat, p: Entry -> bool)
    requires k < |s|
    ensures Count(s, p) == Count(Without(s, k), p) + if p(s[k]) then 1 else 0
    decreases |s|
  {
    var n := |s| - 1;
    if k < n {
      CountWithout(s[..n], k, p);
      assert Without(s, k)[..n - 1] == Without(s[..n], k);
    } else {
      assert Without(s, k) == s[..n];
    }
  }

  lemma WithoutMembers(s: seq<Entry>, k: nat)
    requires k < |s|
    ensures multiset(s) == multiset(Without(s, k)) + multiset{s[k]}
    ensures forall e | e in Without(s, k) :: e in s
  {
    assert s == s[..k] + [s[k]] + s[k + 1..];
  }

  lemma OneLess(a: multiset<Entry>, b: multiset<Entry>, e: Entry)
    requires a + multiset{e} == b + multiset{e}
    ensures a == b
  {
    forall x
      ensures a[x] == b[x]
    {
      assert (a + multiset{e})[x] == (b + multiset{e})[x];
    }
  }

  /** A count does not depend on the order. */
  lemma {:induction false} CountOfMultiset(s: seq<Entry>, t: seq<Entry>, p: Entry -> bool)
    requires multiset(s) == multiset(t)
    ensures Count(s, p) == Count(t, p)
    decreases |s|
  {
    if s == [] {
      assert |multiset(t)| == 0;
    } else {
      var n := |s| - 1;
      assert s == s[..n] + [s[n]];
      assert s[n] in multiset(t);
      var k :| 0 <= k < |t| && t[k] == s[n];
      WithoutMembers(t, k);
      OneLess(multiset(s[..n]), multiset(Without(t, k)), s[n]);
      CountOfMultiset(s[..n], Without(t, k), p);
      CountWithout(t, k, p);
    }
  }

  ghost predicate Hashed(hash: Hash, s: seq<Entry>) {
    forall e | e in s :: e.hash == hash(e.def)
  }

  lemma HashedFront(hash: Hash, s: seq<Entry>)
    requires Hashed(hash, s) && s != []
    ensures Hashed(hash, s[..|s| - 1]) && s[|s| - 1].hash == hash(s[|s| - 1].def)
  {
    assert s[|s| - 1] in s;
  }

  lemma {:induction false} TwoDefsShareAClass(hash: Hash, s: seq<Entry>, a: DefId, b: DefId)
    requires Hashed(hash, s) && a != b && hash(a) == hash(b)
    ensures Copies(s, a) + Copies(s, b) <= ClassSize(s, hash(a))
    decreases |s|
  {
    if s != [] {
      HashedFront(hash, s);
      TwoDefsShareAClass(hash, s[..|s| - 1], a, b);
    }
  }

  lemma {:induction false} CountedIsThere(s: seq<Entry>, p: Entry -> bool) returns (k: nat)
    requires Count(s, p) > 0
    ensures k < |s| && p(s[k])
    decreases |s|
  {
    var n := |s| - 1;
    if p(s[n]) {
      k := n;
    } else {
      k := CountedIsThere(s[..n], p);
    }
  }

  lemma {:induction false} PresentIsCounted(s: seq<Entry>, k: nat, p: Entry -> bool)
    requires k < |s| && p(s[k])
    ensures Count(s, p) > 0
    decreases |s|
  {
    if k < |s| - 1 {
      PresentIsCounted(s[..|s| - 1], k, p);
    }
  }

  /** A class that is not all of one definition has another in it. */
  lemma {:induction false} OtherInClass(s: seq<Entry>, h: nat, def: DefId) returns (k: nat)
    requires Copies(s, def) < ClassSize(s, h)
    ensures k < |s| && s[k].hash == h && s[k].def != def
    decreases |s|
  {
    var n := |s| - 1;
    if s[n].hash == h && s[n].def != def {
      k := n;
    } else {
      k := OtherInClass(s[..n], h, def);
    }
  }

  // ----- what an order without equal neighbours needs -----

  /** A definition has more copies than half of its hash class, rounded up. */
  ghost predicate Overfull(hash: Hash, s: seq<Entry>, def: DefId) {
    2 * Copies(s, def) > ClassSize(s, hash(def)) + 1
  }

  /** In a sorted table without equal neighbours, the copies of a definition are kept apart by the rest of its class. */
  lemma {:induction false} NeighboursBoundCopies(hash: Hash, t: seq<Entry>, def: DefId)
    requires Hashed(hash, t) && Sorted(t) && NeighboursDiffer(t)
    ensures !Overfull(hash, t, def)
    ensures t != [] && t[|t| - 1].hash == hash(def) && t[|t| - 1].def != def ==>
      2 * Copies(t, def) <= ClassSize(t, hash(def))
    ensures t != [] && t[|t| - 1].hash < hash(def) ==> Copies(t, def) == 0 && ClassSize(t, hash(def)) == 0
    decreases |t|
  {
    if t != [] {
      var n := |t| - 1;
      HashedFront(hash, t);
      NeighboursBoundCopies(hash, t[..n], def);
      if n > 0 {
        HashedFront(hash, t[..n]);
        assert t[n - 1].hash <= t[n].hash && t[n - 1].def != t[n].def;
      }
    }
  }

  // ----- how to find such an order -----

  lemma {:induction false} LeastHash(s: seq<Entry>) returns (k: nat)
    requires s != []
    ensures k < |s| && forall e | e in s :: s[k].hash <= e.hash
    decreases |s|
  {
    var n := |s| - 1;
    assert s == s[..n] + [s[n]];
    if n == 0 {
      k := 0;
    } else {
      k := LeastHash(s[..n]);
      if s[n].hash < s[k].hash {
        k := n;
      }
    }
  }

  /** No definition fills too much of its class, and the one just placed at most half of what is left of it. */
  ghost predicate Arrangeable(hash: Hash, s: seq<Entry>, last: Option<DefId>) {
    && (forall def :: !Overfull(hash, s, def))
    && (last.Some? ==> 2 * Copies(s, last.value) <= ClassSize(s, hash(last.value)))
  }

  /** The entry to place next: of the least hash, not the definition just placed, and the fullest one if it is due. */
  lemma NextEntry(hash: Hash, s: seq<Entry>, last: Option<DefId>) returns (k: nat)
    requires Hashed(hash, s) && Arrangeable(hash, s, last) && s != []
    ensures k < |s| && last != Some(s[k].def)
    ensures forall e | e in s :: s[k].hash <= e.hash
    ensures forall def :: def != s[k].def && hash(def) == s[k].hash ==>
      2 * Copies(s, def) <= ClassSize(s, s[k].hash)
  {
    var least := LeastHash(s);
    var h := s[least].hash;
    PresentIsCounted(s, least, OfHash(h));
    if full :| hash(full) == h && 2 * Copies(s, full) == ClassSize(s, h) + 1 {
      k := CountedIsThere(s, OfDef(full));
      forall def | def != full && hash(def) == h
        ensures 2 * Copies(s, def) <= ClassSize(s, h)
      {
        TwoDefsShareAClass(hash, s, full, def);
      }
      assert s[k] in s;
    } else {
      if last.Some? && hash(last.value) == h {
        k := OtherInClass(s, h, last.value);
      } else {
        k := least;
        assert s[k] in s;
      }
      forall def | hash(def) == h
        ensures 2 * Copies(s, def) <= ClassSize(s, h)
      {
        assert !Overfull(hash, s, def);
      }
    }
  }

  lemma RestIsArrangeable(hash: Hash, s: seq<Entry>, k: nat)
    requires Hashed(hash, s) && k < |s| && forall def :: !Overfull(hash, s, def)
    requires forall def :: def != s[k].def && hash(def) == s[k].hash ==>
      2 * Copies(s, def) <= ClassSize(s, s[k].hash)
    ensures Arrangeable(hash, Without(s, k), Some(s[k].def))
  {
    var rest := Without(s, k);
    assert s[k] in s;
    forall def
      ensures !Overfull(hash, rest, def)
      ensures def == s[k].def ==> 2 * Copies(rest, def) <= ClassSize(rest, hash(def))
    {
      CountWithout(s, k, OfDef(def));
      CountWithout(s, k, OfHash(hash(def)));
      assert !Overfull(hash, s, def);
    }
  }

  /** Where no definition fills too much of its class, some order has no equal neighbours. */
  lemma {:induction false} Arrange(hash: Hash, s: seq<Entry>, last: Option<DefId>) returns (t: seq<Entry>)
    requires Hashed(hash, s) && Arrangeable(hash, s, last)
    ensures Sorted(t) && multiset(t) == multiset(s) && NeighboursDiffer(t)
    ensures t != [] ==> last != Some(t[0].def)
    decreases |s|
  {
    if s == [] {
      t := [];
    } else {
      var k := NextEntry(hash, s, last);
      RestIsArrangeable(hash, s, k);
      WithoutMembers(s, k);
      var rest := Arrange(hash, Without(s, k), Some(s[k].def));
      t := [s[k]] + rest;
      AboveLeast(s[k], rest, Without(s, k));
    }
  }

  lemma AboveLeast(e: Entry, rest: seq<Entry>, s: seq<Entry>)
    requires Sorted(rest) && multiset(rest) == multiset(s) && forall x | x in s :: e.hash <= x.hash
    ensures Sorted([e] + rest) && multiset([e] + rest) == multiset(s) + multiset{e}
  {
    forall i | 0 <= i < |rest|
      ensures e.hash <= rest[i].hash
    {
      assert rest[i] in multiset(s);
    }
  }

  // ----- the theorems -----

  lemma TableCounts(hash: Hash, entries: seq<(DefId, Location)>, table: seq<Entry>, def: DefId)
    requires TableOf(hash, entries, table)
    ensures Overfull(hash, table, def) <==> Overfull(hash, Indexed(hash, entries), def)
  {
    CountOfMultiset(table, Indexed(hash, entries), OfDef(def));
    CountOfMultiset(table, Indexed(hash, entries), OfHash(hash(def)));
  }

  /**
   A list is refused in every sorted order exactly when some definition has more copies than half of its hash class,
   rounded up.
   */
  lemma AlwaysRefusedExactly(hash: Hash, entries: seq<(DefId, Location)>)
    ensures (forall table :: TableOf(hash, entries, table) ==> !NeighboursDiffer(table))
      <==> exists def :: Overfull(hash, Indexed(hash, entries), def)
  {
    var all := Indexed(hash, entries);
    if def :| Overfull(hash, all, def) {
      forall table | TableOf(hash, entries, table)
        ensures !NeighboursDiffer(table)
      {
        TableHashes(hash, entries, table);
        TableCounts(hash, entries, table, def);
        if NeighboursDiffer(table) {
          NeighboursBoundCopies(hash, table, def);
        }
      }
    } else {
      var table := Arrange(hash, all, None);
      assert TableOf(hash, entries, table);
    }
  }

  lemma {:induction false} SomeOrder(s: seq<Entry>) returns (t: seq<Entry>)
    ensures Sorted(t) && multiset(t) == multiset(s)
    decreases |s|
  {
    if s == [] {
      t := [];
    } else {
      var k := LeastHash(s);
      WithoutMembers(s, k);
      var rest := SomeOrder(Without(s, k));
      AboveLeast(s[k], rest, Without(s, k));
      t := [s[k]] + rest;
    }
  }

  lemma BesideItsLike(t: seq<Entry>, p: nat, e: Entry)
    requires Sorted(t) && p < |t| && t[p].hash == e.hash && t[p].def == e.def
    ensures Sorted(t[..p + 1] + [e] + t[p + 1..])
    ensures !NeighboursDiffer(t[..p + 1] + [e] + t[p + 1..])
  {
    var r := t[..p + 1] + [e] + t[p + 1..];
    assert r[p] == t[p] && r[p + 1] == e;
  }

  /** Some order puts two entries of one definition side by side. */
  lemma DuplicateSideBySide(hash: Hash, entries: seq<(DefId, Location)>, i: nat, j: nat) returns (table: seq<Entry>)
    requires i < j < |entries| && entries[i].0 == entries[j].0
    ensures TableOf(hash, entries, table) && !NeighboursDiffer(table)
  {
    var all := Indexed(hash, entries);
    WithoutMembers(all, j);
    var rest := SomeOrder(Without(all, j));
    assert Without(all, j)[i] == all[i];
    assert all[i] in multiset(rest);
    var p :| 0 <= p < |rest| && rest[p] == all[i];
    table := rest[..p + 1] + [all[j]] + rest[p + 1..];
    InsertedIsAdded(rest, all[j], p + 1);
    BesideItsLike(rest, p, all[j]);
  }

  /** A list is accepted in every sorted order exactly when its definitions are distinct. */
  lemma NeverRefusedExactly(hash: Hash, entries: seq<(DefId, Location)>)
    ensures (forall table :: TableOf(hash, entries, table) ==> NeighboursDiffer(table)) <==> DistinctDefs(entries)
  {
    if DistinctDefs(entries) {
      forall table | TableOf(hash, entries, table)
        ensures NeighboursDiffer(table)
      {
        RefusedExactly(hash, entries, table);
      }
    } else {
      var i, j :| 0 <= i < j < |entries| && entries[i].0 == entries[j].0;
      var table := DuplicateSideBySide(hash, entries, i, j);
    }
  }

  ghost predicate Over(defs: iset<DefId>, entries: seq<(DefId, Location)>) {
    forall i :: 0 <= i < |entries| ==> entries[i].0 in defs
  }

  /** Every list with a duplicate, over the definitions, is refused in every order. */
  ghost predicate RefusesDuplicates(hash: Hash, defs: iset<DefId>) {
    forall entries, table ::
      Over(defs, entries) && !DistinctDefs(entries) && TableOf(hash, entries, table) ==> !NeighboursDiffer(table)
  }

  ghost predicate InjectiveOn(hash: Hash, defs: iset<DefId>) {
    forall a, b :: a in defs && b in defs && hash(a) == hash(b) ==> a == b
  }

  /** The documented promise, that every duplicate is refused, holds exactly when the hash has no collision. */
  lemma DuplicatesRefusedExactly(hash: Hash, defs: iset<DefId>)
    ensures RefusesDuplicates(hash, defs) <==> InjectiveOn(hash, defs)
  {
    if InjectiveOn(hash, defs) {
      forall entries, table | Over(defs, entries) && !DistinctDefs(entries) && TableOf(hash, entries, table)
        ensures !NeighboursDiffer(table)
      {
        RefusedExactly(hash, entries, table);
      }
    } else {
      var a, b :| a in defs && b in defs && hash(a) == hash(b) && a != b;
      var at := Location(0, 0);
      CollisionHidesDuplicate(hash, a, b, at, at);
      var entries := [(a, at), (b, at), (a, at)];
      assert Over(defs, entries);
      assert TableOf(hash, entries, Indexed(hash, entries));
    }
  }
}
