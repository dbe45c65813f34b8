/** Identities of definitions: the numbering of duplicates, and the table that finds where a definition is. */
module AnchorTables {
  // The table is sorted by hash; equality of definitions decides within one hash.

  import opened Wrappers

  datatype BaseKey =
    BaseKey(file: nat, owner: Option<DefId>, kind: nat, name: Option<string>, fingerprint: Option<string>)

  datatype DefId = DefId(base: BaseKey, disambiguator: nat)

  const MAX_COUNT: nat := 0xffff_ffff

  // ----- numbering duplicates -----

  function Uses(bases: seq<BaseKey>, base: BaseKey): nat {
    if bases == [] then 0
    else Uses(bases[..|bases| - 1], base) + if bases[|bases| - 1] == base then 1 else 0
  }

  /** The count saturates. */
  function Ordinal(uses: nat): nat {
    if uses < MAX_COUNT then uses else MAX_COUNT
  }

  /** The definition that use `i` of a run of allocations gets; only earlier uses of the same key matter. */
  function Allocated(bases: seq<BaseKey>, i: nat): DefId
    requires i < |bases|
  {
    DefId(bases[i], Ordinal(Uses(bases[..i], bases[i])))
  }

  class KeyCanonicalizer {
    var defCounts: map<BaseKey, nat>
    ghost var used: seq<BaseKey>

    ghost predicate Valid()
      reads this
    {
      forall k :: (if k in defCounts then defCounts[k] else 0) == Ordinal(Uses(used, k))
    }

    constructor ()
      ensures Valid() && used == []
    {
      defCounts := map[];
      used := [];
    }

    method AllocDef(base: BaseKey) returns (def: DefId)
      requires Valid()
      modifies this
      ensures Valid() && used == old(used) + [base]
      ensures def == Allocated(used, |used| - 1)
    {
      var count := if base in defCounts then defCounts[base] else 0;
      def := DefId(base, count);
      defCounts := defCounts[base := if count < MAX_COUNT then count + 1 else count];
      used := used + [base];
      assert used[..|used| - 1] == old(used);
    }
  }

  lemma {:induction false} UsesGrow(bases: seq<BaseKey>, base: BaseKey, i: nat, j: nat)
    requires i <= j <= |bases|
    ensures Uses(bases[..i], base) <= Uses(bases[..j], base)
    ensures i < j && bases[i] == base ==> Uses(bases[..i], base) < Uses(bases[..j], base)
    decreases j
  {
    if i < j {
      UsesGrow(bases, base, i, j - 1);
      assert bases[..j][..j - 1] == bases[..j - 1];
    }
  }

  /** Every use below the total has its place. */
  lemma {:induction false} PlaceOfUse(bases: seq<BaseKey>, base: BaseKey, n: nat) returns (i: nat)
    requires n < Uses(bases, base)
    ensures i < |bases| && bases[i] == base && Uses(bases[..i], base) == n
  {
    var last := |bases| - 1;
    if bases[last] == base && Uses(bases[..last], base) == n {
      i := last;
    } else {
      i := PlaceOfUse(bases[..last], base, n);
      assert bases[..last][..i] == bases[..i];
    }
  }

  /** Two allocations give different definitions as long as a key is used at most 2^32 times. */
  lemma FewUsesAreDistinct(bases: seq<BaseKey>, i: nat, j: nat)
    requires i < j < |bases| && Uses(bases, bases[i]) <= MAX_COUNT + 1
    ensures Allocated(bases, i) != Allocated(bases, j)
  {
    if bases[i] == bases[j] {
      UsesGrow(bases, bases[i], i, j);
      UsesGrow(bases, bases[j], j, |bases|);
      assert bases[..|bases|] == bases;
    }
  }

  /** All allocations of a run are different exactly when no key is used more than 2^32 times. */
  lemma AllocationsAreDistinct(bases: seq<BaseKey>)
    ensures (forall i, j :: 0 <= i < j < |bases| ==> Allocated(bases, i) != Allocated(bases, j))
      <==> (forall base :: Uses(bases, base) <= 0x1_0000_0000)
  {
    if forall base :: Uses(bases, base) <= MAX_COUNT + 1 {
      forall i, j | 0 <= i < j < |bases|
        ensures Allocated(bases, i) != Allocated(bases, j)
      {
        FewUsesAreDistinct(bases, i, j);
      }
    } else {
      var base :| Uses(bases, base) > MAX_COUNT + 1;
      var i := PlaceOfUse(bases, base, MAX_COUNT);
      var j := PlaceOfUse(bases, base, MAX_COUNT + 1);
      if j < i {
        UsesGrow(bases, base, j, i);
      }
      assert i != j;
      assert Allocated(bases, i) == Allocated(bases, j);
    }
  }

  // ----- the table -----

  datatype Location = Location(file: nat, baseOffset: nat)

  datatype Entry = Entry(hash: nat, def: DefId, location: Location)

  type Hash = DefId -> nat

  function Indexed(hash: Hash, entries: seq<(DefId, Location)>): seq<Entry> {
    seq(|entries|, i requires 0 <= i < |entries| => Entry(hash(entries[i].0), entries[i].0, entries[i].1))
  }

  ghost predicate Sorted(table: seq<Entry>) {
    forall i, j :: 0 <= i < j < |table| ==> table[i].hash <= table[j].hash
  }

  /** The entries in some order with ascending hashes; entries of one hash may come in any order. */
  ghost predicate TableOf(hash: Hash, entries: seq<(DefId, Location)>, table: seq<Entry>) {
    Sorted(table) && multiset(table) == multiset(Indexed(hash, entries))
  }

  /** No definition stands next to itself. */
  predicate NeighboursDiffer(table: seq<Entry>) {
    forall i :: 0 <= i < |table| - 1 ==> table[i].def != table[i + 1].def
  }

  method InsertByHash(table: seq<Entry>, e: Entry) returns (r: seq<Entry>)
    requires Sorted(table)
    ensures Sorted(r) && multiset(r) == multiset(table) + multiset{e}
  {
    var i: nat := |table|;
    while i > 0 && table[i - 1].hash > e.hash
      invariant i <= |table|
      invariant forall k :: i <= k < |table| ==> table[k].hash > e.hash
    {
      i := i - 1;
    }
    InsertedIsSorted(table, e, i);
    InsertedIsAdded(table, e, i);
    r := table[..i] + [e] + table[i..];
  }

  lemma InsertedIsSorted(table: seq<Entry>, e: Entry, i: nat)
    requires Sorted(table) && i <= |table|
    requires i > 0 ==> table[i - 1].hash <= e.hash
    requires forall k :: i <= k < |table| ==> table[k].hash > e.hash
    ensures Sorted(table[..i] + [e] + table[i..])
  {
  }

  lemma InsertedIsAdded(table: seq<Entry>, e: Entry, i: nat)
    requires i <= |table|
    ensures multiset(table[..i] + [e] + table[i..]) == multiset(table) + multiset{e}
  {
    assert table == table[..i] + table[i..];
  }

  /** The table, or nothing where the source panics. */
  method FromDefLocations(hash: Hash, entries: seq<(DefId, Location)>) returns (table: Option<seq<Entry>>)
    ensures table.Some? ==> TableOf(hash, entries, table.value) && NeighboursDiffer(table.value)
    ensures table.Some? ==> forall e | e in table.value :: e.hash == hash(e.def)
    ensures table.None? ==> exists t :: TableOf(hash, entries, t) && !NeighboursDiffer(t)
  {
    var indexed: seq<Entry> := [];
    for i := 0 to |entries|
      invariant Sorted(indexed)
      invariant multiset(indexed) == multiset(Indexed(hash, entries)[..i])
    {
      var e := Entry(hash(entries[i].0), entries[i].0, entries[i].1);
      assert Indexed(hash, entries)[..i + 1] == Indexed(hash, entries)[..i] + [e];
      indexed := InsertByHash(indexed, e);
    }
    assert Indexed(hash, entries)[..|entries|] == Indexed(hash, entries);
    var i: nat := 0;
    while i + 1 < |indexed|
      invariant i == 0 || i < |indexed|
      invariant forall k :: 0 <= k < i ==> indexed[k].def != indexed[k + 1].def
    {
      if indexed[i].def == indexed[i + 1].def {
        assert TableOf(hash, entries, indexed) && !NeighboursDiffer(indexed);
        return None;
      }
      i := i + 1;
    }
    TableHashes(hash, entries, indexed);
    return Some(indexed);
  }

  /** The first place from which on hashes are not below the target. */
  method FirstNotBelow(table: seq<Entry>, target: nat) returns (at: nat)
    requires Sorted(table)
    ensures at <= |table|
    ensures forall i :: 0 <= i < at ==> table[i].hash < target
    ensures forall i :: at <= i < |table| ==> table[i].hash >= target
  {
    var low, high := 0, |table|;
    while low < high
      invariant low <= high <= |table|
      invariant forall i :: 0 <= i < low ==> table[i].hash < target
      invariant forall i :: high <= i < |table| ==> table[i].hash >= target
    {
      var mid := (low + high) / 2;
      if table[mid].hash < target {
        low := mid + 1;
      } else {
        high := mid;
      }
    }
    at := low;
  }

  /** The first entry of the definition among those of its hash. */
  method ResolveDefLocation(hash: Hash, table: seq<Entry>, def: DefId) returns (r: Option<Location>)
    requires Sorted(table)
    requires forall e | e in table :: e.hash == hash(e.def)
    ensures Resolved(hash, table, def, r)
  {
    var start := FirstNotBelow(table, hash(def));
    var count := FirstNotBelow(table[start..], hash(def) + 1);
    var end := start + count;
    assert forall k :: end <= k < |table| ==> table[k] == table[start..][k - start];
    for i := start to end
      invariant start <= end <= |table|
      invariant forall k :: start <= k < i ==> table[k].def != def
    {
      if table[i].def == def {
        return Some(table[i].location);
      }
    }
    return None;
  }

  ghost predicate DistinctDefs(entries: seq<(DefId, Location)>) {
    forall i, j :: 0 <= i < j < |entries| ==> entries[i].0 != entries[j].0
  }

  /** What the association list answers. */
  function Find(entries: seq<(DefId, Location)>, def: DefId): Option<Location> {
    if entries == [] then None
    else if entries[0].0 == def then Some(entries[0].1)
    else Find(entries[1..], def)
  }

  lemma {:induction false} FindFinds(entries: seq<(DefId, Location)>, def: DefId)
    requires DistinctDefs(entries)
    ensures Find(entries, def).None? <==> forall i :: 0 <= i < |entries| ==> entries[i].0 != def
    ensures forall i :: 0 <= i < |entries| && entries[i].0 == def ==> Find(entries, def) == Some(entries[i].1)
  {
    if entries != [] {
      FindFinds(entries[1..], def);
      forall i | 0 < i < |entries|
        ensures entries[i] == entries[1..][i - 1]
      {
      }
      assert forall i :: 0 <= i < |entries[1..]| ==> entries[1..][i] == entries[i + 1];
    }
  }

  lemma TableMembers(hash: Hash, entries: seq<(DefId, Location)>, table: seq<Entry>, e: Entry)
    requires TableOf(hash, entries, table)
    ensures e in table <==> e in Indexed(hash, entries)
  {
    assert e in table <==> e in multiset(table);
    assert e in Indexed(hash, entries) <==> e in multiset(Indexed(hash, entries));
  }

  lemma TableHashes(hash: Hash, entries: seq<(DefId, Location)>, table: seq<Entry>)
    requires TableOf(hash, entries, table)
    ensures forall e | e in table :: e.hash == hash(e.def)
  {
    forall e | e in table
      ensures e.hash == hash(e.def)
    {
      TableMembers(hash, entries, table, e);
    }
  }

  /** What an answer of the search has to satisfy. */
  ghost predicate Resolved(hash: Hash, table: seq<Entry>, def: DefId, r: Option<Location>) {
    && (r.Some? ==> Entry(hash(def), def, r.value) in table)
    && (r.None? ==> forall i :: 0 <= i < |table| && table[i].hash == hash(def) ==> table[i].def != def)
  }

  /** For any hash function, however many collisions, the table answers like the list it was made from. */
  lemma TableAgreesWithList(
    hash: Hash, entries: seq<(DefId, Location)>, table: seq<Entry>, def: DefId, r: Option<Location>)
    requires TableOf(hash, entries, table) && DistinctDefs(entries) && Resolved(hash, table, def, r)
    ensures r == Find(entries, def)
  {
    FindFinds(entries, def);
    var all := Indexed(hash, entries);
    if r.Some? {
      TableMembers(hash, entries, table, Entry(hash(def), def, r.value));
      var i :| 0 <= i < |all| && all[i] == Entry(hash(def), def, r.value);
      assert entries[i].0 == def;
    } else {
      forall i | 0 <= i < |entries|
        ensures entries[i].0 != def
      {
        assert all[i] in all;
        TableMembers(hash, entries, table, all[i]);
        var k :| 0 <= k < |table| && table[k] == all[i];
      }
    }
  }

  // ----- when the table is refused -----

  lemma {:induction false} TwicePositions<T>(s: seq<T>, x: T) returns (i: nat, j: nat)
    requires multiset(s)[x] >= 2
    ensures i < j < |s| && s[i] == x && s[j] == x
  {
    var n := |s| - 1;
    assert s == s[..n] + [s[n]];
    if s[n] == x {
      assert x in multiset(s[..n]);
      i :| 0 <= i < n && s[i] == x;
      j := n;
    } else {
      i, j := TwicePositions(s[..n], x);
    }
  }

  lemma TwiceCounts<T>(s: seq<T>, i: nat, j: nat)
    requires i < j < |s| && s[i] == s[j]
    ensures multiset(s)[s[i]] >= 2
  {
    assert s == s[..i] + [s[i]] + s[i + 1..j] + [s[j]] + s[j + 1..];
  }

  lemma DistinctInIndex(hash: Hash, entries: seq<(DefId, Location)>, a: nat, b: nat)
    requires DistinctDefs(entries) && a < b < |entries|
    ensures Indexed(hash, entries)[a] != Indexed(hash, entries)[b]
  {
    assert entries[a].0 != entries[b].0;
  }

  /** Definitions that are distinct in the list are distinct in the table. */
  lemma DistinctInTable(hash: Hash, entries: seq<(DefId, Location)>, table: seq<Entry>, i: nat, j: nat)
    requires TableOf(hash, entries, table) && DistinctDefs(entries) && i < j < |table|
    ensures table[i].def != table[j].def
  {
    var all := Indexed(hash, entries);
    TableMembers(hash, entries, table, table[i]);
    TableMembers(hash, entries, table, table[j]);
    var k :| 0 <= k < |all| && all[k] == table[i];
    var l :| 0 <= l < |all| && all[l] == table[j];
    assert all[k].def == entries[k].0 && all[l].def == entries[l].0;
    if table[i] == table[j] {
      TwiceCounts(table, i, j);
      var a, b := TwicePositions(all, table[i]);
      DistinctInIndex(hash, entries, a, b);
    }
  }

  /** Two entries of one definition in the list are two places of the table. */
  lemma DuplicateInTable(hash: Hash, entries: seq<(DefId, Location)>, table: seq<Entry>, i: nat, j: nat)
    returns (p: nat, q: nat)
    requires TableOf(hash, entries, table) && i < j < |entries| && entries[i].0 == entries[j].0
    ensures p < q < |table| && table[p].def == table[q].def == entries[i].0
  {
    var all := Indexed(hash, entries);
    assert all[i] in all && all[j] in all;
    TableMembers(hash, entries, table, all[i]);
    TableMembers(hash, entries, table, all[j]);
    if all[i] == all[j] {
      TwiceCounts(all, i, j);
      p, q := TwicePositions(table, all[i]);
    } else {
      var k :| 0 <= k < |table| && table[k] == all[i];
      var l :| 0 <= l < |table| && table[l] == all[j];
      p, q := if k < l then k else l, if k < l then l else k;
    }
  }

  /** The hash tells the definitions of the list apart. */
  ghost predicate CollisionFree(hash: Hash, entries: seq<(DefId, Location)>) {
    forall i, j :: 0 <= i < |entries| && 0 <= j < |entries| && hash(entries[i].0) == hash(entries[j].0) ==>
      entries[i].0 == entries[j].0
  }

  /** Distinct definitions are never refused, and without collisions every duplicate is. */
  lemma RefusedExactly(hash: Hash, entries: seq<(DefId, Location)>, table: seq<Entry>)
    requires TableOf(hash, entries, table)
    ensures DistinctDefs(entries) ==> NeighboursDiffer(table)
    ensures CollisionFree(hash, entries) && NeighboursDiffer(table) ==> DistinctDefs(entries)
  {
    if DistinctDefs(entries) {
      forall i | 0 <= i < |table| - 1
        ensures table[i].def != table[i + 1].def
      {
        DistinctInTable(hash, entries, table, i, i + 1);
      }
    }
    if CollisionFree(hash, entries) && NeighboursDiffer(table) {
      forall i, j | 0 <= i < j < |entries|
        ensures entries[i].0 != entries[j].0
      {
        if entries[i].0 == entries[j].0 {
          var p, q := DuplicateInTable(hash, entries, table, i, j);
          NeighboursOfDuplicate(hash, entries, table, p, q);
        }
      }
    }
  }

  lemma EntryOfList(hash: Hash, entries: seq<(DefId, Location)>, table: seq<Entry>, p: nat) returns (i: nat)
    requires TableOf(hash, entries, table) && p < |table|
    ensures i < |entries| && table[p].def == entries[i].0 && table[p].hash == hash(entries[i].0)
  {
    TableMembers(hash, entries, table, table[p]);
    var all := Indexed(hash, entries);
    i :| 0 <= i < |all| && all[i] == table[p];
  }

  lemma NeighboursOfDuplicate(hash: Hash, entries: seq<(DefId, Location)>, table: seq<Entry>, p: nat, q: nat)
    requires TableOf(hash, entries, table) && CollisionFree(hash, entries)
    requires p < q < |table| && table[p].def == table[q].def
    ensures !NeighboursDiffer(table)
  {
    var i := EntryOfList(hash, entries, table, p);
    var j := EntryOfList(hash, entries, table, p + 1);
    var k := EntryOfList(hash, entries, table, q);
    assert table[p].hash <= table[p + 1].hash <= table[q].hash;
    assert table[p].def == table[p + 1].def;
  }

  /** Under any hash, two definitions that collide can hide a duplicate between them. */
  lemma CollisionHidesDuplicate(hash: Hash, a: DefId, b: DefId, at: Location, elsewhere: Location)
    requires a != b && hash(a) == hash(b)
    ensures var entries := [(a, at), (b, at), (a, elsewhere)];
      var table := Indexed(hash, entries);
      !DistinctDefs(entries) && TableOf(hash, entries, table) && NeighboursDiffer(table)
  {
    var entries := [(a, at), (b, at), (a, elsewhere)];
    assert entries[0].0 == entries[2].0;
  }
}
