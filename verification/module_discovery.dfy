/** Finding the source files under the library roots by a depth-first walk. */
module ModuleDiscovery {
  // The walk follows directory links, keeps the logical path of every file, and never enters a physical directory that
  // it is already inside of.

  import opened Wrappers

  type Path = seq<string>

  /** The identity of a physical directory. */
  type Identity = nat

  /** What a directory entry leads to once links are followed; the identity of a directory may not be found. */
  datatype Target = SourceFile | Directory(identity: Option<Identity>) | Neither

  datatype Entry = Entry(name: string, target: Target)

  /** The entries of every directory that can be read, in the order of their listing. */
  type Listing = map<Identity, seq<Entry>>

  predicate IsSol(name: string) {
    |name| > 4 && name[|name| - 4..] == ".sol"
  }

  function Stem(name: string): string
    requires IsSol(name)
  {
    name[..|name| - 4]
  }

  // ----- the walk as a function -----

  /** What the walk records: a file, or the stem of a name that could be a module of a directory. */
  datatype Item = File(path: Path) | Sibling(dir: Path, stem: string)

  function OwnItems(dir: Path, e: Entry): set<Item> {
    if !IsSol(e.name) then {}
    else (if e.target.SourceFile? then {File(dir + [e.name])} else {}) + {Sibling(dir, Stem(e.name))}
  }

  /** Entering the directory `id` under the logical path `dir` from inside the directories `ancestors`. */
  function Enter(fs: Listing, dir: Path, id: Option<Identity>, ancestors: set<Identity>): set<Item>
    decreases |fs.Keys - ancestors|, 0
  {
    if id == None || id.value in ancestors || id.value !in fs then {}
    else
      InsideIsSmaller(fs, id.value, ancestors);
      Visit(fs, dir, fs[id.value], ancestors + {id.value})
  }

  function Below(fs: Listing, dir: Path, e: Entry, ancestors: set<Identity>): set<Item>
    decreases |fs.Keys - ancestors|, 1
  {
    if e.target.Directory? then Enter(fs, dir + [e.name], e.target.identity, ancestors) else {}
  }

  function Visit(fs: Listing, dir: Path, entries: seq<Entry>, ancestors: set<Identity>): set<Item>
    decreases |fs.Keys - ancestors|, 2 + |entries|
  {
    if entries == [] then {}
    else
      var last := entries[|entries| - 1];
      Visit(fs, dir, entries[..|entries| - 1], ancestors) + OwnItems(dir, last) + Below(fs, dir, last, ancestors)
  }

  lemma {:induction false} SmallerSet<T>(a: set<T>, b: set<T>)
    requires a < b
    ensures |a| < |b|
    decreases a
  {
    if a != {} {
      var x :| x in a;
      SmallerSet(a - {x}, b - {x});
    }
  }

  lemma InsideIsSmaller(fs: Listing, id: Identity, ancestors: set<Identity>)
    requires id in fs && id !in ancestors
    ensures |fs.Keys - (ancestors + {id})| < |fs.Keys - ancestors|
  {
    assert id in fs.Keys - ancestors;
    SmallerSet(fs.Keys - (ancestors + {id}), fs.Keys - ancestors);
  }

  lemma Regroup(a: set<Item>, b: set<Item>, c: set<Item>, d: set<Item>)
    ensures a + b + c + d == a + (b + c + d)
  {
  }

  lemma VisitNext(fs: Listing, dir: Path, entries: seq<Entry>, i: nat, ancestors: set<Identity>)
    requires i < |entries|
    ensures Visit(fs, dir, entries[..i + 1], ancestors) ==
      Visit(fs, dir, entries[..i], ancestors) + OwnItems(dir, entries[i]) + Below(fs, dir, entries[i], ancestors)
  {
    assert entries[..i + 1][..i] == entries[..i];
  }

  // ----- the walk in place -----

  class Collector {
    var existingFiles: set<Path>
    var siblingStems: map<Path, set<string>>
    var ancestors: set<Identity>

    constructor ()
      ensures Recorded() == {} && ancestors == {}
    {
      existingFiles, siblingStems, ancestors := {}, map[], {};
    }

    ghost function Recorded(): set<Item>
      reads this
    {
      (set p | p in existingFiles :: File(p)) + (set p, s | p in siblingStems && s in siblingStems[p] :: Sibling(p, s))
    }

    method AddStem(dir: Path, stem: string)
      modifies this`siblingStems
      ensures Recorded() == old(Recorded()) + {Sibling(dir, stem)}
    {
      var known := if dir in siblingStems then siblingStems[dir] else {};
      siblingStems := siblingStems[dir := known + {stem}];
    }

    method Record(dir: Path, entry: Entry)
      modifies this
      ensures Recorded() == old(Recorded()) + OwnItems(dir, entry) && ancestors == old(ancestors)
    {
      if IsSol(entry.name) {
        if entry.target.SourceFile? {
          existingFiles := existingFiles + {dir + [entry.name]};
          assert Recorded() == old(Recorded()) + {File(dir + [entry.name])};
        }
        AddStem(dir, Stem(entry.name));
      }
    }

    /** One entry: what it is itself, and what is below it. */
    method CollectEntry(fs: Listing, dir: Path, entry: Entry)
      modifies this
      ensures ancestors == old(ancestors)
      ensures Recorded() == old(Recorded()) + OwnItems(dir, entry) + Below(fs, dir, entry, old(ancestors))
      decreases |fs.Keys - ancestors|, 1
    {
      Record(dir, entry);
      if entry.target.Directory? {
        Collect(fs, dir + [entry.name], entry.target.identity);
      }
    }

    method CollectEntries(fs: Listing, dir: Path, entries: seq<Entry>)
      modifies this
      ensures ancestors == old(ancestors)
      ensures Recorded() == old(Recorded()) + Visit(fs, dir, entries, old(ancestors))
      decreases |fs.Keys - ancestors|, 2
    {
      ghost var before, inside := Recorded(), ancestors;
      for i := 0 to |entries|
        invariant ancestors == inside
        invariant Recorded() == before + Visit(fs, dir, entries[..i], inside)
      {
        CollectEntry(fs, dir, entries[i]);
        VisitNext(fs, dir, entries, i, inside);
        Regroup(before, Visit(fs, dir, entries[..i], inside), OwnItems(dir, entries[i]),
          Below(fs, dir, entries[i], inside));
      }
      assert entries[..|entries|] == entries;
    }

    /** Walks one directory; the directories it is inside of are the same afterwards, on every way out. */
    method Collect(fs: Listing, dir: Path, identity: Option<Identity>)
      modifies this
      ensures ancestors == old(ancestors)
      ensures Recorded() == old(Recorded()) + Enter(fs, dir, identity, old(ancestors))
      decreases |fs.Keys - ancestors|, 0
    {
      if identity == None {
        return;
      }
      var id := identity.value;
      if id in ancestors {
        return;
      }
      ancestors := ancestors + {id};
      if id !in fs {
        ancestors := ancestors - {id};
        return;
      }
      InsideIsSmaller(fs, id, old(ancestors));
      CollectEntries(fs, dir, fs[id]);
      ancestors := ancestors - {id};
    }
  }

  // ----- which items are found -----

  predicate Links(fs: Listing, from: Identity, name: string, to: Identity) {
    from in fs && Entry(name, Directory(Some(to))) in fs[from]
  }

  /** Going down from directory to directory by the names. */
  ghost predicate Chain(fs: Listing, ids: seq<Identity>, names: seq<string>) {
    && |ids| == |names| + 1
    && (forall i :: 0 <= i < |ids| ==> ids[i] in fs)
    && (forall i :: 0 <= i < |names| ==> Links(fs, ids[i], names[i], ids[i + 1]))
  }

  /** No physical directory twice, and none of the ancestors. */
  ghost predicate NoRepeat(ids: seq<Identity>, ancestors: set<Identity>) {
    && (forall i :: 0 <= i < |ids| ==> ids[i] !in ancestors)
    && (forall i, j :: 0 <= i < j < |ids| ==> ids[i] != ids[j])
  }

  /** A source file is recorded under its name, and every name `stem.sol` under its stem, whatever it is the name of. */
  ghost predicate Makes(dir: Path, e: Entry, item: Item) {
    exists stem: string :: stem != "" && e.name == stem + ".sol"
      && (item == Sibling(dir, stem) || (item == File(dir + [e.name]) && e.target == SourceFile))
  }

  lemma OwnItemsExactly(dir: Path, e: Entry, item: Item)
    ensures item in OwnItems(dir, e) <==> Makes(dir, e, item)
  {
    if IsSol(e.name) {
      assert e.name == Stem(e.name) + ".sol";
    }
    forall stem: string | stem != "" && e.name == stem + ".sol"
      ensures IsSol(e.name) && Stem(e.name) == stem
    {
      assert e.name[|e.name| - 4..] == ".sol";
    }
  }

  /** The chain leads from `id` to a directory with the entry, which makes the item. */
  ghost predicate LeadsTo(
    fs: Listing, dir: Path, id: Identity, ancestors: set<Identity>, ids: seq<Identity>, names: seq<string>, e: Entry,
    item: Item)
  {
    && Chain(fs, ids, names) && NoRepeat(ids, ancestors) && ids[0] == id
    && e in fs[ids[|names|]] && Makes(dir + names, e, item)
  }

  lemma {:induction false} VisitMembers(
    fs: Listing, dir: Path, entries: seq<Entry>, ancestors: set<Identity>, item: Item)
    ensures item in Visit(fs, dir, entries, ancestors) <==>
      exists e :: e in entries && (item in OwnItems(dir, e) || item in Below(fs, dir, e, ancestors))
    decreases |entries|
  {
    if entries != [] {
      var n := |entries| - 1;
      VisitMembers(fs, dir, entries[..n], ancestors, item);
      assert entries == entries[..n] + [entries[n]];
    }
  }

  lemma LeadsFromAbove(
    fs: Listing, dir: Path, id: Identity, ancestors: set<Identity>, name: string, next: Identity, ids: seq<Identity>,
    names: seq<string>, e: Entry, item: Item)
    requires id !in ancestors && Links(fs, id, name, next)
    requires LeadsTo(fs, dir + [name], next, ancestors + {id}, ids, names, e, item)
    ensures LeadsTo(fs, dir, id, ancestors, [id] + ids, [name] + names, e, item)
  {
    assert dir + [name] + names == dir + ([name] + names);
    var all, steps := [id] + ids, [name] + names;
    forall i | 0 <= i < |steps|
      ensures Links(fs, all[i], steps[i], all[i + 1])
    {
      if i > 0 {
        assert Links(fs, ids[i - 1], names[i - 1], ids[i - 1 + 1]);
      }
    }
  }

  lemma {:induction false} FoundHasChain(fs: Listing, dir: Path, id: Identity, ancestors: set<Identity>, item: Item)
    returns (ids: seq<Identity>, names: seq<string>, e: Entry)
    requires item in Enter(fs, dir, Some(id), ancestors)
    ensures LeadsTo(fs, dir, id, ancestors, ids, names, e, item)
    decreases |fs.Keys - ancestors|
  {
    VisitMembers(fs, dir, fs[id], ancestors + {id}, item);
    e :| e in fs[id] && (item in OwnItems(dir, e) || item in Below(fs, dir, e, ancestors + {id}));
    if item in OwnItems(dir, e) {
      OwnItemsExactly(dir, e, item);
      ids, names := [id], [];
      assert dir + names == dir;
    } else {
      assert item in Enter(fs, dir + [e.name], e.target.identity, ancestors + {id});
      var step, next := e, e.target.identity.value;
      assert step == Entry(step.name, Directory(Some(next)));
      InsideIsSmaller(fs, id, ancestors);
      ids, names, e := FoundHasChain(fs, dir + [step.name], next, ancestors + {id}, item);
      LeadsFromAbove(fs, dir, id, ancestors, step.name, next, ids, names, e, item);
      ids, names := [id] + ids, [step.name] + names;
    }
  }

  lemma {:induction false} ChainIsFound(
    fs: Listing, dir: Path, id: Identity, ancestors: set<Identity>, ids: seq<Identity>, names: seq<string>, e: Entry,
    item: Item)
    requires LeadsTo(fs, dir, id, ancestors, ids, names, e, item)
    ensures item in Enter(fs, dir, Some(id), ancestors)
    decreases |names|
  {
    if names == [] {
      assert dir + names == dir;
      OwnItemsExactly(dir, e, item);
    } else {
      var step := Entry(names[0], Directory(Some(ids[1])));
      assert Links(fs, ids[0], names[0], ids[1]);
      forall i | 0 <= i < |names| - 1
        ensures Links(fs, ids[1..][i], names[1..][i], ids[1..][i + 1])
      {
        assert Links(fs, ids[i + 1], names[i + 1], ids[i + 1 + 1]);
      }
      assert dir + [names[0]] + names[1..] == dir + names;
      ChainIsFound(fs, dir + [names[0]], ids[1], ancestors + {id}, ids[1..], names[1..], e, item);
      assert item in Below(fs, dir, step, ancestors + {id});
    }
    VisitMembers(fs, dir, fs[id], ancestors + {id}, item);
  }

  /** Exactly the items that a chain of directories without repeat leads to are found. */
  lemma FoundExactly(fs: Listing, dir: Path, id: Identity, ancestors: set<Identity>, item: Item)
    ensures item in Enter(fs, dir, Some(id), ancestors) <==>
      exists ids, names, e :: LeadsTo(fs, dir, id, ancestors, ids, names, e, item)
  {
    if item in Enter(fs, dir, Some(id), ancestors) {
      var ids, names, e := FoundHasChain(fs, dir, id, ancestors, item);
    }
    forall ids, names, e | LeadsTo(fs, dir, id, ancestors, ids, names, e, item)
      ensures item in Enter(fs, dir, Some(id), ancestors)
    {
      ChainIsFound(fs, dir, id, ancestors, ids, names, e, item);
    }
  }

  /** The same directories with the same entries, listed in whatever order. */
  ghost predicate SameEntries(fs: Listing, other: Listing) {
    fs.Keys == other.Keys && forall id, e :: id in fs ==> (e in fs[id] <==> e in other[id])
  }

  lemma SameChains(
    fs: Listing, other: Listing, dir: Path, id: Identity, ancestors: set<Identity>, ids: seq<Identity>,
    names: seq<string>, e: Entry, item: Item)
    requires SameEntries(fs, other) && LeadsTo(fs, dir, id, ancestors, ids, names, e, item)
    ensures LeadsTo(other, dir, id, ancestors, ids, names, e, item)
  {
    forall i | 0 <= i < |names|
      ensures Links(other, ids[i], names[i], ids[i + 1])
    {
      assert Links(fs, ids[i], names[i], ids[i + 1]);
    }
  }

  lemma FoundInOther(fs: Listing, other: Listing, dir: Path, id: Identity, ancestors: set<Identity>, item: Item)
    requires SameEntries(fs, other) && item in Enter(fs, dir, Some(id), ancestors)
    ensures item in Enter(other, dir, Some(id), ancestors)
  {
    var ids, names, e := FoundHasChain(fs, dir, id, ancestors, item);
    SameChains(fs, other, dir, id, ancestors, ids, names, e, item);
    ChainIsFound(other, dir, id, ancestors, ids, names, e, item);
  }

  /** What is found does not depend on the order in which directories list their entries. */
  lemma OrderDoesNotMatter(fs: Listing, other: Listing, dir: Path, id: Identity, ancestors: set<Identity>)
    requires SameEntries(fs, other)
    ensures Enter(fs, dir, Some(id), ancestors) == Enter(other, dir, Some(id), ancestors)
  {
    forall item | item in Enter(fs, dir, Some(id), ancestors)
      ensures item in Enter(other, dir, Some(id), ancestors)
    {
      FoundInOther(fs, other, dir, id, ancestors, item);
    }
    forall item | item in Enter(other, dir, Some(id), ancestors)
      ensures item in Enter(fs, dir, Some(id), ancestors)
    {
      FoundInOther(other, fs, dir, id, ancestors, item);
    }
  }

  // ----- the snapshot -----

  datatype Root = Root(path: Path, identity: Option<Identity>)

  function FromRoots(fs: Listing, roots: seq<Root>): set<Item> {
    if roots == [] then {}
    else
      var n := |roots| - 1;
      FromRoots(fs, roots[..n]) + Enter(fs, roots[n].path, roots[n].identity, {})
  }

  /** A chain leads from the root, if its directory can be found, to the item. */
  ghost predicate Reached(fs: Listing, root: Root, item: Item) {
    root.identity.Some?
    && exists ids, names, e :: LeadsTo(fs, root.path, root.identity.value, {}, ids, names, e, item)
  }

  lemma {:induction false} FromRootsExactly(fs: Listing, roots: seq<Root>, item: Item)
    ensures item in FromRoots(fs, roots) <==> exists r :: r in roots && Reached(fs, r, item)
    decreases |roots|
  {
    if roots != [] {
      var (front, last) := (roots[..|roots| - 1], roots[|roots| - 1]);
      assert roots == front + [last];
      FromRootsExactly(fs, front, item);
      if last.identity.Some? {
        FoundExactly(fs, last.path, last.identity.value, {}, item);
      }
      assert item in Enter(fs, last.path, last.identity, {}) <==> Reached(fs, last, item);
    }
  }

  /** Other roots, or the same in another order, hide nothing: a larger set of roots records a larger set of items. */
  lemma MoreRootsRecordMore(fs: Listing, roots: seq<Root>, more: seq<Root>)
    requires forall r :: r in roots ==> r in more
    ensures FromRoots(fs, roots) <= FromRoots(fs, more)
  {
    forall item | item in FromRoots(fs, roots)
      ensures item in FromRoots(fs, more)
    {
      FromRootsExactly(fs, roots, item);
      FromRootsExactly(fs, more, item);
    }
  }

  /** One walk for every root: recorded is exactly what a chain leads to from one of them. */
  method ModuleFsSnapshot(fs: Listing, roots: seq<Root>) returns (snapshot: Collector)
    ensures fresh(snapshot) && snapshot.Recorded() == FromRoots(fs, roots)
    ensures forall item :: item in snapshot.Recorded() <==> exists r :: r in roots && Reached(fs, r, item)
  {
    snapshot := new Collector();
    for i := 0 to |roots|
      invariant fresh(snapshot) && snapshot.ancestors == {}
      invariant snapshot.Recorded() == FromRoots(fs, roots[..i])
    {
      snapshot.Collect(fs, roots[i].path, roots[i].identity);
      assert roots[..i + 1][..i] == roots[..i];
    }
    assert roots[..|roots|] == roots;
    forall item
      ensures item in snapshot.Recorded() <==> exists r :: r in roots && Reached(fs, r, item)
    {
      FromRootsExactly(fs, roots, item);
    }
  }
}
