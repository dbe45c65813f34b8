/** Loading every module that the entry module reaches: a worklist over the graph of imports and exports. */
module ModuleLoading {
  import opened Wrappers

  type Key = seq<string>
  type Source = string

  /** A reference that resolved: the module it names and the file that holds it. */
  datatype Target = Target(key: Key, path: string)

  /** What the modules refer to, and what loading a target gives; the key sets of the graph are finite. */
  datatype World = World(targets: (Key, Source) -> seq<Target>, load: Target -> Result<Source, string>)

  type Files = map<Key, Source>

  predicate Refers(w: World, files: Files, from: Key, to: Key) {
    from in files && exists t :: t in w.targets(from, files[from]) && t.key == to
  }

  /** A way through loaded modules. */
  ghost predicate Way(w: World, files: Files, ks: seq<Key>) {
    ks != [] && forall i :: 0 <= i < |ks| - 1 ==> Refers(w, files, ks[i], ks[i + 1])
  }

  ghost predicate Reachable(w: World, files: Files, entry: Key, k: Key) {
    exists ks :: Way(w, files, ks) && ks[0] == entry && ks[|ks| - 1] == k
  }

  /** Nothing that was loaded is lost or changed. */
  predicate Extends(files: Files, before: Files) {
    forall k | k in before :: k in files && files[k] == before[k]
  }

  lemma ReachableStart(w: World, files: Files, entry: Key)
    ensures Reachable(w, files, entry, entry)
  {
    assert Way(w, files, [entry]);
  }

  lemma ReachableStep(w: World, files: Files, entry: Key, k: Key, next: Key)
    requires Reachable(w, files, entry, k) && Refers(w, files, k, next)
    ensures Reachable(w, files, entry, next)
  {
    var ks :| Way(w, files, ks) && ks[0] == entry && ks[|ks| - 1] == k;
    assert Way(w, files, ks + [next]);
  }

  lemma ReachableGrows(w: World, before: Files, files: Files, entry: Key, k: Key)
    requires Reachable(w, before, entry, k) && Extends(files, before)
    ensures Reachable(w, files, entry, k)
  {
    var ks :| Way(w, before, ks) && ks[0] == entry && ks[|ks| - 1] == k;
    forall i | 0 <= i < |ks| - 1
      ensures Refers(w, files, ks[i], ks[i + 1])
    {
      assert Refers(w, before, ks[i], ks[i + 1]);
    }
  }

  /** All the keys there are: the references of their modules stay among them, whatever the modules hold. */
  ghost predicate Closed(w: World, universe: set<Key>) {
    forall k, source, t :: k in universe && t in w.targets(k, source) ==> t.key in universe
  }

  /** The module came from a reference of a module that is reached. */
  ghost predicate Loaded(w: World, files: Files, entry: Key, k: Key) {
    && k in files
    && exists m, t ::
         && Reachable(w, files, entry, m) && m in files
         && t in w.targets(m, files[m]) && t.key == k && w.load(t) == Success(files[k])
  }

  /** Only modules that are reached were added. */
  ghost predicate NothingElse(w: World, before: Files, files: Files, entry: Key) {
    forall k {:trigger Loaded(w, files, entry, k)} :: k in files && k !in before ==> Loaded(w, files, entry, k)
  }

  /** Modules reached so far: the ones to expand and the expanded ones. */
  ghost predicate AllReachable(w: World, files: Files, entry: Key, ks: set<Key>) {
    forall k :: k in ks ==> Reachable(w, files, entry, k)
  }

  /** The references of the module are loaded, and expanded or about to be. */
  ghost predicate Expanded(w: World, files: Files, known: set<Key>, k: Key, count: nat)
    requires k in files
  {
    count <= |w.targets(k, files[k])|
    && forall i :: 0 <= i < count ==>
         w.targets(k, files[k])[i].key in files && w.targets(k, files[k])[i].key in known
  }

  ghost predicate AllExpanded(w: World, files: Files, known: set<Key>, visited: set<Key>) {
    forall k :: k in visited && k in files ==> Expanded(w, files, known, k, |w.targets(k, files[k])|)
  }

  /** A reference of a reached module that does not load. */
  ghost predicate Blocked(w: World, files: Files, entry: Key, message: string) {
    exists m, t ::
      && Reachable(w, files, entry, m) && m in files && t in w.targets(m, files[m])
      && t.key !in files && w.load(t) == Failure(message)
  }

  lemma {:induction false} WayIsVisited(w: World, files: Files, visited: set<Key>, ks: seq<Key>)
    requires Way(w, files, ks) && ks[0] in visited && AllExpanded(w, files, visited, visited)
    ensures ks[|ks| - 1] in visited && (|ks| > 1 ==> ks[|ks| - 1] in files)
    decreases |ks|
  {
    if |ks| > 1 {
      var n := |ks| - 1;
      var front := ks[..n];
      forall i | 0 <= i < |front| - 1
        ensures Refers(w, files, front[i], front[i + 1])
      {
        assert Refers(w, files, ks[i], ks[i + 1]);
      }
      WayIsVisited(w, files, visited, front);
      assert Refers(w, files, ks[n - 1], ks[n - 1 + 1]);
      var t :| t in w.targets(ks[n - 1], files[ks[n - 1]]) && t.key == ks[n];
      var i :| 0 <= i < |w.targets(ks[n - 1], files[ks[n - 1]])| && w.targets(ks[n - 1], files[ks[n - 1]])[i] == t;
    }
  }

  /** Every module that is reached is loaded, when the entry is. */
  ghost predicate AllLoaded(w: World, files: Files, entry: Key) {
    entry in files ==> forall k :: Reachable(w, files, entry, k) ==> k in files
  }

  lemma VisitedIsAll(w: World, files: Files, visited: set<Key>, entry: Key)
    requires entry in visited && AllExpanded(w, files, visited, visited)
    ensures AllLoaded(w, files, entry)
    ensures forall k :: Reachable(w, files, entry, k) ==> k in visited
  {
    forall k | Reachable(w, files, entry, k)
      ensures k in visited && (entry in files ==> k in files)
    {
      var ks :| Way(w, files, ks) && ks[0] == entry && ks[|ks| - 1] == k;
      WayIsVisited(w, files, visited, ks);
    }
  }

  function Elements(queue: seq<Key>): set<Key> {
    set k | k in queue
  }

  function KeysOf(targets: seq<Target>): seq<Key> {
    seq(|targets|, i requires 0 <= i < |targets| => targets[i].key)
  }

  ghost predicate NoDuplicates(ks: seq<Key>) {
    forall i, j :: 0 <= i < j < |ks| ==> ks[i] != ks[j]
  }

  // ----- what one loaded module keeps -----

  lemma LoadingKeepsReachable(w: World, before: Files, files: Files, entry: Key, known: set<Key>)
    requires Extends(files, before)
    requires AllReachable(w, before, entry, known)
    ensures AllReachable(w, files, entry, known)
  {
    forall k | k in known
      ensures Reachable(w, files, entry, k)
    {
      ReachableGrows(w, before, files, entry, k);
    }
  }

  lemma LoadingKeepsOrigins(w: World, start: Files, before: Files, files: Files, entry: Key)
    requires Extends(files, before) && NothingElse(w, start, before, entry)
    requires NothingElse(w, before, files, entry)
    ensures NothingElse(w, start, files, entry)
  {
    forall k | k in files && k !in start
      ensures Loaded(w, files, entry, k)
    {
      if k in before {
        assert Loaded(w, before, entry, k);
        var m, t :| Reachable(w, before, entry, m) && m in before
          && t in w.targets(m, before[m]) && t.key == k && w.load(t) == Success(before[k]);
        ReachableGrows(w, before, files, entry, m);
      }
    }
  }

  lemma LoadingKeepsExpanded(w: World, before: Files, files: Files, known: set<Key>, visited: set<Key>, more: set<Key>)
    requires Extends(files, before) && AllExpanded(w, before, known, visited) && known <= more
    requires visited <= before.Keys
    ensures AllExpanded(w, files, more, visited)
  {
    forall k | k in visited && k in files
      ensures Expanded(w, files, more, k, |w.targets(k, files[k])|)
    {
      assert Expanded(w, before, known, k, |w.targets(k, before[k])|);
    }
  }

  /** What the worklist keeps, where the known modules are the queued and the visited ones. */
  ghost predicate Progress(
    w: World, start: Files, files: Files, entry: Key, universe: set<Key>, known: set<Key>, visited: set<Key>)
  {
    && visited <= known <= universe && entry in known
    && AllReachable(w, files, entry, known)
    && AllExpanded(w, files, known, visited)
    && Extends(files, start) && NothingElse(w, start, files, entry)
    && (if entry in files then known <= files.Keys else known == {entry})
  }

  lemma RestOfQueue(queue: seq<Key>, visited: set<Key>)
    requires queue != []
    ensures Elements(queue) + visited == Elements(queue[1..]) + (visited + {queue[0]})
    ensures queue[0] in Elements(queue)
  {
    assert queue == [queue[0]] + queue[1..];
  }

  lemma QueueGrows(queue: seq<Key>, more: seq<Key>, visited: set<Key>, next: seq<Key>)
    requires queue != [] && next == queue[1..] + more
    ensures Elements(next) + (visited + {queue[0]}) == Elements(queue) + visited + Elements(more)
  {
    RestOfQueue(queue, visited);
    assert Elements(next) == Elements(queue[1..]) + Elements(more);
  }

  lemma VisitMissing(
    w: World, start: Files, files: Files, entry: Key, universe: set<Key>, known: set<Key>, visited: set<Key>, key: Key)
    requires Progress(w, start, files, entry, universe, known, visited) && key in known && key !in files
    ensures Progress(w, start, files, entry, universe, known, visited + {key})
  {
  }

  /** The visited modules that are loaded, each of them once. */
  ghost predicate ExpandedOnce(expanded: seq<Key>, visited: set<Key>, files: Files) {
    NoDuplicates(expanded) && forall k :: k in expanded <==> k in visited && k in files
  }

  lemma OneMoreExpanded(
    w: World, start: Files, before: Files, files: Files, entry: Key, universe: set<Key>, known: set<Key>,
    visited: set<Key>, key: Key, expanded: seq<Key>)
    requires Progress(w, start, before, entry, universe, known, visited) && Extends(files, before)
    requires key in known && key in before && key !in visited && ExpandedOnce(expanded, visited, before)
    ensures ExpandedOnce(expanded + [key], visited + {key}, files)
  {
    assert known <= before.Keys;
  }

  lemma KeyOfTarget(targets: seq<Target>, k: Key) returns (t: Target)
    requires k in Elements(KeysOf(targets))
    ensures t in targets && t.key == k
  {
    var i :| 0 <= i < |targets| && targets[i].key == k;
    t := targets[i];
  }

  lemma TargetsAreReachable(w: World, files: Files, entry: Key, universe: set<Key>, key: Key)
    requires key in files && key in universe && Reachable(w, files, entry, key) && Closed(w, universe)
    ensures AllReachable(w, files, entry, Elements(KeysOf(w.targets(key, files[key]))))
    ensures Elements(KeysOf(w.targets(key, files[key]))) <= universe
  {
    forall k | k in Elements(KeysOf(w.targets(key, files[key])))
      ensures Reachable(w, files, entry, k) && k in universe
    {
      var t := KeyOfTarget(w.targets(key, files[key]), k);
      assert Refers(w, files, key, k);
      ReachableStep(w, files, entry, key, k);
    }
  }

  lemma TargetsAreExpanded(w: World, files: Files, key: Key, known: set<Key>)
    requires key in files && Elements(KeysOf(w.targets(key, files[key]))) <= known
    requires forall t | t in w.targets(key, files[key]) :: t.key in files
    ensures Expanded(w, files, known, key, |w.targets(key, files[key])|)
  {
    var targets := w.targets(key, files[key]);
    forall i | 0 <= i < |targets|
      ensures targets[i].key in files && targets[i].key in known
    {
      assert KeysOf(targets)[i] in Elements(KeysOf(targets));
    }
  }

  lemma ExpandedWithKey(w: World, files: Files, known: set<Key>, visited: set<Key>, key: Key)
    requires AllExpanded(w, files, known, visited) && key in files
    requires Expanded(w, files, known, key, |w.targets(key, files[key])|)
    ensures AllExpanded(w, files, known, visited + {key})
  {
  }

  lemma VisitLoaded(
    w: World, start: Files, before: Files, files: Files, entry: Key, universe: set<Key>, known: set<Key>,
    visited: set<Key>, key: Key, more: set<Key>)
    requires Progress(w, start, before, entry, universe, known, visited) && Closed(w, universe)
    requires key in known && key in before && Extends(files, before)
    requires NothingElse(w, before, files, entry)
    requires more == Elements(KeysOf(w.targets(key, before[key])))
    requires forall t | t in w.targets(key, before[key]) :: t.key in files
    ensures Progress(w, start, files, entry, universe, known + more, visited + {key})
  {
    LoadingKeepsReachable(w, before, files, entry, known);
    LoadingKeepsOrigins(w, start, before, files, entry);
    LoadingKeepsExpanded(w, before, files, known, visited, known + more);
    TargetsAreReachable(w, files, entry, universe, key);
    TargetsAreExpanded(w, files, key, known + more);
    ExpandedWithKey(w, files, known + more, visited, key);
    forall k | k in more
      ensures k in files
    {
      var t := KeyOfTarget(w.targets(key, before[key]), k);
    }
  }

  /** The state of the worklist loop. */
  ghost predicate Work(
    w: World, start: Files, files: Files, entry: Key, universe: set<Key>, queue: seq<Key>, visited: set<Key>,
    expanded: seq<Key>)
  {
    && Progress(w, start, files, entry, universe, Elements(queue) + visited, visited)
    && ExpandedOnce(expanded, visited, files)
  }

  lemma StartOfWork(w: World, files: Files, entry: Key, universe: set<Key>)
    requires entry in universe
    ensures Work(w, files, files, entry, universe, [entry], {}, [])
  {
    ReachableStart(w, files, entry);
    assert Elements([entry]) + {} == {entry};
  }

  /** The head of the queue is reached; when it needs no expansion, the state stays good without it. */
  lemma WorkOnKey(
    w: World, start: Files, files: Files, entry: Key, universe: set<Key>, queue: seq<Key>, visited: set<Key>,
    expanded: seq<Key>)
    requires Work(w, start, files, entry, universe, queue, visited, expanded) && queue != []
    ensures Reachable(w, files, entry, queue[0])
    ensures queue[0] !in visited ==> |universe - (visited + {queue[0]})| < |universe - visited|
    ensures queue[0] in visited ==> Work(w, start, files, entry, universe, queue[1..], visited, expanded)
    ensures queue[0] !in visited && queue[0] !in files ==>
      Work(w, start, files, entry, universe, queue[1..], visited + {queue[0]}, expanded)
  {
    var key, known := queue[0], Elements(queue) + visited;
    RestOfQueue(queue, visited);
    if key in visited {
      assert visited + {key} == visited;
    } else {
      FewerLeft(universe, visited, key);
      if key !in files {
        VisitMissing(w, start, files, entry, universe, known, visited, key);
      }
    }
  }

  lemma WorkStops(
    w: World, start: Files, before: Files, files: Files, entry: Key, universe: set<Key>, queue: seq<Key>,
    visited: set<Key>, expanded: seq<Key>)
    requires Work(w, start, before, entry, universe, queue, visited, expanded)
    requires Extends(files, before) && NothingElse(w, before, files, entry)
    ensures Extends(files, start) && NothingElse(w, start, files, entry) && NoDuplicates(expanded)
  {
    LoadingKeepsOrigins(w, start, before, files, entry);
  }

  lemma WorkContinues(
    w: World, start: Files, before: Files, files: Files, entry: Key, universe: set<Key>, queue: seq<Key>,
    visited: set<Key>, expanded: seq<Key>, next: seq<Key>)
    requires Work(w, start, before, entry, universe, queue, visited, expanded) && Closed(w, universe)
    requires queue != [] && queue[0] !in visited && queue[0] in before
    requires Extends(files, before) && NothingElse(w, before, files, entry)
    requires next == queue[1..] + KeysOf(w.targets(queue[0], before[queue[0]]))
    requires forall t | t in w.targets(queue[0], before[queue[0]]) :: t.key in files
    ensures Work(w, start, files, entry, universe, next, visited + {queue[0]}, expanded + [queue[0]])
  {
    var key, known := queue[0], Elements(queue) + visited;
    var more := Elements(KeysOf(w.targets(key, before[key])));
    RestOfQueue(queue, visited);
    VisitLoaded(w, start, before, files, entry, universe, known, visited, key, more);
    QueueGrows(queue, KeysOf(w.targets(key, before[key])), visited, next);
    OneMoreExpanded(w, start, before, files, entry, universe, known, visited, key, expanded);
  }

  /** With an empty queue, exactly the modules that are reached were visited, and they are loaded. */
  lemma WorkIsDone(
    w: World, start: Files, files: Files, entry: Key, universe: set<Key>, visited: set<Key>, expanded: seq<Key>)
    requires Work(w, start, files, entry, universe, [], visited, expanded)
    ensures AllLoaded(w, files, entry)
    ensures Extends(files, start) && NothingElse(w, start, files, entry) && NoDuplicates(expanded)
    ensures forall k :: k in expanded <==> Reachable(w, files, entry, k) && k in files
  {
    assert Elements([]) + visited == visited;
    VisitedIsAll(w, files, visited, entry);
  }

  class Database {
    var moduleFiles: Files

    constructor (files: Files)
      ensures moduleFiles == files
    {
      moduleFiles := files;
    }

    /** Loads one target unless its module is there already. */
    method LoadTarget(w: World, target: Target) returns (r: Result<(), string>)
      modifies this
      ensures target.key in old(moduleFiles) ==> r == Success(()) && moduleFiles == old(moduleFiles)
      ensures target.key !in old(moduleFiles) ==>
        match w.load(target)
        case Success(source) => r == Success(()) && moduleFiles == old(moduleFiles)[target.key := source]
        case Failure(message) => r == Failure(message) && moduleFiles == old(moduleFiles)
    {
      if target.key !in moduleFiles {
        match w.load(target) {
          case Success(source) => moduleFiles := moduleFiles[target.key := source];
          case Failure(message) => return Failure(message);
        }
      }
      return Success(());
    }

    /** Loads what a module refers to and puts all of it at the end of the queue. */
    method Expand(w: World, key: Key, queue: seq<Key>, ghost entry: Key) returns (next: seq<Key>, r: Result<(), string>)
      requires key in moduleFiles && Reachable(w, moduleFiles, entry, key)
      modifies this
      ensures Extends(moduleFiles, old(moduleFiles))
      ensures NothingElse(w, old(moduleFiles), moduleFiles, entry)
      ensures r.Success? ==> next == queue + KeysOf(w.targets(key, old(moduleFiles)[key]))
      ensures r.Success? ==> forall t | t in w.targets(key, old(moduleFiles)[key]) :: t.key in moduleFiles
      ensures r.Failure? ==> Blocked(w, moduleFiles, entry, r.error)
    {
      var targets := w.targets(key, moduleFiles[key]);
      next := queue;
      for i := 0 to |targets|
        invariant Extends(moduleFiles, old(moduleFiles)) && Reachable(w, moduleFiles, entry, key)
        invariant NothingElse(w, old(moduleFiles), moduleFiles, entry)
        invariant next == queue + KeysOf(targets[..i])
        invariant forall j :: 0 <= j < i ==> targets[j].key in moduleFiles
      {
        ghost var before := moduleFiles;
        var outcome := LoadTarget(w, targets[i]);
        if outcome.Failure? {
          assert targets[i] in w.targets(key, moduleFiles[key]);
          return next, outcome;
        }
        LoadedNext(w, old(moduleFiles), before, moduleFiles, entry, key, targets[i]);
        if targets[i].key in moduleFiles {
          next := next + [targets[i].key];
        }
        assert KeysOf(targets[..i + 1]) == KeysOf(targets[..i]) + [targets[i].key];
      }
      assert targets[..|targets|] == targets;
      return next, Success(());
    }

    /**
     Loads all modules the entry reaches, expanding each of them once, and nothing else; or stops at a reference of a
     module that is reached and cannot be loaded.
     */
    method LoadReachableModules(w: World, entry: Key, ghost universe: set<Key>)
      returns (r: Result<(), string>, ghost expanded: seq<Key>)
      requires entry in universe && Closed(w, universe)
      modifies this
      ensures Extends(moduleFiles, old(moduleFiles)) && NothingElse(w, old(moduleFiles), moduleFiles, entry)
      ensures r.Success? ==> AllLoaded(w, moduleFiles, entry)
      ensures r.Success? ==> forall k :: k in expanded <==> Reachable(w, moduleFiles, entry, k) && k in moduleFiles
      ensures NoDuplicates(expanded)
      ensures r.Failure? ==> Blocked(w, moduleFiles, entry, r.error)
    {
      var queue := [entry];
      var visited: set<Key> := {};
      expanded := [];
      ghost var start := moduleFiles;
      StartOfWork(w, start, entry, universe);
      while queue != []
        invariant Work(w, start, moduleFiles, entry, universe, queue, visited, expanded)
        decreases |universe - visited|, |queue|
      {
        var key := queue[0];
        WorkOnKey(w, start, moduleFiles, entry, universe, queue, visited, expanded);
        if key in visited {
          queue := queue[1..];
        } else if key !in moduleFiles {
          visited, queue := visited + {key}, queue[1..];
        } else {
          ghost var before := moduleFiles;
          var next, outcome := Expand(w, key, queue[1..], entry);
          if outcome.Failure? {
            WorkStops(w, start, before, moduleFiles, entry, universe, queue, visited, expanded);
            return outcome, expanded;
          }
          WorkContinues(w, start, before, moduleFiles, entry, universe, queue, visited, expanded, next);
          visited, queue := visited + {key}, next;
          expanded := expanded + [key];
        }
      }
      WorkIsDone(w, start, moduleFiles, entry, universe, visited, expanded);
      return Success(()), expanded;
    }
  }

  lemma FewerLeft(universe: set<Key>, visited: set<Key>, key: Key)
    requires key in universe && key !in visited
    ensures |universe - (visited + {key})| < |universe - visited|
  {
    assert universe - visited == (universe - (visited + {key})) + {key};
  }

  lemma LoadedNext(w: World, start: Files, before: Files, files: Files, entry: Key, m: Key, t: Target)
    requires Extends(before, start) && m in before && Reachable(w, before, entry, m)
    requires t in w.targets(m, before[m])
    requires NothingElse(w, start, before, entry)
    requires files == before || (w.load(t).Success? && files == before[t.key := w.load(t).value] && t.key !in before)
    ensures Extends(files, start) && Reachable(w, files, entry, m)
    ensures NothingElse(w, start, files, entry)
  {
    ReachableGrows(w, before, files, entry, m);
    forall k | k in files && k !in start
      ensures Loaded(w, files, entry, k)
    {
      if k in before {
        assert Loaded(w, before, entry, k);
        var n, u :| Reachable(w, before, entry, n) && n in before
          && u in w.targets(n, before[n]) && u.key == k && w.load(u) == Success(before[k]);
        ReachableGrows(w, before, files, entry, n);
      }
    }
  }
}
