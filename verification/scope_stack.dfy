/** The scope stack that the Hull checker's scoping rests on (crates/hull/src/scope_stack.rs). */
module ScopeStacks {
  import opened Wrappers

  /** The map that a stack of scopes amounts to: the innermost binding of each name. */
  function Flatten<K, V>(scopes: seq<map<K, V>>): map<K, V> {
    if scopes == [] then map[] else Flatten(scopes[..|scopes| - 1]) + scopes[|scopes| - 1]
  }

  lemma FlattenPush<K, V>(scopes: seq<map<K, V>>, scope: map<K, V>)
    ensures Flatten(scopes + [scope]) == Flatten(scopes) + scope
  {
    assert (scopes + [scope])[..|scopes|] == scopes;
  }

  lemma FlattenRoot<K, V>(scopes: seq<map<K, V>>)
    requires scopes == [map[]]
    ensures Flatten(scopes) == map[]
  {
    FlattenPush([], scopes[0]);
    assert [] + [scopes[0]] == scopes;
  }

  /** `lookup_var`: searching outwards from the innermost scope finds what the flattened map holds. */
  method Find<K(==), V>(scopes: seq<map<K, V>>, key: K) returns (r: Option<V>)
    ensures r == if key in Flatten(scopes) then Some(Flatten(scopes)[key]) else None
  {
    var i := |scopes|;
    assert scopes[..i] == scopes;
    while i > 0
      invariant 0 <= i <= |scopes|
      invariant key in Flatten(scopes) <==> key in Flatten(scopes[..i])
      invariant key in Flatten(scopes) ==> Flatten(scopes)[key] == Flatten(scopes[..i])[key]
    {
      assert scopes[..i][..i - 1] == scopes[..i - 1];
      i := i - 1;
      if key in scopes[i] { return Some(scopes[i][key]); }
    }
    return None;
  }

  class ScopeStack<T> {
    var scopes: seq<T>

    constructor (root: T)
      ensures scopes == [root]
    {
      scopes := [root];
    }

    method Push(scope: T)
      modifies this
      ensures scopes == old(scopes) + [scope]
    {
      scopes := scopes + [scope];
    }

    method Pop() returns (scope: T)
      requires scopes != []
      modifies this
      ensures old(scopes) == scopes + [scope]
    {
      scope := scopes[|scopes| - 1];
      scopes := scopes[..|scopes| - 1];
    }

    /** An update through `last_mut`. */
    method SetLast(scope: T)
      requires scopes != []
      modifies this
      ensures scopes == old(scopes)[..|old(scopes)| - 1] + [scope]
    {
      scopes := scopes[..|scopes| - 1] + [scope];
    }
  }
}
