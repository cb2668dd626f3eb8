/** The class's own observable declarations, compiled to a trie over attribute names. */
module ClassTrie {
  import opened Text
  import opened Observability
  import opened Walk
  import EP = EventPath

  type Components = seq<string>

  datatype Node = Node(children: map<string, nat>, declared: Option<int64>)

  /** The declarations a trie stands for, by attribute names. */
  type Declarations = map<Components, int64>

  /** The node a run of names leads to from the root. */
  function NodeAt(nodes: seq<Node>, names: Components): (r: Option<nat>)
    requires nodes != []
    ensures r.Some? ==> r.value < |nodes|
  {
    if names == [] then Some(0)
    else
      match NodeAt(nodes, names[..|names| - 1])
      case None => None
      case Some(at) => ChildOf(nodes, at, names[|names| - 1])
  }

  function ChildOf(nodes: seq<Node>, at: nat, name: string): (r: Option<nat>)
    requires at < |nodes|
    ensures r.Some? ==> r.value < |nodes|
  {
    if name in nodes[at].children && nodes[at].children[name] < |nodes| then Some(nodes[at].children[name]) else None
  }

  /** `spelled` tells how each node is reached; `open` is a node still being extended to its declaration. */
  ghost predicate Spelling(nodes: seq<Node>, spelled: seq<Components>) {
    && |nodes| == |spelled| > 0 && spelled[0] == []
    && (forall i, a | 0 <= i < |nodes| && a in nodes[i].children ::
          nodes[i].children[a] < |nodes| && spelled[nodes[i].children[a]] == spelled[i] + [a])
    && (forall i | 0 <= i < |nodes| :: NodeAt(nodes, spelled[i]) == Some(i))
  }

  ghost predicate StandsFor(nodes: seq<Node>, spelled: seq<Components>, decls: Declarations) {
    && Spelling(nodes, spelled)
    && (forall i | 0 <= i < |nodes| :: nodes[i].declared == if spelled[i] in decls then Some(decls[spelled[i]]) else None)
    && (forall d | d in decls :: exists i :: 0 <= i < |nodes| && spelled[i] == d)
  }

  /** Some declaration is at or below the names. */
  predicate AtOrAbove(names: Components, decls: Declarations) {
    exists d | d in decls :: names <= d
  }

  /** Every node below the root leads to a declaration, but for those on the way to `pending`. */
  ghost predicate Fruitful(spelled: seq<Components>, decls: Declarations, pending: Components) {
    forall i | 0 < i < |spelled| :: spelled[i] <= pending || AtOrAbove(spelled[i], decls)
  }

  /** A node is reached by its spelling only. */
  lemma {:induction false} OneSpelling(nodes: seq<Node>, spelled: seq<Components>, names: Components)
    requires Spelling(nodes, spelled) && NodeAt(nodes, names).Some?
    ensures spelled[NodeAt(nodes, names).value] == names
  {
    if names != [] {
      var n := |names| - 1;
      OneSpelling(nodes, spelled, names[..n]);
      InitAndLast(names);
    }
  }

  /** A longer spelling passes through its prefixes. */
  lemma {:induction false} PrefixReached(nodes: seq<Node>, names: Components, n: nat)
    requires nodes != [] && n <= |names| && NodeAt(nodes, names).Some?
    ensures NodeAt(nodes, names[..n]).Some?
    ensures n < |names| ==> names[n] in nodes[NodeAt(nodes, names[..n]).value].children
  {
    if n == |names| {
      assert names[..n] == names;
    } else if n < |names| - 1 {
      var init := names[..|names| - 1];
      PrefixReached(nodes, init, n);
      assert init[..n] == names[..n];
    }
  }

  // ----- Building -----

  class Trie {
    var nodes: seq<Node>
    ghost var spelled: seq<Components>

    ghost predicate Stands(decls: Declarations)
      reads this
    {
      StandsFor(nodes, spelled, decls)
    }

    constructor ()
      ensures Stands(map[]) && spelled == [[]]
      ensures nodes == [Node(map[], None)]
    {
      nodes := [Node(map[], None)];
      spelled := [[]];
    }

    /** The child of a node under a name, made if it is missing. */
    method ChildFor(at: nat, name: string, ghost decls: Declarations) returns (child: nat)
      requires Stands(decls) && at < |nodes|
      modifies this
      ensures Stands(decls) && child < |nodes| && spelled[child] == old(spelled[at]) + [name]
      ensures spelled == old(spelled) || spelled == old(spelled) + [old(spelled[at]) + [name]]
    {
      if name in nodes[at].children {
        return nodes[at].children[name];
      }
      child := |nodes|;
      NoSuchChild(nodes, spelled, decls, at, name);
      Extended(nodes, spelled, decls, at, name);
      nodes := nodes[at := nodes[at].(children := nodes[at].children[name := child])] + [Node(map[], None)];
      spelled := spelled + [spelled[at] + [name]];
    }

    /** Adds one declaration below the root. */
    method Declare(parts: Components, typeID: int64, ghost decls: Declarations)
      requires Stands(decls) && Fruitful(spelled, decls, []) && parts != []
      modifies this
      ensures Stands(decls[parts := typeID]) && Fruitful(spelled, decls[parts := typeID], [])
    {
      hide Spelling, StandsFor;
      SpelledRoot(nodes, spelled, decls);
      var at: nat := 0;
      assert parts[..0] == [];
      for i := 0 to |parts|
        invariant Stands(decls) && |nodes| == |spelled| && at < |nodes| && spelled[at] == parts[..i]
        invariant Fruitful(spelled, decls, parts)
      {
        ghost var before := spelled;
        at := ChildFor(at, parts[i], decls);
        SpelledRoot(nodes, spelled, decls);
        assert parts[..i] + [parts[i]] == parts[..i + 1];
        assert before == spelled || (spelled == before + [parts[..i + 1]] && parts[..i + 1] <= parts);
      }
      assert parts[..|parts|] == parts;
      Declared(nodes, spelled, decls, at, typeID);
      nodes := nodes[at := nodes[at].(declared := Some(typeID))];
      SpelledRoot(nodes, spelled, decls[parts := typeID]);
      forall i | 0 < i < |spelled| ensures AtOrAbove(spelled[i], decls[parts := typeID]) {
        if spelled[i] <= parts {
          assert parts in decls[parts := typeID];
        } else {
          var d :| d in decls && spelled[i] <= d;
          assert d in decls[parts := typeID];
        }
      }
    }

    /** Follows the attributes of a path, array indexes left out. */
    method Lookup(path: EP.Path) returns (at: Option<nat>)
      requires nodes != [] && path.Valid()
      ensures at == NodeAt(nodes, EP.AttributeNames(path.Contents()))
    {
      hide NodeAt, ChildOf, EP.AttributeNames;
      ghost var elements := path.Contents();
      at := Some(0);
      NothingFollowed(nodes, elements);
      for i := 0 to path.elements.Len()
        invariant at.Some? && at.value < |nodes| && at == NodeAt(nodes, EP.AttributeNames(elements[..i]))
      {
        NamesStep(elements, i);
        var element := path.elements.At(i);
        if element.ArrayIndex? {
          continue;
        }
        NodeStep(nodes, EP.AttributeNames(elements[..i]), element.name);
        at := ChildOf(nodes, at.value, element.name);
        if at == None {
          NoneBelow(nodes, elements, i + 1);
          return None;
        }
      }
    }
  }

  lemma NothingFollowed(nodes: seq<Node>, path: EP.Elems)
    requires nodes != []
    ensures NodeAt(nodes, EP.AttributeNames(path[..0])) == Some(0) && path[..|path|] == path
  {
  }

  lemma NamesStep(path: EP.Elems, i: nat)
    requires i < |path|
    ensures EP.AttributeNames(path[..i + 1]) ==
      match path[i]
      case Attribute(name) => EP.AttributeNames(path[..i]) + [name]
      case ArrayIndex(_) => EP.AttributeNames(path[..i])
  {
    assert path[..i + 1][..i] == path[..i];
  }

  lemma NodeStep(nodes: seq<Node>, names: Components, name: string)
    requires nodes != [] && NodeAt(nodes, names).Some?
    ensures NodeAt(nodes, names + [name]) == ChildOf(nodes, NodeAt(nodes, names).value, name)
  {
    assert (names + [name])[..|names|] == names;
  }

  lemma NoneBelow(nodes: seq<Node>, path: EP.Elems, i: nat)
    requires nodes != [] && i <= |path| && NodeAt(nodes, EP.AttributeNames(path[..i])) == None
    ensures NodeAt(nodes, EP.AttributeNames(path)) == None
  {
    var names, front := EP.AttributeNames(path), EP.AttributeNames(path[..i]);
    assert path == path[..i] + path[i..];
    EP.AttributeNamesAppend(path[..i], path[i..]);
    assert names[..|front|] == front;
    if NodeAt(nodes, names).Some? {
      PrefixReached(nodes, names, |front|);
    }
  }

  lemma SpelledRoot(nodes: seq<Node>, spelled: seq<Components>, decls: Declarations)
    requires StandsFor(nodes, spelled, decls)
    ensures |nodes| == |spelled| > 0 && spelled[0] == []
  {
  }

  /** A name without a child spells no node. */
  lemma NoSuchChild(nodes: seq<Node>, spelled: seq<Components>, decls: Declarations, at: nat, name: string)
    requires StandsFor(nodes, spelled, decls) && at < |nodes| && name !in nodes[at].children
    ensures spelled[at] + [name] !in spelled && spelled[at] + [name] !in decls
  {
    assert NodeAt(nodes, spelled[at]) == Some(at);
    NodeStep(nodes, spelled[at], name);
  }

  function WithChild(nodes: seq<Node>, at: nat, name: string): seq<Node>
    requires at < |nodes|
  {
    nodes[at := nodes[at].(children := nodes[at].children[name := |nodes|])] + [Node(map[], None)]
  }

  lemma {:induction false} SameNodes(nodes: seq<Node>, at: nat, name: string, names: Components)
    requires at < |nodes| && NodeAt(nodes, names).Some? && name !in nodes[at].children
    ensures NodeAt(WithChild(nodes, at, name), names) == NodeAt(nodes, names)
  {
    if names != [] {
      SameNodes(nodes, at, name, names[..|names| - 1]);
    }
  }

  lemma Extended(nodes: seq<Node>, spelled: seq<Components>, decls: Declarations, at: nat, name: string)
    requires StandsFor(nodes, spelled, decls) && at < |nodes| && name !in nodes[at].children
    requires spelled[at] + [name] !in decls
    ensures StandsFor(WithChild(nodes, at, name), spelled + [spelled[at] + [name]], decls)
  {
    var longer, all := WithChild(nodes, at, name), spelled + [spelled[at] + [name]];
    ExtendedSpelling(nodes, spelled, at, name);
    forall d | d in decls ensures exists i :: 0 <= i < |longer| && all[i] == d {
      var i :| 0 <= i < |nodes| && spelled[i] == d;
      assert all[i] == d;
    }
    hide Spelling;
  }

  lemma ExtendedSpelling(nodes: seq<Node>, spelled: seq<Components>, at: nat, name: string)
    requires Spelling(nodes, spelled) && at < |nodes| && name !in nodes[at].children
    ensures Spelling(WithChild(nodes, at, name), spelled + [spelled[at] + [name]])
  {
    hide NodeAt;
    var longer, all := WithChild(nodes, at, name), spelled + [spelled[at] + [name]];
    forall i | 0 <= i < |longer| ensures NodeAt(longer, all[i]) == Some(i) {
      assert NodeAt(nodes, spelled[at]) == Some(at);
      SameNodes(nodes, at, name, spelled[at]);
      if i < |nodes| {
        assert NodeAt(nodes, spelled[i]) == Some(i);
        SameNodes(nodes, at, name, spelled[i]);
      } else {
        NodeStep(longer, spelled[at], name);
      }
    }
  }

  lemma {:induction false} SameEdges(a: seq<Node>, b: seq<Node>, names: Components)
    requires |a| == |b| > 0 && forall i | 0 <= i < |a| :: a[i].children == b[i].children
    ensures NodeAt(a, names) == NodeAt(b, names)
  {
    if names != [] {
      SameEdges(a, b, names[..|names| - 1]);
    }
  }

  lemma Declared(nodes: seq<Node>, spelled: seq<Components>, decls: Declarations, at: nat, typeID: int64)
    requires StandsFor(nodes, spelled, decls) && at < |nodes|
    ensures StandsFor(nodes[at := nodes[at].(declared := Some(typeID))], spelled, decls[spelled[at] := typeID])
  {
    var after := nodes[at := nodes[at].(declared := Some(typeID))];
    forall i | 0 <= i < |nodes| ensures NodeAt(after, spelled[i]) == Some(i) {
      SameEdges(nodes, after, spelled[i]);
    }
    forall i | 0 <= i < |nodes| && spelled[i] == spelled[at] ensures i == at {
      assert NodeAt(nodes, spelled[i]) == Some(i);
    }
  }

  // ----- The compiled trie -----

  /** What the class declares for a run of names, by the keys taken so far. */
  function DeclaredFor(observables: map<string, int64>, allowed: TypeSelector, keys: set<string>,
                       names: Components): Option<int64> {
    if names == [] then None
    else
      var key := Join(names, '.');
      if key in keys && key in observables && Split(key, '.') == names && Allows(allowed, observables[key])
      then Some(observables[key]) else None
  }

  ghost predicate Gathered(observables: map<string, int64>, allowed: TypeSelector, keys: set<string>,
                           decls: Declarations) {
    forall names :: (if names in decls then Some(decls[names]) else None) == DeclaredFor(observables, allowed, keys, names)
  }

  lemma GatheredStep(observables: map<string, int64>, allowed: TypeSelector, keys: set<string>, decls: Declarations,
                     key: string)
    requires Gathered(observables, allowed, keys, decls) && key in observables && key !in keys
    ensures Gathered(observables, allowed, keys + {key},
      if Allows(allowed, observables[key]) then decls[Split(key, '.') := observables[key]] else decls)
  {
    hide Join, Split;
    JoinSplit(key, '.');
    var after := if Allows(allowed, observables[key]) then decls[Split(key, '.') := observables[key]] else decls;
    forall names
      ensures (if names in after then Some(after[names]) else None) == DeclaredFor(observables, allowed, keys + {key}, names)
    {
      assert (if names in decls then Some(decls[names]) else None) == DeclaredFor(observables, allowed, keys, names);
    }
  }

  ghost predicate Answers(trie: Option<Trie>, decls: Declarations)
    reads if trie.Some? then {trie.value} else {}
  {
    if trie == None then decls == map[] else trie.value.Stands(decls) && Fruitful(trie.value.spelled, decls, [])
  }

  /** Compiles the allowed declarations, in whatever order the map is taken. */
  method CompileClassObservableTrie(observables: map<string, int64>, allowed: TypeSelector)
    returns (trie: Option<Trie>, ghost decls: Declarations)
    ensures Gathered(observables, allowed, observables.Keys, decls) && Answers(trie, decls)
    ensures trie.Some? ==> fresh(trie.value)
  {
    hide Split, Join, StandsFor, Fruitful, Gathered;
    decls := map[];
    NothingGathered(observables, allowed);
    assert observables.Keys - observables.Keys == {};
    if observables == map[] {
      assert observables.Keys == {};
      return None, decls;
    }
    var t := new Trie();
    NothingFruitful();
    var pending := observables.Keys;
    while pending != {}
      invariant pending <= observables.Keys && fresh(t)
      invariant Gathered(observables, allowed, observables.Keys - pending, decls)
      invariant t.Stands(decls) && Fruitful(t.spelled, decls, [])
      decreases pending
    {
      var key :| key in pending;
      ghost var done := observables.Keys - pending;
      pending := pending - {key};
      assert observables.Keys - pending == done + {key};
      GatheredStep(observables, allowed, done, decls, key);
      if !Allows(allowed, observables[key]) {
        continue;
      }
      t.Declare(Split(key, '.'), observables[key], decls);
      decls := decls[Split(key, '.') := observables[key]];
    }
    assert observables.Keys - {} == observables.Keys;
    RootOf(t, decls);
    if t.nodes[0].children == map[] {
      NothingBelowRoot(t.nodes, t.spelled, decls, observables, allowed);
      return None, decls;
    }
    return Some(t), decls;
  }

  lemma RootOf(t: Trie, decls: Declarations)
    requires t.Stands(decls)
    ensures t.nodes != []
  {
  }

  lemma NothingGathered(observables: map<string, int64>, allowed: TypeSelector)
    ensures Gathered(observables, allowed, {}, map[])
  {
  }

  lemma NothingFruitful()
    ensures Fruitful([[]], map[], [])
  {
  }

  lemma NothingBelowRoot(nodes: seq<Node>, spelled: seq<Components>, decls: Declarations,
                         observables: map<string, int64>, allowed: TypeSelector)
    requires StandsFor(nodes, spelled, decls) && nodes[0].children == map[]
    requires Gathered(observables, allowed, observables.Keys, decls)
    ensures decls == map[]
  {
    hide Join, Split;
    forall d ensures d !in decls {
      assert (if d in decls then Some(decls[d]) else None) == DeclaredFor(observables, allowed, observables.Keys, d);
      if d in decls {
        OnlyRoot(nodes, spelled, decls, d);
      }
    }
  }

  lemma OnlyRoot(nodes: seq<Node>, spelled: seq<Components>, decls: Declarations, d: Components)
    requires StandsFor(nodes, spelled, decls) && nodes[0].children == map[] && d in decls
    ensures d == []
  {
    DeclaredReached(nodes, spelled, decls, d);
    PrefixReached(nodes, d, 0);
  }

  lemma DeclaredReached(nodes: seq<Node>, spelled: seq<Components>, decls: Declarations, d: Components)
    requires StandsFor(nodes, spelled, decls) && d in decls
    ensures nodes != [] && NodeAt(nodes, d).Some?
  {
    var i :| 0 <= i < |nodes| && spelled[i] == d;
    assert NodeAt(nodes, spelled[i]) == Some(i);
  }

  /** What a declaration map says of a run of names. */
  lemma TrieSays(nodes: seq<Node>, spelled: seq<Components>, decls: Declarations, names: Components)
    requires StandsFor(nodes, spelled, decls) && Fruitful(spelled, decls, [])
    ensures match NodeAt(nodes, names)
      case None => names !in decls && !AtOrAbove(names, decls)
      case Some(at) =>
        && nodes[at].declared == (if names in decls then Some(decls[names]) else None)
        && (nodes[at].declared.Some? || nodes[at].children != map[] <==> AtOrAbove(names, decls))
  {
    hide StandsFor, Fruitful, NodeAt;
    SpelledRoot(nodes, spelled, decls);
    forall d | d in decls && names <= d
      ensures NodeAt(nodes, names).Some?
      ensures names != d ==> nodes[NodeAt(nodes, names).value].children != map[]
    {
      DeclaredReached(nodes, spelled, decls, d);
      PrefixReached(nodes, d, |names|);
      assert d[..|names|] == names;
    }
    if NodeAt(nodes, names).Some? {
      NodeSays(nodes, spelled, decls, names);
    }
  }

  lemma NodeSays(nodes: seq<Node>, spelled: seq<Components>, decls: Declarations, names: Components)
    requires StandsFor(nodes, spelled, decls) && Fruitful(spelled, decls, []) && NodeAt(nodes, names).Some?
    ensures var at := NodeAt(nodes, names).value;
      && nodes[at].declared == (if names in decls then Some(decls[names]) else None)
      && (nodes[at].children != map[] ==> AtOrAbove(names, decls))
  {
    OneSpelling(nodes, spelled, names);
    var at := NodeAt(nodes, names).value;
    if nodes[at].children != map[] {
      var a :| a in nodes[at].children;
      ChildFruitful(nodes, spelled, decls, at, a);
    }
  }

  lemma ChildFruitful(nodes: seq<Node>, spelled: seq<Components>, decls: Declarations, at: nat, a: string)
    requires StandsFor(nodes, spelled, decls) && Fruitful(spelled, decls, []) && at < |nodes| && a in nodes[at].children
    ensures AtOrAbove(spelled[at], decls)
  {
    hide NodeAt;
    var child := nodes[at].children[a];
    assert spelled[child] == spelled[at] + [a] && child != 0;
    var d :| d in decls && spelled[child] <= d;
    assert spelled[at] <= d;
  }

  method TypeIDOf(trie: Option<Trie>, path: EP.Path, ghost decls: Declarations) returns (id: Option<int64>)
    requires Answers(trie, decls) && path.Valid()
    ensures var names := EP.AttributeNames(path.Contents()); id == if names in decls then Some(decls[names]) else None
  {
    if trie == None {
      return None;
    }
    RootOf(trie.value, decls);
    TrieSays(trie.value.nodes, trie.value.spelled, decls, EP.AttributeNames(path.Contents()));
    var at := trie.value.Lookup(path);
    return if at == None then None else trie.value.nodes[at.value].declared;
  }

  method HasDeclarationAtOrBelow(trie: Option<Trie>, path: EP.Path, ghost decls: Declarations) returns (r: bool)
    requires Answers(trie, decls) && path.Valid()
    ensures r <==> AtOrAbove(EP.AttributeNames(path.Contents()), decls)
  {
    if trie == None {
      return false;
    }
    RootOf(trie.value, decls);
    TrieSays(trie.value.nodes, trie.value.spelled, decls, EP.AttributeNames(path.Contents()));
    var at := trie.value.Lookup(path);
    return at.Some? && (trie.value.nodes[at.value].declared.Some? || trie.value.nodes[at.value].children != map[]);
  }

  /** The compiled declarations answer both questions of the walk as the class's declaration map does. */
  lemma DeclarationsAnswer(c: Ctx, decls: Declarations, path: EP.Elems)
    requires Gathered(c.cls.observables, c.allowed, c.cls.observables.Keys, decls)
    ensures var names := EP.AttributeNames(path);
      && ClassDeclared(c, path) == (if names in decls then Some(decls[names]) else None)
      && (DeclaredAtOrBelow(c, path) <==> AtOrAbove(names, decls))
  {
    hide Split, Join;
    var names, keys := EP.AttributeNames(path), c.cls.observables.Keys;
    assert (if names in decls then Some(decls[names]) else None) == DeclaredFor(c.cls.observables, c.allowed, keys, names);
    if key :| key in c.cls.observables && Allows(c.allowed, c.cls.observables[key]) && names <= Split(key, '.') {
      JoinSplit(key, '.');
      assert DeclaredFor(c.cls.observables, c.allowed, keys, Split(key, '.')).Some?;
      assert Split(key, '.') in decls;
    }
    if d :| d in decls && names <= d {
      assert DeclaredFor(c.cls.observables, c.allowed, keys, d).Some?;
    }
  }
}
