/** Which schema objects can lead to an observable: the backward worklist and the forward search against
    reachability over a possibly cyclic node graph. */
module Observability {
  import opened Text
  import opened TypeInheritance
  import opened Schema

  /** The schema facts observable discovery reads. `dictionary` holds the attribute-name overrides. */
  datatype Catalog = Catalog(objects: Objects, types: Types, dictionary: map<string, int64>)

  /** The selected observable types; None selects all. */
  type TypeSelector = Option<set<int64>>

  predicate Allows(allowed: TypeSelector, id: int64) {
    allowed == None || id in allowed.value
  }

  /** The observable type of an attribute: its type's, else its name's, else its own. */
  function TypeID(cat: Catalog, name: string, attr: AttrDef): Option<int64> {
    if attr.typ in cat.types && cat.types[attr.typ].observable.Some? then cat.types[attr.typ].observable
    else if name in cat.dictionary then Some(cat.dictionary[name])
    else attr.observable
  }

  /** The object an object attribute leads to, when it is defined. */
  function Nested(cat: Catalog, attr: AttrDef): Option<string> {
    if attr.typ == "object_t" && attr.objectType.Some? && attr.objectType.value in cat.objects
    then attr.objectType else None
  }

  predicate DirectlyObservable(cat: Catalog, allowed: TypeSelector, name: string, attr: AttrDef, node: ObjectDef) {
    if node.observable.Some? then Allows(allowed, node.observable.value)
    else var id := TypeID(cat, name, attr); id.Some? && Allows(allowed, id.value)
  }

  /** Whether one attribute makes its object observable without looking inside nested objects. */
  predicate AttributeDirect(cat: Catalog, allowed: TypeSelector, name: string, attr: AttrDef) {
    if attr.typ != "object_t" || attr.objectType == None then
      var id := TypeID(cat, name, attr); id.Some? && Allows(allowed, id.value)
    else
      var nested := Nested(cat, attr);
      nested.Some? && DirectlyObservable(cat, allowed, name, attr, cat.objects[nested.value])
  }

  predicate Direct(cat: Catalog, allowed: TypeSelector, node: string) {
    node in cat.objects &&
    var attributes := cat.objects[node].item.attributes;
    exists n | n in attributes :: AttributeDirect(cat, allowed, n, attributes[n])
  }

  predicate Edge(cat: Catalog, from: string, to: string) {
    from in cat.objects &&
    var attributes := cat.objects[from].item.attributes;
    exists n | n in attributes :: Nested(cat, attributes[n]) == Some(to)
  }

  /** A chain of object attributes from an object to one with a direct observable. */
  ghost predicate Leads(cat: Catalog, allowed: TypeSelector, chain: seq<string>) {
    && chain != []
    && (forall i | 0 <= i < |chain| - 1 :: Edge(cat, chain[i], chain[i + 1]))
    && Direct(cat, allowed, chain[|chain| - 1])
  }

  ghost predicate MayGenerate(cat: Catalog, allowed: TypeSelector, node: string) {
    exists chain :: Leads(cat, allowed, chain) && chain[0] == node
  }

  lemma MayGenerateHere(cat: Catalog, allowed: TypeSelector, node: string)
    requires Direct(cat, allowed, node)
    ensures MayGenerate(cat, allowed, node)
  {
    assert Leads(cat, allowed, [node]);
  }

  lemma MayGenerateBefore(cat: Catalog, allowed: TypeSelector, from: string, to: string)
    requires Edge(cat, from, to) && MayGenerate(cat, allowed, to)
    ensures MayGenerate(cat, allowed, from)
  {
    var chain :| Leads(cat, allowed, chain) && chain[0] == to;
    var longer := [from] + chain;
    forall i | 0 <= i < |longer| - 1 ensures Edge(cat, longer[i], longer[i + 1]) {
      if i > 0 {
        assert Edge(cat, chain[i - 1], chain[i]);
      }
    }
    assert Leads(cat, allowed, longer);
  }

  /** A set of objects closed backwards along edges that holds every direct object holds all that may generate. */
  lemma {:induction false} BackwardClosed(cat: Catalog, allowed: TypeSelector, marked: set<string>, chain: seq<string>)
    requires Leads(cat, allowed, chain)
    requires forall o | Direct(cat, allowed, o) :: o in marked
    requires forall from, to | Edge(cat, from, to) && to in marked :: from in marked
    ensures chain[0] in marked
    decreases |chain|
  {
    if |chain| > 1 {
      var rest := chain[1..];
      forall i | 0 <= i < |rest| - 1 ensures Edge(cat, rest[i], rest[i + 1]) {
        assert Edge(cat, chain[i + 1], chain[i + 2]);
      }
      BackwardClosed(cat, allowed, marked, rest);
      assert Edge(cat, chain[0], chain[1]);
    }
  }

  /** A set closed forwards without direct objects holds none that may generate. */
  lemma {:induction false} ForwardClosed(cat: Catalog, allowed: TypeSelector, visited: set<string>, chain: seq<string>)
    requires Leads(cat, allowed, chain)
    requires forall o | o in visited :: !Direct(cat, allowed, o)
    requires forall from, to | from in visited && Edge(cat, from, to) :: to in visited
    ensures chain[0] !in visited
    decreases |chain|
  {
    if |chain| > 1 {
      var rest := chain[1..];
      forall i | 0 <= i < |rest| - 1 ensures Edge(cat, rest[i], rest[i + 1]) {
        assert Edge(cat, chain[i + 1], chain[i + 2]);
      }
      ForwardClosed(cat, allowed, visited, rest);
      assert Edge(cat, chain[0], chain[1]);
    }
  }

  // ----- Backward worklist -----

  /** One object's attributes: whether any is direct, and the objects the others refer to. */
  method ScanObject(cat: Catalog, allowed: TypeSelector, node: string) returns (direct: bool, refersTo: set<string>)
    requires node in cat.objects
    ensures direct <==> Direct(cat, allowed, node)
    ensures forall to | to in refersTo :: Edge(cat, node, to)
    ensures !direct ==> forall to | Edge(cat, node, to) :: to in refersTo
  {
    hide AttributeDirect, Nested;
    var attributes := cat.objects[node].item.attributes;
    direct, refersTo := false, {};
    var pending := attributes.Keys;
    while pending != {}
      invariant pending <= attributes.Keys
      invariant direct <==> exists n | n in attributes.Keys - pending :: AttributeDirect(cat, allowed, n, attributes[n])
      invariant forall to | to in refersTo :: Edge(cat, node, to)
      invariant !direct ==> forall n | n in attributes.Keys - pending ::
          Nested(cat, attributes[n]) == None || Nested(cat, attributes[n]).value in refersTo
      decreases pending
    {
      var n :| n in pending;
      pending := pending - {n};
      var nested := Nested(cat, attributes[n]);
      if AttributeDirect(cat, allowed, n, attributes[n]) {
        direct := true;
      } else if nested.Some? {
        assert Edge(cat, node, nested.value);
        refersTo := refersTo + {nested.value};
      }
    }
  }

  ghost predicate ReferrersOf(cat: Catalog, scanned: set<string>, marked: set<string>, referrers: map<string,
                              set<string>>) {
    && (forall to | to in referrers :: forall from | from in referrers[to] :: Edge(cat, from, to))
    && (forall from, to | from in scanned && from !in marked && Edge(cat, from, to) ::
          to in referrers && from in referrers[to])
  }

  method Seed(cat: Catalog, allowed: TypeSelector)
    returns (marked: set<string>, pending: set<string>, referrers: map<string, set<string>>)
    ensures marked == pending
    ensures marked <= cat.objects.Keys
    ensures forall o :: o in marked <==> Direct(cat, allowed, o)
    ensures ReferrersOf(cat, cat.objects.Keys, marked, referrers)
  {
    hide Direct, Edge;
    marked, pending, referrers := {}, {}, map[];
    var left := cat.objects.Keys;
    while left != {}
      invariant left <= cat.objects.Keys
      invariant marked == pending
      invariant forall o :: o in marked <==> o in cat.objects.Keys - left && Direct(cat, allowed, o)
      invariant ReferrersOf(cat, cat.objects.Keys - left, marked, referrers)
      decreases left
    {
      var node :| node in left;
      left := left - {node};
      var direct, refersTo := ScanObject(cat, allowed, node);
      referrers := AddReferrer(cat, referrers, node, refersTo);
      if direct {
        marked := marked + {node};
        pending := pending + {node};
      }
    }
    forall o | Direct(cat, allowed, o) ensures o in marked {
      DirectIsObject(cat, allowed, o);
    }
  }

  lemma DirectIsObject(cat: Catalog, allowed: TypeSelector, o: string)
    requires Direct(cat, allowed, o)
    ensures o in cat.objects
  {
  }

  method AddReferrer(cat: Catalog, referrers: map<string, set<string>>, node: string, refersTo: set<string>)
    returns (r: map<string, set<string>>)
    requires forall to | to in referrers :: forall from | from in referrers[to] :: Edge(cat, from, to)
    requires forall to | to in refersTo :: Edge(cat, node, to)
    ensures forall to | to in r :: forall from | from in r[to] :: Edge(cat, from, to)
    ensures forall to | to in referrers :: to in r && referrers[to] <= r[to]
    ensures forall to | to in refersTo :: to in r && node in r[to]
  {
    hide Edge;
    r := referrers;
    var left := refersTo;
    while left != {}
      invariant left <= refersTo
      invariant forall to | to in r :: forall from | from in r[to] :: Edge(cat, from, to)
      invariant forall to | to in referrers :: to in r && referrers[to] <= r[to]
      invariant forall to | to in refersTo - left :: to in r && node in r[to]
      decreases left
    {
      var to :| to in left;
      left := left - {to};
      r := r[to := (if to in r then r[to] else {}) + {node}];
    }
  }

  /** Marks exactly the objects that may generate, whatever order the worklist is taken in. */
  method CompileObjectObservability(cat: Catalog, allowed: TypeSelector) returns (marked: set<string>)
    ensures forall o :: o in marked <==> MayGenerate(cat, allowed, o)
  {
    hide Direct, Edge;
    var pending, referrers;
    marked, pending, referrers := Seed(cat, allowed);
    forall o | Direct(cat, allowed, o) ensures MayGenerate(cat, allowed, o) {
      MayGenerateHere(cat, allowed, o);
    }
    hide MayGenerate;
    ghost var direct := marked;
    while pending != {}
      invariant direct <= marked && pending <= marked <= cat.objects.Keys
      invariant forall o | o in marked :: MayGenerate(cat, allowed, o)
      invariant ReferrersOf(cat, cat.objects.Keys, direct, referrers)
      invariant forall to | to in marked - pending && to in referrers :: referrers[to] <= marked
      decreases cat.objects.Keys - marked, pending
    {
      var node :| node in pending;
      pending := pending - {node};
      if node in referrers {
        var added := referrers[node] - marked;
        forall from | from in added ensures from in cat.objects && MayGenerate(cat, allowed, from) {
          MayGenerateBefore(cat, allowed, from, node);
          EdgeFromObject(cat, from, node);
        }
        marked := marked + added;
        pending := pending + added;
      }
    }
    Saturated(cat, allowed, direct, marked, referrers);
  }

  lemma EdgeFromObject(cat: Catalog, from: string, to: string)
    requires Edge(cat, from, to)
    ensures from in cat.objects
  {
  }

  lemma Saturated(cat: Catalog, allowed: TypeSelector, direct: set<string>, marked: set<string>,
                  referrers: map<string, set<string>>)
    requires direct <= marked
    requires forall o :: o in direct <==> Direct(cat, allowed, o)
    requires ReferrersOf(cat, cat.objects.Keys, direct, referrers)
    requires forall to | to in marked && to in referrers :: referrers[to] <= marked
    ensures forall o | MayGenerate(cat, allowed, o) :: o in marked
  {
    hide Direct, Edge;
    forall from, to | Edge(cat, from, to) && to in marked ensures from in marked {
      EdgeFromObject(cat, from, to);
    }
    forall o | MayGenerate(cat, allowed, o) ensures o in marked {
      var chain :| Leads(cat, allowed, chain) && chain[0] == o;
      BackwardClosed(cat, allowed, marked, chain);
    }
  }

  // ----- Forward search -----

  /** Not direct, and leading only to visited objects. */
  ghost predicate Explored(cat: Catalog, allowed: TypeSelector, visited: set<string>, node: string) {
    !Direct(cat, allowed, node) && forall to | Edge(cat, node, to) :: to in visited
  }

  /** Marks on entry and never unmarks. On a negative answer everything newly visited is explored. */
  method Visit(cat: Catalog, allowed: TypeSelector, node: string, visited: set<string>)
    returns (found: bool, visited': set<string>)
    requires node in cat.objects && visited <= cat.objects.Keys
    ensures found ==> MayGenerate(cat, allowed, node)
    ensures visited <= visited' <= cat.objects.Keys && node in visited'
    ensures !found ==> forall o | o in visited' - visited :: Explored(cat, allowed, visited', o)
    decreases cat.objects.Keys - visited
  {
    visited' := visited;
    if node in visited {
      return false, visited;
    }
    visited' := visited + {node};
    var attributes := cat.objects[node].item.attributes;
    var pending := attributes.Keys;
    hide MayGenerate, AttributeDirect, Nested, Direct, Explored;
    while pending != {}
      invariant pending <= attributes.Keys
      invariant visited + {node} <= visited' <= cat.objects.Keys
      invariant forall n | n in attributes.Keys - pending ::
        && !AttributeDirect(cat, allowed, n, attributes[n])
        && (Nested(cat, attributes[n]) == None || Nested(cat, attributes[n]).value in visited')
      invariant forall o | o in visited' - visited - {node} :: Explored(cat, allowed, visited', o)
      decreases pending
    {
      var n :| n in pending;
      pending := pending - {n};
      if AttributeDirect(cat, allowed, n, attributes[n]) {
        DirectHere(cat, allowed, node, n);
        MayGenerateHere(cat, allowed, node);
        return true, visited';
      }
      var nested := Nested(cat, attributes[n]);
      if nested.Some? {
        NestedIsObject(cat, attributes[n]);
        assert Edge(cat, node, nested.value);
        ghost var before := visited';
        found, visited' := Visit(cat, allowed, nested.value, visited');
        SettledLater(cat, allowed, before, visited');
        if found {
          MayGenerateBefore(cat, allowed, node, nested.value);
          return true, visited';
        }
      }
    }
    NodeSettled(cat, allowed, node, visited');
    return false, visited';
  }

  lemma SettledLater(cat: Catalog, allowed: TypeSelector, before: set<string>, after: set<string>)
    requires before <= after
    ensures forall o | Explored(cat, allowed, before, o) :: Explored(cat, allowed, after, o)
  {
    hide Edge, Direct;
  }

  lemma DirectHere(cat: Catalog, allowed: TypeSelector, node: string, name: string)
    requires node in cat.objects && name in cat.objects[node].item.attributes
    requires AttributeDirect(cat, allowed, name, cat.objects[node].item.attributes[name])
    ensures Direct(cat, allowed, node)
  {
  }

  lemma NodeSettled(cat: Catalog, allowed: TypeSelector, node: string, visited: set<string>)
    requires node in cat.objects
    requires var attributes := cat.objects[node].item.attributes;
      forall n | n in attributes ::
        && !AttributeDirect(cat, allowed, n, attributes[n])
        && (Nested(cat, attributes[n]) == None || Nested(cat, attributes[n]).value in visited)
    ensures Explored(cat, allowed, visited, node)
  {
    hide AttributeDirect, Nested;
  }

  lemma NestedIsObject(cat: Catalog, attr: AttrDef)
    requires Nested(cat, attr).Some?
    ensures Nested(cat, attr).value in cat.objects
  {
  }

  /** The uncached answer: the same as the compiled one for every object. */
  method ObjectMayGenerate(cat: Catalog, allowed: TypeSelector, node: string) returns (found: bool)
    requires node in cat.objects
    ensures found <==> MayGenerate(cat, allowed, node)
  {
    var visited;
    found, visited := Visit(cat, allowed, node, {});
    if !found {
      NotVisited(cat, allowed, node, visited);
    }
  }

  lemma NotVisited(cat: Catalog, allowed: TypeSelector, node: string, visited: set<string>)
    requires node in visited
    requires forall o | o in visited :: Explored(cat, allowed, visited, o)
    ensures !MayGenerate(cat, allowed, node)
  {
    hide Direct, Edge;
    forall chain | Leads(cat, allowed, chain) ensures chain[0] != node {
      ForwardClosed(cat, allowed, visited, chain);
    }
  }

  /** Whether an object attribute, or anything below it, may generate an observable. */
  ghost predicate AttributeMayGenerate(cat: Catalog, allowed: TypeSelector, name: string, attr: AttrDef) {
    && attr.objectType.Some? && attr.objectType.value in cat.objects
    && (DirectlyObservable(cat, allowed, name, attr, cat.objects[attr.objectType.value])
        || MayGenerate(cat, allowed, attr.objectType.value))
  }

  /** With a compiled cache or without one, the same answer. */
  method AttributeMayGenerateWith(cat: Catalog, allowed: TypeSelector, name: string, attr: AttrDef,
                                  cache: Option<set<string>>)
    returns (r: bool)
    requires cache.Some? ==> forall o :: o in cache.value <==> MayGenerate(cat, allowed, o)
    ensures r <==> AttributeMayGenerate(cat, allowed, name, attr)
  {
    if attr.objectType == None || attr.objectType.value !in cat.objects {
      return false;
    }
    var node := attr.objectType.value;
    if DirectlyObservable(cat, allowed, name, attr, cat.objects[node]) {
      return true;
    }
    if cache.Some? {
      return node in cache.value;
    }
    r := ObjectMayGenerate(cat, allowed, node);
  }
}
