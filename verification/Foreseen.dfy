/** Which objects and attributes discovery foresees observables in, told from the schema's declarations. */
module Foreseen {
  import opened Text
  import opened Schema
  import opened Observability

  predicate Chosen(allowed: TypeSelector, t: int64) {
    allowed == None || t in allowed.value
  }

  /** The first declaration of a type for an attribute: its type's, else the dictionary's for its name, else its own. */
  predicate Declared(cat: Catalog, name: string, attr: AttrDef, t: int64) {
    if attr.typ in cat.types && cat.types[attr.typ].observable != None then cat.types[attr.typ].observable == Some(t)
    else if name in cat.dictionary then cat.dictionary[name] == t
    else attr.observable == Some(t)
  }

  /** The type of an object: its definition's, or else its attribute's. */
  predicate ObjectDeclared(cat: Catalog, name: string, attr: AttrDef, o: string, t: int64) {
    o in cat.objects
    && if cat.objects[o].observable.Some? then cat.objects[o].observable == Some(t) else Declared(cat, name, attr, t)
  }

  /** The type of an attribute's values: of its objects, or, when it is of no object type or does not say of which, of its
      scalars. */
  predicate ValueDeclared(cat: Catalog, name: string, attr: AttrDef, t: int64) {
    if attr.typ == "object_t" && attr.objectType.Some? then ObjectDeclared(cat, name, attr, attr.objectType.value, t)
    else Declared(cat, name, attr, t)
  }

  /** The attribute's values are observable themselves. */
  ghost predicate Itself(cat: Catalog, allowed: TypeSelector, name: string, attr: AttrDef) {
    exists t: int64 :: Chosen(allowed, t) && ValueDeclared(cat, name, attr, t)
  }

  predicate Holds(cat: Catalog, from: string, to: string) {
    && from in cat.objects && to in cat.objects
    && exists n | n in cat.objects[from].item.attributes :: OfObject(cat.objects[from].item.attributes[n], to)
  }

  predicate OfObject(attr: AttrDef, o: string) {
    attr.typ == "object_t" && attr.objectType == Some(o)
  }

  ghost predicate HasItself(cat: Catalog, allowed: TypeSelector, o: string) {
    o in cat.objects
    && exists n | n in cat.objects[o].item.attributes :: Itself(cat, allowed, n, cat.objects[o].item.attributes[n])
  }

  /** Objects, each with an attribute of the next one's type, to one that has an attribute observable itself. */
  ghost predicate Reaches(cat: Catalog, allowed: TypeSelector, chain: seq<string>) {
    && chain != [] && (forall i | 0 <= i < |chain| - 1 :: Holds(cat, chain[i], chain[i + 1]))
    && HasItself(cat, allowed, chain[|chain| - 1])
  }

  lemma DeclaredMeans(cat: Catalog, name: string, attr: AttrDef)
    ensures forall t: int64 :: TypeID(cat, name, attr) == Some(t) <==> Declared(cat, name, attr, t)
  {
  }

  lemma ItselfMeans(cat: Catalog, allowed: TypeSelector, name: string, attr: AttrDef)
    ensures AttributeDirect(cat, allowed, name, attr) <==> Itself(cat, allowed, name, attr)
  {
    DeclaredMeans(cat, name, attr);
    hide TypeID, Declared;
    if AttributeDirect(cat, allowed, name, attr) {
      var t := if attr.typ == "object_t" && attr.objectType.Some? && cat.objects[attr.objectType.value].observable.Some?
               then cat.objects[attr.objectType.value].observable.value else TypeID(cat, name, attr).value;
      assert Chosen(allowed, t) && ValueDeclared(cat, name, attr, t);
    }
  }

  lemma DirectMeans(cat: Catalog, allowed: TypeSelector, o: string)
    ensures Direct(cat, allowed, o) <==> HasItself(cat, allowed, o)
  {
    hide AttributeDirect, Itself;
    forall n, attr ensures AttributeDirect(cat, allowed, n, attr) <==> Itself(cat, allowed, n, attr) {
      ItselfMeans(cat, allowed, n, attr);
    }
  }

  lemma EdgeMeans(cat: Catalog, from: string, to: string)
    ensures Edge(cat, from, to) <==> Holds(cat, from, to)
  {
    if from in cat.objects {
      forall n | n in cat.objects[from].item.attributes
        ensures Nested(cat, cat.objects[from].item.attributes[n]) == Some(to) <==>
          to in cat.objects && OfObject(cat.objects[from].item.attributes[n], to)
      {
      }
    }
  }

  /** Discovery foresees observables in an object exactly when a chain of its nested objects reaches one with an attribute
      that is observable itself. */
  lemma ForeseenExactly(cat: Catalog, allowed: TypeSelector, o: string)
    ensures MayGenerate(cat, allowed, o) <==> exists chain :: Reaches(cat, allowed, chain) && chain[0] == o
  {
    forall chain ensures Leads(cat, allowed, chain) <==> Reaches(cat, allowed, chain) {
      LeadsMeans(cat, allowed, chain);
    }
    hide Holds, HasItself, Leads;
  }

  lemma LeadsMeans(cat: Catalog, allowed: TypeSelector, chain: seq<string>)
    ensures Leads(cat, allowed, chain) <==> Reaches(cat, allowed, chain)
  {
    hide Edge, Direct, Holds, HasItself;
    if chain != [] {
      DirectMeans(cat, allowed, chain[|chain| - 1]);
      forall i | 0 <= i < |chain| - 1 ensures Edge(cat, chain[i], chain[i + 1]) <==> Holds(cat, chain[i], chain[i + 1]) {
        EdgeMeans(cat, chain[i], chain[i + 1]);
      }
    }
  }

  /** And in an attribute exactly when it is of a defined object type that is observable itself or foreseen. */
  lemma AttributeForeseen(cat: Catalog, allowed: TypeSelector, name: string, attr: AttrDef)
    ensures AttributeMayGenerate(cat, allowed, name, attr) <==>
      && attr.objectType.Some? && attr.objectType.value in cat.objects
      && ((exists t: int64 :: Chosen(allowed, t) && ObjectDeclared(cat, name, attr, attr.objectType.value, t))
          || exists chain :: Reaches(cat, allowed, chain) && chain[0] == attr.objectType.value)
  {
    DeclaredMeans(cat, name, attr);
    hide TypeID, Declared, MayGenerate, Holds, HasItself;
    if attr.objectType.Some? && attr.objectType.value in cat.objects {
      ForeseenExactly(cat, allowed, attr.objectType.value);
      var node := cat.objects[attr.objectType.value];
      if DirectlyObservable(cat, allowed, name, attr, node) {
        var t := if node.observable.Some? then node.observable.value else TypeID(cat, name, attr).value;
        assert Chosen(allowed, t) && ObjectDeclared(cat, name, attr, attr.objectType.value, t);
      }
    }
  }
}
