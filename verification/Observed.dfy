/** What a walk observes, told from the item it leaves and the schema's declarations alone. */
module Observed {
  import opened Text
  import opened Values
  import TI = TypeInheritance
  import opened Schema
  import opened Foreseen
  import opened Walk
  import opened Settling
  import opened Generation
  import NE = NumericEnum
  import EP = EventPath

  // ----- Places -----

  /** A value with the attribute it belongs to; `repeated` when the attribute's name was entered above it. */
  datatype Place = Place(name: string, attr: AttrDef, value: Value, repeated: bool)

  predicate InProfiles(attr: AttrDef, profiles: set<string>) {
    attr.profiles == [] || exists p | p in attr.profiles :: p in profiles
  }

  predicate OfScalars(attr: AttrDef) {
    attr.typ != "object_t"
    || (attr.isArray && attr.primitive in {"boolean_t", "float_t", "integer_t", "long_t", "string_t"})
  }

  /** What stands at a path relative to an item, along attributes of the active profiles, one index to an array, and
      defined objects none of whose names was entered before. */
  function PlaceAt(c: Ctx, def: ItemDef, item: Item, path: Elems, entered: set<string>): Option<Place>
    decreases |path|, 0
  {
    if path == [] || !path[0].Attribute? then None
    else
      var name := path[0].name;
      if name !in def.attributes || !InProfiles(def.attributes[name], c.profiles) || name !in item then None
      else InValue(c, name, def.attributes[name], item[name], path[1..], entered)
  }

  function InValue(c: Ctx, name: string, attr: AttrDef, v: Value, path: Elems, entered: set<string>): Option<Place>
    decreases |path|, 2
  {
    if !attr.isArray then Onward(c, Place(name, attr, v, name in entered), path, entered)
    else if path == [] || path[0].Attribute? || !v.Arr? || path[0].index >= |v.elems| then None
    else Onward(c, Place(name, attr, v.elems[path[0].index], name in entered), path[1..], entered)
  }

  function Onward(c: Ctx, place: Place, path: Elems, entered: set<string>): Option<Place>
    decreases |path|, 1
  {
    if path == [] then Some(place)
    else if OfScalars(place.attr) || !IsObject(c, place) then None
    else PlaceAt(c, c.cat.objects[place.attr.objectType.value].item, place.value.fields, path, entered + {place.name})
  }

  /** An object of a defined type, at a name not entered above. */
  predicate IsObject(c: Ctx, place: Place) {
    place.value.Obj? && !place.repeated
    && place.attr.objectType.Some? && place.attr.objectType.value in c.cat.objects
  }

  /** The text of a scalar, which no other value has. */
  predicate Spelled(v: Value, text: string) {
    match v
    case Str(s) => text == s
    case Number(spelling) => text == spelling && text != ""
    case Int(i) => text == FormatInt(i)
    case Bool(b) => text == if b then "true" else "false"
    case _ => false
  }

  /** The class declares the type under the attribute names of the path. */
  predicate ClassSays(c: Ctx, at: Elems, t: int64) {
    exists d | d in c.cls.observables :: Split(d, '.') == EP.AttributeNames(at) && c.cls.observables[d] == t
  }

  // ----- The walk observes places -----

  /** The schema calls for an observation at a place. */
  ghost predicate CalledThere(c: Ctx, place: Option<Place>, e: Effect)
    requires e.Observe?
  {
    && place.Some? && var here := place.value;
      if OfScalars(here.attr) then here.attr.enum == None && ScalarCalls(c, here.name, here.attr, here.value, e)
      else IsObject(c, here)
           && ObjectCalls(c, here.name, here.attr, c.cat.objects[here.attr.objectType.value], e)
  }

  lemma {:induction false} CallsPlace(c: Ctx, def: ItemDef, item: Item, path: Elems, rel: Elems, e: Effect)
    requires Ready(c) && Known(c, def) && c.observables == Add && e.Observe? && e.path == path + rel
    ensures Calls(c, def, item, path, e) <==> CalledThere(c, PlaceAt(c, def, item, rel, Used(path)), e)
    decreases |rel|, 1
  {
    hide Ready, Known, CalledThere, Onward, CallsAt, CallsFor, Calls, Visited, Used, InProfiles;
    NoPlace(c);
    if rel == [] || !rel[0].Attribute? {
      CallsHead(c, def, item, path, rel, e);
    } else {
      var name := rel[0].name;
      CallsHead(c, def, item, path, rel, e);
      VisitedMeans(c, def, name);
      if name in def.attributes && InProfiles(def.attributes[name], c.profiles) && name in item {
        var attr, at := def.attributes[name], path + [EP.Attribute(name)];
        UsedAt(path, name, []);
        assert at + [] == at && e.path == at + rel[1..];
        HeadCalls(c, name, attr, item[name], path, rel[1..], e);
        if attr.enum == None || !OfScalars(attr) {
          ActiveVisited(c, def, name);
        }
      }
    }
  }

  lemma NoPlace(c: Ctx)
    ensures forall e: Effect | e.Observe? :: !CalledThere(c, None, e)
  {
  }

  lemma CallsHead(c: Ctx, def: ItemDef, item: Item, path: Elems, rel: Elems, e: Effect)
    requires e.Observe? && e.path == path + rel
    ensures Calls(c, def, item, path, e) <==>
      && rel != [] && rel[0].Attribute? && Visited(c, def, rel[0].name) && Attribute(item, rel[0].name).Some?
      && CallsFor(c, rel[0].name, def.attributes[rel[0].name], item[rel[0].name], path + [EP.Attribute(rel[0].name)],
                  Used(path), e)
  {
    hide Visited, CallsFor;
    if rel != [] {
      assert e.path[|path|] == rel[0];
    }
  }

  /** The values of one attribute. */
  lemma {:induction false} HeadCalls(c: Ctx, name: string, attr: AttrDef, v: Value, outer: Elems, rest: Elems, e: Effect)
    requires Ready(c) && c.observables == Add && e.Observe? && e.path == outer + [EP.Attribute(name)] + rest
    ensures CallsFor(c, name, attr, v, outer + [EP.Attribute(name)], Used(outer), e) <==>
      CalledThere(c, InValue(c, name, attr, v, rest, Used(outer)), e)
    ensures CallsFor(c, name, attr, v, outer + [EP.Attribute(name)], Used(outer), e) ==>
      v != Null && (attr.enum == None || !OfScalars(attr))
    decreases |rest|, 3
  {
    hide Ready, CalledThere, Onward, CallsAt, Used;
    NoPlace(c);
    var at := outer + [EP.Attribute(name)];
    if !attr.isArray {
      UsedAt(outer, name, []);
      assert at + [] == at;
      OnwardCalls(c, Place(name, attr, v, name in Used(outer)), at, rest, outer, e);
    } else if rest != [] && rest[0].ArrayIndex? && v.Arr? && rest[0].index < |v.elems| {
      var i := rest[0].index;
      var here := at + [EP.ArrayIndex(i)];
      UsedAt(outer, name, [EP.ArrayIndex(i)]);
      assert e.path[|at|] == rest[0] && e.path == here + rest[1..];
      OnwardCalls(c, Place(name, attr, v.elems[i], name in Used(outer)), here, rest[1..], outer, e);
    } else {
      assert rest != [] ==> e.path[|at|] == rest[0];
    }
  }

  lemma {:induction false} OnwardCalls(c: Ctx, place: Place, at: Elems, rest: Elems, outer: Elems, e: Effect)
    requires Ready(c) && c.observables == Add && e.Observe? && e.path == at + rest
    requires Used(at) == Used(outer) + {place.name} && (place.repeated <==> place.name in Used(outer))
    ensures CallsAt(c, place.name, place.attr, place.value, at, Used(outer), e) <==>
      CalledThere(c, Onward(c, place, rest, Used(outer)), e)
    ensures CallsAt(c, place.name, place.attr, place.value, at, Used(outer), e) ==>
      place.value != Null && (place.attr.enum == None || !OfScalars(place.attr))
    decreases |rest|, 2
  {
    if rest != [] && !OfScalars(place.attr) && IsObject(c, place) {
      ObjectKnown(c, place.attr.objectType.value);
      CallsPlace(c, c.cat.objects[place.attr.objectType.value].item, place.value.fields, at, rest, e);
    }
    hide Ready, Calls, PlaceAt, Used, ObservableType, TI.DerivedFrom, ObjectCalls;
    assert rest == [] <==> e.path == at;
  }

  lemma VisitedMeans(c: Ctx, def: ItemDef, name: string)
    ensures Visited(c, def, name) ==> name in def.attributes && InProfiles(def.attributes[name], c.profiles)
  {
  }

  /** An active attribute is visited, alone or as a sibling, unless it is the enum of a pair. */
  lemma ActiveVisited(c: Ctx, def: ItemDef, name: string)
    requires Known(c, def) && name in def.attributes && InProfiles(def.attributes[name], c.profiles)
    requires def.attributes[name].enum == None || !OfScalars(def.attributes[name])
    ensures Visited(c, def, name)
  {
    hide NE.Compiled, NeedsIndex, PrimitiveOf;
    if name in def.links {
      LinkEnds(def.attributes, name);
    }
  }

  // ----- What is observed -----

  /** A scalar without an enum is observed with its text, and under one type: its type's own, else the one the dictionary
      gives its name, else its attribute's own, else the class's. The first of these that is declared counts, and hides
      the others even when it is not selected. */
  lemma ScalarObserved(c: Ctx, item: Item, def: ItemDef, path: Elems, rel: Elems, t: int64, text: string)
    requires Ready(c) && Known(c, def) && c.observables == Add
    requires var place := PlaceAt(c, def, VisitItem(c, item, def, path).item, rel, Used(path));
      place.Some? && OfScalars(place.value.attr) && place.value.attr.enum == None
    ensures var after := VisitItem(c, item, def, path);
      var at, place := path + rel, PlaceAt(c, def, after.item, rel, Used(path)).value;
      var typ, seen := place.attr.typ, Observe(path + rel, t, Some(text)) in after.trace;
      var ofType := if typ in c.cat.types then c.cat.types[typ].observable else None;
      var texted := Spelled(place.value, text) && !TI.DerivedFrom(c.cat.types, typ, "json_t");
      && (ofType.Some? ==> (seen <==> texted && t == ofType.value && Chosen(c.allowed, t)))
      && (ofType == None && place.name in c.cat.dictionary ==>
            (seen <==> texted && t == c.cat.dictionary[place.name] && Chosen(c.allowed, t)))
      && (ofType == None && place.name !in c.cat.dictionary && place.attr.observable.Some? ==>
            (seen <==> texted && t == place.attr.observable.value && Chosen(c.allowed, t)))
      && (ofType == None && place.name !in c.cat.dictionary && place.attr.observable == None ==>
            (seen <==> texted && ClassSays(c, at, t) && Chosen(c.allowed, t)))
  {
    hide Ready, Known, VisitItem, Calls, PlaceAt, OfScalars, TI.DerivedFrom, ObservableType, ClassSays, Spelled, Used, IsObject,
      ObjectCalls;
    var after, e := VisitItem(c, item, def, path), Observe(path + rel, t, Some(text));
    var place := PlaceAt(c, def, after.item, rel, Used(path));
    WalkExact(c, item, def, path, e);
    CallsPlace(c, def, after.item, path, rel, e);
    TypeChosen(c, path + rel, place.value.name, place.value.attr, t);
    SpelledText(place.value.value, text);
  }

  /** An object is observed without a text, under the type of its definition, or else as a scalar would be. */
  lemma ObjectObserved(c: Ctx, item: Item, def: ItemDef, path: Elems, rel: Elems, t: int64)
    requires Ready(c) && Known(c, def) && c.observables == Add
    requires var place := PlaceAt(c, def, VisitItem(c, item, def, path).item, rel, Used(path));
      place.Some? && !OfScalars(place.value.attr) && IsObject(c, place.value)
    ensures var after := VisitItem(c, item, def, path);
      var at, place := path + rel, PlaceAt(c, def, after.item, rel, Used(path)).value;
      var typ, seen := place.attr.typ, Observe(path + rel, t, None) in after.trace;
      var ofObject := c.cat.objects[place.attr.objectType.value].observable;
      var ofType := if typ in c.cat.types then c.cat.types[typ].observable else None;
      && (ofObject.Some? ==> (seen <==> t == ofObject.value && Chosen(c.allowed, t)))
      && (ofObject == None && ofType.Some? ==> (seen <==> t == ofType.value && Chosen(c.allowed, t)))
      && (ofObject == None && ofType == None && place.name in c.cat.dictionary ==>
            (seen <==> t == c.cat.dictionary[place.name] && Chosen(c.allowed, t)))
      && (ofObject == None && ofType == None && place.name !in c.cat.dictionary && place.attr.observable.Some? ==>
            (seen <==> t == place.attr.observable.value && Chosen(c.allowed, t)))
      && (ofObject == None && ofType == None && place.name !in c.cat.dictionary && place.attr.observable == None ==>
            (seen <==> ClassSays(c, at, t) && Chosen(c.allowed, t)))
  {
    hide Ready, Known, VisitItem, Calls, PlaceAt, OfScalars, ObservableType, ClassSays, Used, IsObject, ScalarCalls;
    var after, e := VisitItem(c, item, def, path), Observe(path + rel, t, None);
    var place := PlaceAt(c, def, after.item, rel, Used(path));
    WalkExact(c, item, def, path, e);
    CallsPlace(c, def, after.item, path, rel, e);
    TypeChosen(c, path + rel, place.value.name, place.value.attr, t);
  }

  /** Nothing else is observed: only scalars without an enum, with their text, and objects, without one. */
  lemma NothingElseObserved(c: Ctx, item: Item, def: ItemDef, path: Elems, e: Effect)
    requires Ready(c) && Known(c, def) && c.observables == Add
    requires e.Observe? && e in VisitItem(c, item, def, path).trace
    ensures path <= e.path
    ensures var place := PlaceAt(c, def, VisitItem(c, item, def, path).item, e.path[|path|..], Used(path));
      && place.Some?
      && if OfScalars(place.value.attr)
         then place.value.attr.enum == None && e.text.Some? && Spelled(place.value.value, e.text.value)
         else IsObject(c, place.value) && e.text == None
  {
    hide Ready, Known, VisitItem, Calls, PlaceAt, OfScalars, TI.DerivedFrom, Spelled, Used, ObservableType, IsObject;
    var after := VisitItem(c, item, def, path);
    WalkExact(c, item, def, path, e);
    CallsBelow(c, def, after.item, path, e);
    assert e.path == path + e.path[|path|..];
    CallsPlace(c, def, after.item, path, e.path[|path|..], e);
    var place := PlaceAt(c, def, after.item, e.path[|path|..], Used(path));
    if e.text.Some? {
      SpelledText(place.value.value, e.text.value);
    }
  }

  lemma SpelledText(v: Value, text: string)
    ensures Spelled(v, text) <==> FormatScalar(v) == Some(text) && (text != "" || v.Str?)
  {
  }

  /** Which type an attribute is observed under. */
  lemma TypeChosen(c: Ctx, at: Elems, name: string, attr: AttrDef, t: int64)
    ensures var chosen := ObservableType(c, at, name, attr) == Some(t);
      var ofType := if attr.typ in c.cat.types then c.cat.types[attr.typ].observable else None;
      && (ofType.Some? ==> (chosen <==> t == ofType.value && Chosen(c.allowed, t)))
      && (ofType == None && name in c.cat.dictionary ==> (chosen <==> t == c.cat.dictionary[name] && Chosen(c.allowed, t)))
      && (ofType == None && name !in c.cat.dictionary && attr.observable.Some? ==>
            (chosen <==> t == attr.observable.value && Chosen(c.allowed, t)))
      && (ofType == None && name !in c.cat.dictionary && attr.observable == None ==>
            (chosen <==> ClassSays(c, at, t) && Chosen(c.allowed, t)))
  {
    ClassDeclares(c, at, t);
    hide ClassDeclared, ClassSays;
  }

  lemma ClassDeclares(c: Ctx, at: Elems, t: int64)
    ensures ClassDeclared(c, at) == Some(t) <==> ClassSays(c, at, t) && Chosen(c.allowed, t)
  {
    var names := EP.AttributeNames(at);
    if ClassSays(c, at, t) {
      var d :| d in c.cls.observables && Split(d, '.') == names && c.cls.observables[d] == t;
      JoinSplit(d, '.');
    }
  }

  // ----- What is reported instead -----

  /** A scalar of an observable type is observed or reported: a json_t value because its type says too little of it, and
      one without a text because there is nothing to say. */
  lemma ScalarOutcome(c: Ctx, at: Elems, name: string, attr: AttrDef, v: Value)
    ensures var outcome := ScalarObservable(c, at, name, attr, v);
      && (ObservableType(c, at, name, attr) == None ==> outcome == [])
      && (ObservableType(c, at, name, attr).Some? ==>
            var t := ObservableType(c, at, name, attr).value;
            if TI.DerivedFrom(c.cat.types, attr.typ, "json_t") then outcome == [Raise(ObservableNotAddedJSONType)]
            else
              && (forall text | Spelled(v, text) :: outcome == [Observe(at, t, Some(text))])
              && ((forall text :: !Spelled(v, text)) ==> outcome == [Raise(ObservableNotAddedWrongType)]))
  {
    hide TI.DerivedFrom, ObservableType;
    forall text ensures Spelled(v, text) <==> FormatScalar(v) == Some(text) && (text != "" || v.Str?) {
      SpelledText(v, text);
    }
    hide Spelled;
    if FormatScalar(v).Some? && (FormatScalar(v).value != "" || v.Str?) {
      assert Spelled(v, FormatScalar(v).value);
    }
  }
}
