/** When the walk reports the traversal limit: exactly when the event nests an object under a name already entered. */
module Boundary {
  import opened Text
  import opened Values
  import opened Schema
  import opened Walk
  import opened Settling
  import opened Observed
  import NE = NumericEnum
  import EP = EventPath

  // ----- Steps that reach no limit and find nothing -----

  predicate NoLimit(trace: seq<Effect>) {
    ReachLimit !in trace
  }

  predicate Silent(trace: seq<Effect>) {
    forall e | e in trace :: !e.ReachLimit? && !e.Find?
  }

  /** What is found and what is observed, and nothing else. */
  predicate Plain(trace: seq<Effect>) {
    forall e | e in trace ::
      e.Find? || e.Observe? || e in {Raise(ObservableNotAddedWrongType), Raise(ObservableNotAddedJSONType)}
  }

  /** What becomes of siblings, and nothing else. */
  predicate OfSiblings(trace: seq<Effect>) {
    forall e | e in trace ::
      || e.SiblingAdded? || e.SiblingRemoved? || e.SiblingRetained?
      || e in {Raise(EnumSiblingNotAdded), Raise(EnumSiblingOtherAdded), Raise(EnumSiblingNotRemoved)}
  }

  lemma JudgedPlain(c: Ctx, hook: Hook, path: Elems, item: Item, v: Value)
    ensures Plain(Judged(c, hook, path, item, v))
  {
  }

  lemma {:induction false} RemoveArrayOfSiblings(c: Ctx, item: Item, attr: AttrDef, s: string, elems: seq<Value>,
                                                 siblings: seq<Value>, force: bool, i: nat)
    requires i <= |elems| && (force || |elems| == |siblings|)
    ensures OfSiblings(RemoveArray(c, item, attr, s, elems, siblings, force, i).trace)
    decreases |elems| - i
  {
    hide LookupEnum;
    if i < |elems| {
      RemoveArrayOfSiblings(c, item, attr, s, elems, siblings, force, i + 1);
    }
  }

  lemma StepSilent(c: Ctx, item: Item, e: string, attr: AttrDef, s: string)
    ensures Silent(EnumStep(c, item, e, attr, s).trace) && OfSiblings(EnumStep(c, item, e, attr, s).trace)
  {
    hide RemoveArray, LookupEnum;
    var force := c.enums == ForceRemove;
    if s in item && attr.isArray && item[s].Arr? && Attribute(item, e).Some? && item[e].Arr?
       && (force || |item[e].elems| == |item[s].elems|) {
      RemoveArrayOfSiblings(c, item, attr, s, item[e].elems, item[s].elems, force, 0);
    }
  }

  lemma ScalarSilent(c: Ctx, path: Elems, name: string, attr: AttrDef, v: Value)
    ensures Silent(ScalarObservable(c, path, name, attr, v)) && Plain(ScalarObservable(c, path, name, attr, v))
  {
    hide ObservableType;
  }

  lemma {:induction false} ElementsSilent(c: Ctx, path: Elems, name: string, attr: AttrDef, elems: seq<Value>, i: nat)
    requires i <= |elems|
    ensures Silent(ArrayObservables(c, path, name, attr, elems, i)) && Plain(ArrayObservables(c, path, name, attr, elems, i))
    decreases |elems| - i
  {
    if i < |elems| {
      hide ScalarObservable;
      ElementsSilent(c, path, name, attr, elems, i + 1);
      ScalarSilent(c, path + [EP.ArrayIndex(i)], name, attr, elems[i]);
    }
  }

  lemma SiblingSilent(c: Ctx, path: Elems, name: string, attr: AttrDef, v: Value)
    ensures Silent(SiblingObservables(c, path, name, attr, v)) && Plain(SiblingObservables(c, path, name, attr, v))
  {
    hide ArrayObservables, ScalarObservable, ObservableType;
    ScalarSilent(c, path, name, attr, v);
    if v.Arr? {
      ElementsSilent(c, path, name, attr, v.elems, 0);
    }
  }

  lemma ObjectSilent(c: Ctx, at: Elems, name: string, attr: AttrDef, def: ObjectDef)
    ensures Silent(ObjectObservable(c, at, name, attr, def)) && Plain(ObjectObservable(c, at, name, attr, def))
  {
    hide ObservableType;
  }

  lemma RetainedSilent(c: Ctx, item: Item, def: ItemDef, name: string)
    requires name in def.attributes
    ensures Silent(RetainUnsupported(c, item, def, name).trace) && OfSiblings(RetainUnsupported(c, item, def, name).trace)
  {
  }

  lemma PairNoLimit(c: Ctx, item: Item, def: ItemDef, e: string, s: string, path: Elems)
    requires e in def.attributes && s in def.attributes
    ensures NoLimit(VisitPair(c, item, def, e, s, path).trace)
  {
    hide EnumStep, Judged, SiblingObservables;
    var step := EnumStep(c, item, e, def.attributes[e], s);
    StepSilent(c, item, e, def.attributes[e], s);
    JudgedPlain(c, OnPair(s), path + [EP.Attribute(e)], step.item, Null);
    if Attribute(step.item, s).Some? {
      SiblingSilent(c, path + [EP.Attribute(s)], s, def.attributes[s], step.item[s]);
    }
  }

  lemma PrimitivePlain(c: Ctx, item: Item, v: Value, name: string, attr: AttrDef, path: Elems, hook: Hook)
    ensures Plain(PrimitiveStep(c, item, v, name, attr, path, hook))
  {
    hide Judged, ScalarObservable;
    JudgedPlain(c, hook, path, item, v);
    ScalarSilent(c, path, name, attr, v);
  }

  lemma {:induction false} ScalarElemsPlain(c: Ctx, item: Item, elems: seq<Value>, name: string, attr: AttrDef,
                                              path: Elems, i: nat)
    requires i <= |elems|
    ensures Plain(VisitScalarElems(c, item, elems, name, attr, path, i))
    decreases |elems| - i
  {
    hide Judged, PrimitiveStep;
    if i < |elems| {
      var at := path + [EP.ArrayIndex(i)];
      JudgedPlain(c, OnElementEnum, at, item, elems[i]);
      PrimitivePlain(c, item, elems[i], name, attr, at, OnElementPrimitive);
      ScalarElemsPlain(c, item, elems, name, attr, path, i + 1);
    }
  }

  // ----- The limit -----

  /** An object of a defined type stands there whose attribute's name was entered above it. */
  predicate Recurs(c: Ctx, place: Option<Place>) {
    && place.Some? && !OfScalars(place.value.attr) && place.value.value.Obj? && place.value.repeated
    && place.value.attr.objectType.Some? && place.value.attr.objectType.value in c.cat.objects
  }

  ghost predicate RecursIn(c: Ctx, def: ItemDef, item: Item, used: set<string>) {
    exists rel: Elems :: Recurs(c, PlaceAt(c, def, item, rel, used))
  }

  /** The same below one attribute's value. */
  ghost predicate RecursBelow(c: Ctx, name: string, attr: AttrDef, v: Value, used: set<string>) {
    exists rel: Elems :: Recurs(c, InValue(c, name, attr, v, rel, used))
  }

  /** The walk reports the traversal limit exactly when the event, as it came, recurs somewhere. */
  lemma {:induction false} LimitExactly(c: Ctx, item: Item, def: ItemDef, path: Elems)
    requires Ready(c) && Known(c, def)
    ensures ReachLimit in VisitItem(c, item, def, path).trace <==> RecursIn(c, def, item, Used(path))
    decreases Unused(c, path), 5
  {
    hide Ready, Known, Stage, VisitFrom, RecursBelow, RecursIn;
    StageStart(c, item, def, Used(path));
    KnownOrder(c, def);
    FromLimit(c, item, item, def, def.ordered, {}, path);
    SlotsRecur(c, def, item, Used(path));
  }

  ghost predicate SlotRecurs(c: Ctx, def: ItemDef, item: Item, used: set<string>, name: string)
    requires name in def.attributes
  {
    InProfiles(def.attributes[name], c.profiles) && name in item
    && RecursBelow(c, name, def.attributes[name], item[name], used)
  }

  lemma SlotsRecur(c: Ctx, def: ItemDef, item: Item, used: set<string>)
    ensures RecursIn(c, def, item, used) <==> exists n | n in def.attributes :: SlotRecurs(c, def, item, used, n)
  {
    hide InValue, Recurs, InProfiles;
    NoneRecurs(c);
    if rel: Elems :| Recurs(c, PlaceAt(c, def, item, rel, used)) {
      var n := rel[0].name;
      assert Recurs(c, InValue(c, n, def.attributes[n], item[n], rel[1..], used));
      assert SlotRecurs(c, def, item, used, n);
    }
    if n: string :| n in def.attributes && SlotRecurs(c, def, item, used, n) {
      var rest: Elems :| Recurs(c, InValue(c, n, def.attributes[n], item[n], rest, used));
      var rel := [EP.Attribute(n)] + rest;
      assert rel[1..] == rest;
      assert Recurs(c, PlaceAt(c, def, item, rel, used));
    }
  }

  lemma NoneRecurs(c: Ctx)
    ensures !Recurs(c, None)
  {
  }

  lemma {:induction false} FromLimit(c: Ctx, orig: Item, cur: Item, def: ItemDef, names: seq<string>, done: set<string>,
                                     path: Elems)
    requires Ready(c) && Known(c, def) && Stage(c, orig, cur, def, Used(path), done)
    requires Ascending(names) && forall n | n in names :: n in def.attributes && n !in done
    ensures ReachLimit in VisitFrom(c, cur, def, names, path).trace <==>
      exists n | n in names :: SlotRecurs(c, def, orig, Used(path), n)
    decreases Unused(c, path), 4, |names|
  {
    hide Ready, Known, Stage, VisitOne, SlotRecurs;
    if names != [] {
      OneLimit(c, orig, cur, def, names[0], done, path);
      OneSettles(c, orig, cur, def, names[0], done, path);
      AscendingTail(names);
      HeadAndTail(names);
      hide Ascending;
      FromLimit(c, orig, VisitOne(c, cur, def, names[0], path).item, def, names[1..], done + {names[0]}, path);
    }
  }

  lemma {:induction false} OneLimit(c: Ctx, orig: Item, cur: Item, def: ItemDef, name: string, done: set<string>,
                                    path: Elems)
    requires Ready(c) && Known(c, def) && Stage(c, orig, cur, def, Used(path), done)
    requires name in def.attributes && name !in done
    ensures ReachLimit in VisitOne(c, cur, def, name, path).trace <==> SlotRecurs(c, def, orig, Used(path), name)
    decreases Unused(c, path), 3
  {
    hide Ready, Known, Stage, Judged, VisitPair, VisitPresent, RetainUnsupported, DispatchOf, RecursBelow, InProfiles, Used;
    var at, attr := path + [EP.Attribute(name)], def.attributes[name];
    DispatchProfile(c, def, name);
    match DispatchOf(def, c.profiles, name)
    case Inactive =>
      if Attribute(cur, name).Some? {
        JudgedPlain(c, OnInactive, at, cur, cur[name]);
      }
    case Owned =>
      if name in orig {
        PlainNeverRecurs(c, name, attr, orig[name], Used(path));
      }
    case Pair(s) =>
      PairKnown(c, def, name);
      PairNoLimit(c, cur, def, name, s, path);
      if name in orig {
        PlainNeverRecurs(c, name, attr, orig[name], Used(path));
      }
    case Single =>
      StageAttribute(c, orig, cur, def, Used(path), done, name);
      if Attribute(orig, name).Some? {
        var kept := RetainUnsupported(c, cur, def, name);
        KnownName(c, def, name);
        RetainedSilent(c, cur, def, name);
        JudgedPlain(c, OnPresent, at, kept.item, orig[name]);
        PresentLimit(c, kept.item, orig[name], name, attr, path);
      } else {
        JudgedPlain(c, OnMissing, at, cur, Null);
        if name in orig {
          NullNeverRecurs(c, name, attr, Used(path));
        }
      }
  }

  lemma DispatchProfile(c: Ctx, def: ItemDef, name: string)
    requires Known(c, def) && name in def.attributes
    ensures DispatchOf(def, c.profiles, name) == Inactive <==> !InProfiles(def.attributes[name], c.profiles)
    ensures DispatchOf(def, c.profiles, name).Owned? || DispatchOf(def, c.profiles, name).Pair? ==>
      OfScalars(def.attributes[name])
  {
    hide Known;
    if name in def.owners {
      OwnedIsText(c, def, name);
    }
    if name in def.links {
      LinkedIsNumber(c, def, name);
    }
  }

  lemma OwnedIsText(c: Ctx, def: ItemDef, s: string)
    requires Known(c, def) && s in def.owners
    ensures s in def.attributes && def.attributes[s].typ == "string_t"
  {
    hide NE.Compiled, NeedsIndex, PrimitiveOf, LinkOf;
    assert LinkOf(def.attributes, def.owners[s]) == Some(s);
    LinkEnds(def.attributes, def.owners[s]);
  }

  lemma LinkedIsNumber(c: Ctx, def: ItemDef, e: string)
    requires Known(c, def) && e in def.links
    ensures e in def.attributes && def.attributes[e].typ != "object_t"
  {
    hide NE.Compiled, NeedsIndex, PrimitiveOf;
    assert LinkOf(def.attributes, e).Some?;
  }

  /** Values of scalar types lead to no objects. */
  lemma PlainNeverRecurs(c: Ctx, name: string, attr: AttrDef, v: Value, used: set<string>)
    requires OfScalars(attr)
    ensures !RecursBelow(c, name, attr, v, used)
  {
    hide OfScalars, PlaceAt;
    forall rel
      ensures !Recurs(c, InValue(c, name, attr, v, rel, used))
    {
      var place := InValue(c, name, attr, v, rel, used);
    }
  }

  lemma NullNeverRecurs(c: Ctx, name: string, attr: AttrDef, used: set<string>)
    ensures !RecursBelow(c, name, attr, Null, used)
  {
    hide OfScalars, PlaceAt;
    forall rel
      ensures !Recurs(c, InValue(c, name, attr, Null, rel, used))
    {
      var place := InValue(c, name, attr, Null, rel, used);
    }
  }

  lemma WrongArrayPlain(c: Ctx, item: Item, v: Value, name: string, attr: AttrDef, path: Elems)
    ensures Plain(Walk.ArrayWrongType(c, item, v, name, attr, path))
  {
    hide Judged, ObservableType, MayGenerateAt;
    JudgedPlain(c, OnArrayWrongType, path, item, v);
  }

  /** At or below one value. */
  ghost predicate RecursAt(c: Ctx, name: string, attr: AttrDef, v: Value, used: set<string>) {
    exists rest: Elems :: Recurs(c, Onward(c, Place(name, attr, v, name in used), rest, used))
  }

  lemma BelowIsAt(c: Ctx, name: string, attr: AttrDef, v: Value, used: set<string>)
    ensures !attr.isArray ==> (RecursBelow(c, name, attr, v, used) <==> RecursAt(c, name, attr, v, used))
    ensures attr.isArray ==>
      (RecursBelow(c, name, attr, v, used) <==>
         v.Arr? && exists i | 0 <= i < |v.elems| :: RecursAt(c, name, attr, v.elems[i], used))
  {
    hide Onward, Recurs;
    NoneRecurs(c);
    if !attr.isArray {
      forall rest
        ensures InValue(c, name, attr, v, rest, used) == Onward(c, Place(name, attr, v, name in used), rest, used)
      {
      }
    } else if !v.Arr? {
      forall rest
        ensures InValue(c, name, attr, v, rest, used) == None
      {
      }
    } else {
      if i: nat :| 0 <= i < |v.elems| && RecursAt(c, name, attr, v.elems[i], used) {
        var rest: Elems :| Recurs(c, Onward(c, Place(name, attr, v.elems[i], name in used), rest, used));
        var rel := [EP.ArrayIndex(i)] + rest;
        assert rel[1..] == rest;
        assert Recurs(c, InValue(c, name, attr, v, rel, used));
      }
      if rel: Elems :| Recurs(c, InValue(c, name, attr, v, rel, used)) {
        var x := v.elems[rel[0].index];
        assert Recurs(c, Onward(c, Place(name, attr, x, name in used), rel[1..], used));
        assert RecursAt(c, name, attr, x, used);
      }
    }
  }

  lemma {:induction false} PresentLimit(c: Ctx, item: Item, v: Value, name: string, attr: AttrDef, path: Elems)
    requires Ready(c) && name in Names(c)
    ensures ReachLimit in VisitPresent(c, item, v, name, attr, path).trace <==> RecursBelow(c, name, attr, v, Used(path))
    decreases Unused(c, path), 2
  {
    hide Ready, Names, VisitValue, VisitScalarElems, VisitElems, RecursBelow, RecursAt, Walk.ArrayWrongType, Used;
    var at := path + [EP.Attribute(name)];
    BelowIsAt(c, name, attr, v, Used(path));
    if !attr.isArray {
      ValueLimit(c, item, v, name, attr, path, []);
    } else if !v.Arr? {
      WrongArrayPlain(c, item, v, name, attr, at);
    } else if ScalarArray(attr) {
      ScalarElemsPlain(c, item, v.elems, name, attr, at, 0);
      PlainNeverRecurs(c, name, attr, v, Used(path));
    } else {
      ElemsLimit(c, item, v.elems, name, attr, path, 0);
    }
  }

  lemma {:induction false} ElemsLimit(c: Ctx, item: Item, elems: seq<Value>, name: string, attr: AttrDef, path: Elems,
                                      i: nat)
    requires Ready(c) && name in Names(c) && !(attr.isArray && ScalarArray(attr)) && i <= |elems|
    ensures ReachLimit in VisitElems(c, item, elems, name, attr, path, i).trace <==>
      exists k | i <= k < |elems| :: RecursAt(c, name, attr, elems[k], Used(path))
    decreases Unused(c, path), 1, |elems| - i
  {
    hide Ready, Names, VisitValue, RecursAt, ScalarArray, Used;
    if i < |elems| {
      ValueLimit(c, item, elems[i], name, attr, path, [EP.ArrayIndex(i)]);
      ElemsLimit(c, item, elems, name, attr, path, i + 1);
    }
  }

  lemma {:induction false} ValueLimit(c: Ctx, item: Item, v: Value, name: string, attr: AttrDef, path: Elems, index: Elems)
    requires Ready(c) && name in Names(c) && !(attr.isArray && ScalarArray(attr))
    requires |index| <= 1 && forall i | 0 <= i < |index| :: index[i].ArrayIndex?
    ensures ReachLimit in VisitValue(c, item, v, name, attr, path, index).trace <==> RecursAt(c, name, attr, v, Used(path))
    decreases Unused(c, path), 0
  {
    hide Ready, Names, Judged, MayGenerateAt, ObjectObservable, PrimitiveStep, EP.PriorAttribute, VisitItem, RecursIn;
    var at := path + [EP.Attribute(name)] + index;
    UsedAt(path, name, index);
    JudgedPlain(c, OnEnum, at, item, v);
    AtMeans(c, name, attr, v, Used(path));
    if attr.typ != "object_t" {
      PrimitivePlain(c, item, v, name, attr, at, OnPrimitive);
    } else if !v.Obj? {
      JudgedPlain(c, OnObjectWrongType, at, item, v);
    } else if attr.objectType.Some? && attr.objectType.value !in c.cat.objects {
      JudgedPlain(c, OnSchemaMissing, at, item, v);
    } else if attr.objectType.Some? && name !in Used(path) {
      UnusedShrinks(c, path, name, index);
      ObjectKnown(c, attr.objectType.value);
      var def := c.cat.objects[attr.objectType.value];
      LimitExactly(c, v.fields, def.item, at);
      ObjectSilent(c, at, name, attr, def);
      JudgedPlain(c, OnObject, at, v.fields, v);
      JudgedPlain(c, OnObjectDone, at, VisitItem(c, v.fields, def.item, at).item, Null);
    }
    hide RecursAt, Used;
  }

  /** A value recurs when it is itself an object under a repeated name, or else an entered object that recurs inside. */
  lemma AtMeans(c: Ctx, name: string, attr: AttrDef, v: Value, used: set<string>)
    requires !(attr.isArray && ScalarArray(attr))
    ensures RecursAt(c, name, attr, v, used) <==>
      && attr.typ == "object_t" && v.Obj? && attr.objectType.Some? && attr.objectType.value in c.cat.objects
      && (name in used || RecursIn(c, c.cat.objects[attr.objectType.value].item, v.fields, used + {name}))
  {
    hide PlaceAt;
    var place := Place(name, attr, v, name in used);
    NoneRecurs(c);
    assert Onward(c, place, [], used) == Some(place);
    if attr.typ == "object_t" && v.Obj? && attr.objectType.Some? && attr.objectType.value in c.cat.objects {
      var def := c.cat.objects[attr.objectType.value].item;
      NoPlaceHere(c, def, v.fields, used + {name});
      if name in used {
        assert Recurs(c, Onward(c, place, [], used));
      } else {
        forall rest: Elems | rest != []
          ensures Onward(c, place, rest, used) == PlaceAt(c, def, v.fields, rest, used + {name})
        {
        }
        if rel: Elems :| Recurs(c, PlaceAt(c, def, v.fields, rel, used + {name})) {
          assert Recurs(c, Onward(c, place, rel, used));
        }
        if rest: Elems :| Recurs(c, Onward(c, place, rest, used)) {
          assert Recurs(c, PlaceAt(c, def, v.fields, rest, used + {name}));
        }
      }
    }
  }

  lemma NoPlaceHere(c: Ctx, def: ItemDef, item: Item, used: set<string>)
    ensures PlaceAt(c, def, item, [], used) == None
  {
  }
}
