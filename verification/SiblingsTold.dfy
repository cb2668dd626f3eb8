/** What the walk tells of siblings: each couple's outcome, wherever the couple stands, and nothing else. */
module SiblingsTold {
  import opened Text
  import opened Values
  import opened Schema
  import opened Walk
  import opened Settling
  import opened Observed
  import opened Boundary
  import opened Judgements
  import EP = EventPath

  /** What is only told of couples. */
  predicate OfCouples(x: Effect) {
    x in {SiblingAdded, Raise(EnumSiblingNotAdded), Raise(EnumSiblingOtherAdded), Raise(EnumSiblingNotRemoved)}
  }

  /** The path below an item leads to a couple's enum whose outcome, for the item as it came, includes the effect. */
  ghost predicate Dealt(c: Ctx, def: ItemDef, item: Item, used: set<string>, rel: Elems, x: Effect)
    decreases |rel|, 0
  {
    rel != [] && rel[0].Attribute? && rel[0].name in def.attributes
    && DealtOf(c, def, item, used, rel[0].name, rel[1..], x)
  }

  ghost predicate DealtOf(c: Ctx, def: ItemDef, item: Item, used: set<string>, name: string, rest: Elems, x: Effect)
    requires name in def.attributes
    decreases |rest|, 3
  {
    if OfCouple(def, c.profiles, name) then
      rest == [] && exists s :: Couple(def, c.profiles, name, s) && x in EnumStep(c, item, name, def.attributes[name], s).trace
    else
      Given(item, name) && InProfiles(def.attributes[name], c.profiles)
      && DealtIn(c, name, def.attributes[name], item[name], used, rest, x)
  }

  ghost predicate DealtIn(c: Ctx, name: string, attr: AttrDef, v: Value, used: set<string>, rest: Elems, x: Effect)
    decreases |rest|, 2
  {
    if !attr.isArray then DealtOn(c, name, attr, v, used, rest, x)
    else
      && v.Arr? && rest != [] && rest[0].ArrayIndex? && rest[0].index < |v.elems|
      && DealtOn(c, name, attr, v.elems[rest[0].index], used, rest[1..], x)
  }

  ghost predicate DealtOn(c: Ctx, name: string, attr: AttrDef, v: Value, used: set<string>, rest: Elems, x: Effect)
    decreases |rest|, 1
  {
    Opened(c, name, attr, v, used) && Dealt(c, c.cat.objects[attr.objectType.value].item, v.fields, used + {name}, rest, x)
  }

  ghost predicate SomeDealt(c: Ctx, def: ItemDef, item: Item, used: set<string>, x: Effect) {
    exists rel :: Dealt(c, def, item, used, rel, x)
  }

  ghost predicate OfDealt(c: Ctx, def: ItemDef, item: Item, used: set<string>, name: string, x: Effect)
    requires name in def.attributes
  {
    exists rest :: DealtOf(c, def, item, used, name, rest, x)
  }

  ghost predicate InDealt(c: Ctx, name: string, attr: AttrDef, v: Value, used: set<string>, x: Effect) {
    exists rest :: DealtIn(c, name, attr, v, used, rest, x)
  }

  ghost predicate OnDealt(c: Ctx, name: string, attr: AttrDef, v: Value, used: set<string>, x: Effect) {
    exists rest :: DealtOn(c, name, attr, v, used, rest, x)
  }

  /** The walk tells of couples exactly what their outcomes are. */
  lemma {:induction false} CouplesTold(c: Ctx, item: Item, def: ItemDef, path: Elems, x: Effect)
    requires Ready(c) && Known(c, def) && OfCouples(x)
    ensures x in VisitItem(c, item, def, path).trace <==> SomeDealt(c, def, item, Used(path), x)
    decreases Unused(c, path), 5
  {
    hide Ready, Known, Stage, VisitFrom, SomeDealt, Used, OfDealt;
    StageStart(c, item, def, Used(path));
    KnownOrder(c, def);
    FromCouples(c, item, item, def, def.ordered, {}, path, x);
    ItemDeals(c, def, item, Used(path), x);
  }

  // ----- Level by level -----

  lemma ItemDeals(c: Ctx, def: ItemDef, item: Item, used: set<string>, x: Effect)
    ensures SomeDealt(c, def, item, used, x) <==> exists n | n in def.attributes :: OfDealt(c, def, item, used, n, x)
  {
    hide DealtOf;
    if rel: Elems :| Dealt(c, def, item, used, rel, x) {
      assert DealtOf(c, def, item, used, rel[0].name, rel[1..], x);
    }
    if n: string :| n in def.attributes && OfDealt(c, def, item, used, n, x) {
      var rest: Elems :| DealtOf(c, def, item, used, n, rest, x);
      var rel := [EP.Attribute(n)] + rest;
      assert rel[1..] == rest;
      assert Dealt(c, def, item, used, rel, x);
    }
  }

  lemma OfDeals(c: Ctx, def: ItemDef, item: Item, used: set<string>, name: string, x: Effect)
    requires name in def.attributes
    ensures OfCouple(def, c.profiles, name) ==>
      (OfDealt(c, def, item, used, name, x) <==>
         exists s :: Couple(def, c.profiles, name, s) && x in EnumStep(c, item, name, def.attributes[name], s).trace)
    ensures !OfCouple(def, c.profiles, name) ==>
      (OfDealt(c, def, item, used, name, x) <==>
         && Given(item, name) && InProfiles(def.attributes[name], c.profiles)
         && InDealt(c, name, def.attributes[name], item[name], used, x))
  {
    hide DealtIn, InProfiles, OfCouple, Couple, EnumStep;
    if OfCouple(def, c.profiles, name) {
      if s :| Couple(def, c.profiles, name, s) && x in EnumStep(c, item, name, def.attributes[name], s).trace {
        assert DealtOf(c, def, item, used, name, [], x);
      }
    } else if Given(item, name) && InProfiles(def.attributes[name], c.profiles) {
      forall rest
        ensures DealtOf(c, def, item, used, name, rest, x) == DealtIn(c, name, def.attributes[name], item[name], used, rest, x)
      {
      }
    }
  }

  lemma InDeals(c: Ctx, name: string, attr: AttrDef, v: Value, used: set<string>, x: Effect)
    ensures !attr.isArray ==> (InDealt(c, name, attr, v, used, x) <==> OnDealt(c, name, attr, v, used, x))
    ensures attr.isArray ==>
      (InDealt(c, name, attr, v, used, x) <==>
         v.Arr? && exists i | 0 <= i < |v.elems| :: OnDealt(c, name, attr, v.elems[i], used, x))
  {
    hide DealtOn;
    if !attr.isArray {
      forall rest
        ensures DealtIn(c, name, attr, v, used, rest, x) == DealtOn(c, name, attr, v, used, rest, x)
      {
      }
    } else if v.Arr? {
      if rest: Elems :| DealtIn(c, name, attr, v, used, rest, x) {
        assert DealtOn(c, name, attr, v.elems[rest[0].index], used, rest[1..], x);
      }
      if i: nat :| i < |v.elems| && OnDealt(c, name, attr, v.elems[i], used, x) {
        var rest: Elems :| DealtOn(c, name, attr, v.elems[i], used, rest, x);
        var rel := [EP.ArrayIndex(i)] + rest;
        assert rel[1..] == rest;
        assert DealtIn(c, name, attr, v, used, rel, x);
      }
    }
  }

  lemma OnDeals(c: Ctx, name: string, attr: AttrDef, v: Value, used: set<string>, x: Effect)
    ensures OnDealt(c, name, attr, v, used, x) <==>
      && Opened(c, name, attr, v, used)
      && SomeDealt(c, c.cat.objects[attr.objectType.value].item, v.fields, used + {name}, x)
  {
    hide Dealt, OfScalars;
    if Opened(c, name, attr, v, used) {
      var inside := c.cat.objects[attr.objectType.value].item;
      forall rest
        ensures DealtOn(c, name, attr, v, used, rest, x) == Dealt(c, inside, v.fields, used + {name}, rest, x)
      {
      }
    }
  }

  // ----- Traces without couples -----

  lemma PlainApart(trace: seq<Effect>, x: Effect)
    requires Plain(trace) && OfCouples(x)
    ensures x !in trace
  {
  }

  lemma RetainedApart(c: Ctx, item: Item, def: ItemDef, name: string, x: Effect)
    requires name in def.attributes && OfCouples(x)
    ensures x !in RetainUnsupported(c, item, def, name).trace
  {
  }

  // ----- The walk -----

  lemma {:induction false} FromCouples(c: Ctx, orig: Item, cur: Item, def: ItemDef, names: seq<string>, done: set<string>,
                                       path: Elems, x: Effect)
    requires Ready(c) && Known(c, def) && Stage(c, orig, cur, def, Used(path), done) && OfCouples(x)
    requires Ascending(names) && forall n | n in names :: n in def.attributes && n !in done
    ensures x in VisitFrom(c, cur, def, names, path).trace <==>
      exists n | n in names :: OfDealt(c, def, orig, Used(path), n, x)
    decreases Unused(c, path), 4, |names|
  {
    hide Ready, Known, Stage, VisitOne, OfDealt, Used, OfCouples;
    if names != [] {
      OneCouples(c, orig, cur, def, names[0], done, path, x);
      OneSettles(c, orig, cur, def, names[0], done, path);
      AscendingTail(names);
      HeadAndTail(names);
      hide Ascending;
      FromCouples(c, orig, VisitOne(c, cur, def, names[0], path).item, def, names[1..], done + {names[0]}, path, x);
    }
  }

  lemma {:induction false} OneCouples(c: Ctx, orig: Item, cur: Item, def: ItemDef, name: string, done: set<string>,
                                      path: Elems, x: Effect)
    requires Ready(c) && Known(c, def) && Stage(c, orig, cur, def, Used(path), done) && OfCouples(x)
    requires name in def.attributes && name !in done
    ensures x in VisitOne(c, cur, def, name, path).trace <==> OfDealt(c, def, orig, Used(path), name, x)
    decreases Unused(c, path), 3
  {
    hide Ready, Known, Stage, VisitPair, VisitPresent, RetainUnsupported, DispatchOf, OfDealt, InDealt, Used, Judged;
    hide InProfiles, OfCouple, Couple, EnumStep, OfCouples, Plain;
    var at := path + [EP.Attribute(name)];
    CoupleDispatched(c, def, name);
    OfDeals(c, def, orig, Used(path), name, x);
    match DispatchOf(def, c.profiles, name)
    case Inactive =>
      if Attribute(cur, name).Some? {
        JudgedPlain(c, OnInactive, at, cur, cur[name]);
        PlainApart(Judged(c, OnInactive, at, cur, cur[name]), x);
      }
    case Owned =>
    case Pair(s) =>
      PairKnown(c, def, name);
      PairTold(c, orig, cur, def, name, s, done, path, x);
    case Single =>
      StageAttribute(c, orig, cur, def, Used(path), done, name);
      JudgedPlain(c, OnMissing, at, cur, Null);
      PlainApart(Judged(c, OnMissing, at, cur, Null), x);
      if Attribute(orig, name).Some? {
        var kept := RetainUnsupported(c, cur, def, name);
        RetainedApart(c, cur, def, name, x);
        KnownName(c, def, name);
        JudgedPlain(c, OnPresent, at, kept.item, orig[name]);
        PlainApart(Judged(c, OnPresent, at, kept.item, orig[name]), x);
        PresentCouples(c, kept.item, orig[name], name, def.attributes[name], path, x);
      }
  }

  lemma PairTold(c: Ctx, orig: Item, cur: Item, def: ItemDef, e: string, s: string, done: set<string>, path: Elems,
                 x: Effect)
    requires Ready(c) && Known(c, def) && Stage(c, orig, cur, def, Used(path), done) && OfCouples(x)
    requires e in def.attributes && e !in done && DispatchOf(def, c.profiles, e) == Pair(s) && s in def.attributes
    ensures x in VisitPair(c, cur, def, e, s, path).trace <==> x in EnumStep(c, orig, e, def.attributes[e], s).trace
  {
    hide Ready, Known, Stage, EnumStep, SiblingObservables, Judged, Plain, OfCouples, Used, DispatchOf;
    var step := EnumStep(c, cur, e, def.attributes[e], s);
    var judged := Judged(c, OnPair(s), path + [EP.Attribute(e)], step.item, Null);
    JudgedPlain(c, OnPair(s), path + [EP.Attribute(e)], step.item, Null);
    PlainApart(judged, x);
    if Attribute(step.item, s).Some? {
      SiblingSilent(c, path + [EP.Attribute(s)], s, def.attributes[s], step.item[s]);
      PlainApart(SiblingObservables(c, path + [EP.Attribute(s)], s, def.attributes[s], step.item[s]), x);
    }
    StepAlike(c, orig, cur, def, e, s, Used(path), done, x);
  }

  /** On the way to its couple a sibling is as it came, or a null is gone: either way the same is told. */
  lemma StepAlike(c: Ctx, orig: Item, cur: Item, def: ItemDef, e: string, s: string, used: set<string>, done: set<string>,
                  x: Effect)
    requires Ready(c) && Known(c, def) && Stage(c, orig, cur, def, used, done) && OfCouples(x)
    requires e in def.attributes && e !in done && DispatchOf(def, c.profiles, e) == Pair(s)
    ensures x in EnumStep(c, cur, e, def.attributes[e], s).trace <==> x in EnumStep(c, orig, e, def.attributes[e], s).trace
  {
    hide Ready, Known, Stage, EnumStep, DispatchOf;
    StageAttribute(c, orig, cur, def, used, done, e);
    SiblingAwaits(c, orig, cur, def, e, s, used, done);
    if Slot(cur, s) == Slot(orig, s) {
      PairDepends(c, cur, orig, e, def.attributes[e], s);
    } else {
      NullStep(c, orig, e, def.attributes[e], s);
      NullStep(c, cur, e, def.attributes[e], s);
    }
  }

  lemma SiblingAwaits(c: Ctx, orig: Item, cur: Item, def: ItemDef, e: string, s: string, used: set<string>,
                      done: set<string>)
    requires Ready(c) && Known(c, def) && Stage(c, orig, cur, def, used, done)
    requires e in def.attributes && e !in done && DispatchOf(def, c.profiles, e) == Pair(s)
    ensures Slot(cur, s) == Slot(orig, s) || (Removing(c) && Slot(orig, s) == Some(Null) && Slot(cur, s) == None)
  {
    hide Ready, Known, PairSlot, SettledValue, Clears, Active;
    Ends(c, def, e);
    assert PairKey(c, def, s) && def.owners[s] == e;
    Ends(c, def, s);
    assert Slot(cur, s) == StageSlot(c, orig, def, used, done, s);
  }

  lemma NullStep(c: Ctx, item: Item, e: string, attr: AttrDef, s: string)
    requires Removing(c) && Attribute(item, s) == None
    ensures forall x | OfCouples(x) :: x !in EnumStep(c, item, e, attr, s).trace
  {
  }

  lemma {:induction false} PresentCouples(c: Ctx, item: Item, v: Value, name: string, attr: AttrDef, path: Elems, x: Effect)
    requires Ready(c) && name in Names(c) && OfCouples(x)
    ensures x in VisitPresent(c, item, v, name, attr, path).trace <==> InDealt(c, name, attr, v, Used(path), x)
    decreases Unused(c, path), 2
  {
    hide Ready, Names, VisitValue, VisitScalarElems, VisitElems, InDealt, OnDealt, Walk.ArrayWrongType, Used, Plain, OfCouples;
    var at := path + [EP.Attribute(name)];
    InDeals(c, name, attr, v, Used(path), x);
    if !attr.isArray {
      ValueCouples(c, item, v, name, attr, path, [], x);
    } else if !v.Arr? {
      WrongArrayPlain(c, item, v, name, attr, at);
      PlainApart(Walk.ArrayWrongType(c, item, v, name, attr, at), x);
    } else if ScalarArray(attr) {
      ScalarElemsPlain(c, item, v.elems, name, attr, at, 0);
      PlainApart(VisitScalarElems(c, item, v.elems, name, attr, at, 0), x);
      forall i | 0 <= i < |v.elems| ensures !OnDealt(c, name, attr, v.elems[i], Used(path), x) {
        OnDeals(c, name, attr, v.elems[i], Used(path), x);
      }
    } else {
      ElemsCouples(c, item, v.elems, name, attr, path, 0, x);
    }
  }

  lemma {:induction false} ElemsCouples(c: Ctx, item: Item, elems: seq<Value>, name: string, attr: AttrDef, path: Elems,
                                        i: nat, x: Effect)
    requires Ready(c) && name in Names(c) && OfCouples(x) && !(attr.isArray && ScalarArray(attr)) && i <= |elems|
    ensures x in VisitElems(c, item, elems, name, attr, path, i).trace <==>
      exists k | i <= k < |elems| :: OnDealt(c, name, attr, elems[k], Used(path), x)
    decreases Unused(c, path), 1, |elems| - i
  {
    hide Ready, Names, VisitValue, OnDealt, ScalarArray, Used, OfCouples;
    if i < |elems| {
      ValueCouples(c, item, elems[i], name, attr, path, [EP.ArrayIndex(i)], x);
      ElemsCouples(c, item, elems, name, attr, path, i + 1, x);
    }
  }

  lemma {:induction false} ValueCouples(c: Ctx, item: Item, v: Value, name: string, attr: AttrDef, path: Elems, index: Elems,
                                        x: Effect)
    requires Ready(c) && name in Names(c) && OfCouples(x) && !(attr.isArray && ScalarArray(attr))
    requires |index| <= 1 && forall i | 0 <= i < |index| :: index[i].ArrayIndex?
    ensures x in VisitValue(c, item, v, name, attr, path, index).trace <==> OnDealt(c, name, attr, v, Used(path), x)
    decreases Unused(c, path), 0, 1
  {
    if Opened(c, name, attr, v, Used(path)) {
      EnteredCouples(c, item, v, name, attr, path, index, x);
    } else {
      ClosedCouples(c, item, v, name, attr, path, index, x);
    }
  }

  lemma NoLimitTold(x: Effect)
    requires OfCouples(x)
    ensures x != ReachLimit && x != Raise(ObservableNotAddedWrongType)
  {
  }

  lemma NotDealt(c: Ctx, name: string, attr: AttrDef, v: Value, used: set<string>, x: Effect)
    requires !Opened(c, name, attr, v, used)
    ensures !OnDealt(c, name, attr, v, used, x)
  {
    hide Opened, Dealt;
  }

  lemma ClosedCouples(c: Ctx, item: Item, v: Value, name: string, attr: AttrDef, path: Elems, index: Elems, x: Effect)
    requires Ready(c) && name in Names(c) && OfCouples(x) && !(attr.isArray && ScalarArray(attr))
    requires !Opened(c, name, attr, v, Used(path))
    requires |index| <= 1 && forall i | 0 <= i < |index| :: index[i].ArrayIndex?
    ensures x in VisitValue(c, item, v, name, attr, path, index).trace <==> OnDealt(c, name, attr, v, Used(path), x)
  {
    hide Ready, Names, Judged, MayGenerateAt, ObjectObservable, PrimitiveStep, EP.PriorAttribute, VisitItem, SomeDealt;
    hide OnDealt, Used, Plain, OfCouples, Known, Opened, ScalarObservable;
    var at := path + [EP.Attribute(name)] + index;
    UsedAt(path, name, index);
    NoLimitTold(x);
    NotDealt(c, name, attr, v, Used(path), x);
    OpenedUnless(c, name, attr, v, Used(path));
    JudgedPlain(c, OnEnum, at, item, v);
    PlainApart(Judged(c, OnEnum, at, item, v), x);
    if attr.typ != "object_t" {
      PrimitivePlain(c, item, v, name, attr, at, OnPrimitive);
      PlainApart(PrimitiveStep(c, item, v, name, attr, at, OnPrimitive), x);
    } else if !v.Obj? {
      JudgedPlain(c, OnObjectWrongType, at, item, v);
      PlainApart(Judged(c, OnObjectWrongType, at, item, v), x);
    } else if attr.objectType.Some? && attr.objectType.value !in c.cat.objects {
      JudgedPlain(c, OnSchemaMissing, at, item, v);
      PlainApart(Judged(c, OnSchemaMissing, at, item, v), x);
    }
  }

  lemma {:induction false} EnteredCouples(c: Ctx, item: Item, v: Value, name: string, attr: AttrDef, path: Elems,
                                          index: Elems, x: Effect)
    requires Ready(c) && name in Names(c) && OfCouples(x) && Opened(c, name, attr, v, Used(path))
    requires |index| <= 1 && forall i | 0 <= i < |index| :: index[i].ArrayIndex?
    ensures x in VisitValue(c, item, v, name, attr, path, index).trace <==> OnDealt(c, name, attr, v, Used(path), x)
    decreases Unused(c, path), 0, 0
  {
    hide Ready, Names, Judged, MayGenerateAt, ObjectObservable, PrimitiveStep, EP.PriorAttribute, VisitItem, SomeDealt;
    hide OnDealt, Used, Plain, OfCouples, Known, Opened;
    OpenedKnown(c, name, attr, v, Used(path));
    var at, def := path + [EP.Attribute(name)] + index, c.cat.objects[attr.objectType.value];
    UsedAt(path, name, index);
    UnusedShrinks(c, path, name, index);
    OnDeals(c, name, attr, v, Used(path), x);
    var inner := VisitItem(c, v.fields, def.item, at);
    CouplesTold(c, v.fields, def.item, at, x);
    JudgedPlain(c, OnEnum, at, item, v);
    PlainApart(Judged(c, OnEnum, at, item, v), x);
    ObjectSilent(c, at, name, attr, def);
    PlainApart(ObjectObservable(c, at, name, attr, def), x);
    JudgedPlain(c, OnObject, at, v.fields, v);
    PlainApart(Judged(c, OnObject, at, v.fields, v), x);
    JudgedPlain(c, OnObjectDone, at, inner.item, Null);
    PlainApart(Judged(c, OnObjectDone, at, inner.item, Null), x);
  }

  // ----- Enums without a supported sibling -----

  /** A given enum whose declared sibling cannot be one clears that attribute when it is null, and else counts it as
      retained; a removal does so, and nothing else. */
  lemma UnsupportedRule(c: Ctx, item: Item, def: ItemDef, name: string, s: string)
    requires Known(c, def) && name in def.attributes && def.attributes[name].sibling == Some(s)
    ensures var attr, kept := def.attributes[name], RetainUnsupported(c, item, def, name);
      var fit := s in def.attributes && attr.typ in {"integer_t", "long_t"} && def.attributes[s].enum == None
                 && def.attributes[s].typ == "string_t" && def.attributes[s].isArray == attr.isArray;
      && (Unsupported(def.attributes, name) <==> attr.enum.Some? && !fit)
      && kept ==
           if !(c.enums in {Remove, ForceRemove} && attr.enum.Some? && !fit && s in item) then Outcome(item, [])
           else if item[s] == Null then Outcome(item - {s}, [SiblingRemoved]) else Outcome(item, [SiblingRetained])
  {
    hide Known, Cached;
    KnownCached(c, def);
    CachedLink(def, name);
    assert Without(item, s) == item - {s};
  }
}
