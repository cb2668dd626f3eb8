/** What a walk that adds observables reports it could not observe, told from the item it leaves and the schema. */
module Refusals {
  import opened Text
  import opened Values
  import TI = TypeInheritance
  import opened Schema
  import opened Observability
  import opened Foreseen
  import opened Walk
  import opened Settling
  import opened Generation
  import opened Observed
  import opened Boundary
  import opened Judgements
  import EP = EventPath

  // ----- What is expected at a place -----

  /** The type an attribute's values are observed under at a path: the schema's first declaration, or else the class's. */
  ghost predicate Observable(c: Ctx, at: Elems, name: string, attr: AttrDef, t: int64) {
    && Chosen(c.allowed, t)
    && if exists u: int64 :: Declared(c.cat, name, attr, u) then Declared(c.cat, name, attr, t) else ClassSays(c, at, t)
  }

  ghost predicate Watched(c: Ctx, at: Elems, name: string, attr: AttrDef) {
    exists t: int64 :: Observable(c, at, name, attr, t)
  }

  /** The class declares a type at or below the path, or the attribute's objects are observable or hold what is. */
  ghost predicate Promises(c: Ctx, at: Elems, name: string, attr: AttrDef) {
    || (exists d | d in c.cls.observables ::
          Chosen(c.allowed, c.cls.observables[d]) && EP.AttributeNames(at) <= Split(d, '.'))
    || (attr.objectType.Some? && attr.objectType.value in c.cat.objects
        && ((exists t: int64 :: Chosen(c.allowed, t) && ObjectDeclared(c.cat, name, attr, attr.objectType.value, t))
            || exists chain :: Reaches(c.cat, c.allowed, chain) && chain[0] == attr.objectType.value))
  }

  lemma ObservableMeans(c: Ctx, at: Elems, name: string, attr: AttrDef)
    ensures ObservableType(c, at, name, attr).Some? <==> Watched(c, at, name, attr)
  {
    forall t: int64 ensures ObservableType(c, at, name, attr) == Some(t) <==> Observable(c, at, name, attr, t) {
      ClassDeclares(c, at, t);
      DeclaredMeans(c.cat, name, attr);
      hide Declared, ClassDeclared, ClassSays;
    }
    hide Observable, ObservableType;
    if ObservableType(c, at, name, attr).Some? {
      assert Observable(c, at, name, attr, ObservableType(c, at, name, attr).value);
    }
  }

  lemma PromisesMeans(c: Ctx, at: Elems, name: string, attr: AttrDef)
    ensures MayGenerateAt(c, at, name, attr) <==> Promises(c, at, name, attr)
  {
    hide AttributeMayGenerate, ObjectDeclared, Reaches;
    AttributeForeseen(c.cat, c.allowed, name, attr);
  }

  // ----- What is refused -----

  predicate EnumOfCouple(def: ItemDef, profiles: set<string>, name: string) {
    exists s | s in def.attributes :: Couple(def, profiles, name, s)
  }

  /** Something that should be an array and is not. */
  ghost predicate RefusesAll(c: Ctx, name: string, attr: AttrDef, at: Elems, issue: IssueCode) {
    && issue == ObservableNotAddedWrongType
    && (Watched(c, at, name, attr) || (attr.typ == "object_t" && Promises(c, at, name, attr)))
  }

  /** A scalar of an observable type that has no text or whose type is derived from json_t, or something that should be an
      object and is not. */
  ghost predicate RefusesOne(c: Ctx, name: string, attr: AttrDef, v: Value, at: Elems, issue: IssueCode) {
    if OfScalars(attr) then
      && attr.enum == None && Watched(c, at, name, attr)
      && if TI.DerivedFrom(c.cat.types, attr.typ, "json_t") then issue == ObservableNotAddedJSONType
         else issue == ObservableNotAddedWrongType && forall text :: !Spelled(v, text)
    else !v.Obj? && issue == ObservableNotAddedWrongType && Promises(c, at, name, attr)
  }

  /** Something is refused at a path below an item that stands at `at`. */
  ghost predicate Refused(c: Ctx, def: ItemDef, item: Item, at: Elems, used: set<string>, rel: Elems, issue: IssueCode)
    decreases |rel|, 0
  {
    rel != [] && rel[0].Attribute? && rel[0].name in def.attributes
    && RefusedOf(c, def, item, at, used, rel[0].name, rel[1..], issue)
  }

  ghost predicate RefusedOf(c: Ctx, def: ItemDef, item: Item, at: Elems, used: set<string>, name: string, rest: Elems,
                            issue: IssueCode)
    requires name in def.attributes
    decreases |rest|, 3
  {
    Given(item, name) && InProfiles(def.attributes[name], c.profiles) && !EnumOfCouple(def, c.profiles, name)
    && RefusedIn(c, name, def.attributes[name], item[name], at + [EP.Attribute(name)], used, rest, issue)
  }

  ghost predicate RefusedIn(c: Ctx, name: string, attr: AttrDef, v: Value, at: Elems, used: set<string>, rest: Elems,
                            issue: IssueCode)
    decreases |rest|, 2
  {
    if !attr.isArray then RefusedOn(c, name, attr, v, at, used, rest, issue)
    else if !v.Arr? then rest == [] && RefusesAll(c, name, attr, at, issue)
    else
      && rest != [] && rest[0].ArrayIndex? && rest[0].index < |v.elems|
      && RefusedOn(c, name, attr, v.elems[rest[0].index], at + [rest[0]], used, rest[1..], issue)
  }

  ghost predicate RefusedOn(c: Ctx, name: string, attr: AttrDef, v: Value, at: Elems, used: set<string>, rest: Elems,
                            issue: IssueCode)
    decreases |rest|, 1
  {
    || (rest == [] && RefusesOne(c, name, attr, v, at, issue))
    || (Opened(c, name, attr, v, used)
        && Refused(c, c.cat.objects[attr.objectType.value].item, v.fields, at, used + {name}, rest, issue))
  }

  ghost predicate SomeRefused(c: Ctx, def: ItemDef, item: Item, path: Elems, issue: IssueCode) {
    exists rel :: Refused(c, def, item, path, Used(path), rel, issue)
  }

  predicate Refusing(issue: IssueCode) {
    issue == ObservableNotAddedWrongType || issue == ObservableNotAddedJSONType
  }

  /** A walk that adds observables reports exactly what it refuses in the item it leaves; another reports nothing. */
  lemma {:induction false} RefusedExactly(c: Ctx, item: Item, def: ItemDef, path: Elems, issue: IssueCode)
    requires Ready(c) && Known(c, def) && Refusing(issue)
    ensures var after := VisitItem(c, item, def, path);
      Raise(issue) in after.trace <==> c.observables == Add && SomeRefused(c, def, after.item, path, issue)
    decreases Unused(c, path), 5
  {
    hide Ready, Known, Stage, VisitFrom, SomeRefused, SettledItem, Used;
    StageStart(c, item, def, Used(path));
    VisitSettles(c, item, def, path);
    KnownOrder(c, def);
    FromRefused(c, item, item, def, def.ordered, {}, path, issue);
    SlotsRefuse(c, def, SettledItem(c, item, def, Used(path)), path, issue);
  }

  // ----- Traces without refusals -----

  predicate Mild(trace: seq<Effect>) {
    forall e | e in trace :: !(e.Raise? && Refusing(e.issue))
  }

  lemma JudgedMild(c: Ctx, hook: Hook, path: Elems, item: Item, v: Value)
    ensures Mild(Judged(c, hook, path, item, v))
  {
  }

  lemma SiblingsMild(trace: seq<Effect>)
    requires OfSiblings(trace)
    ensures Mild(trace)
  {
  }

  lemma ObjectMild(c: Ctx, at: Elems, name: string, attr: AttrDef, def: ObjectDef)
    ensures Mild(ObjectObservable(c, at, name, attr, def))
  {
    hide ObservableType;
  }

  // ----- Level by level -----

  ghost predicate OfRefused(c: Ctx, def: ItemDef, item: Item, path: Elems, name: string, issue: IssueCode)
    requires name in def.attributes
  {
    exists rest :: RefusedOf(c, def, item, path, Used(path), name, rest, issue)
  }

  ghost predicate InRefused(c: Ctx, name: string, attr: AttrDef, v: Value, path: Elems, issue: IssueCode) {
    exists rest :: RefusedIn(c, name, attr, v, path + [EP.Attribute(name)], Used(path), rest, issue)
  }

  ghost predicate OnRefused(c: Ctx, name: string, attr: AttrDef, v: Value, path: Elems, index: Elems, issue: IssueCode) {
    exists rest :: RefusedOn(c, name, attr, v, path + [EP.Attribute(name)] + index, Used(path), rest, issue)
  }

  lemma ItemRefuses(c: Ctx, def: ItemDef, item: Item, path: Elems, issue: IssueCode)
    ensures SomeRefused(c, def, item, path, issue) <==>
      exists n | n in def.attributes :: OfRefused(c, def, item, path, n, issue)
  {
    hide RefusedOf, Used, Refused;
    if rel: Elems :| Refused(c, def, item, path, Used(path), rel, issue) {
      FirstRefuses(c, def, item, path, Used(path), rel, issue);
      assert RefusedOf(c, def, item, path, Used(path), rel[0].name, rel[1..], issue);
    }
    if n: string :| n in def.attributes && OfRefused(c, def, item, path, n, issue) {
      var rest: Elems :| RefusedOf(c, def, item, path, Used(path), n, rest, issue);
      var rel := [EP.Attribute(n)] + rest;
      assert rel[1..] == rest;
      FirstRefuses(c, def, item, path, Used(path), rel, issue);
    }
  }

  lemma FirstRefuses(c: Ctx, def: ItemDef, item: Item, at: Elems, used: set<string>, rel: Elems, issue: IssueCode)
    ensures Refused(c, def, item, at, used, rel, issue) <==>
      && rel != [] && rel[0].Attribute? && rel[0].name in def.attributes
      && RefusedOf(c, def, item, at, used, rel[0].name, rel[1..], issue)
  {
    hide RefusedOf;
  }

  lemma OfRefuses(c: Ctx, def: ItemDef, item: Item, path: Elems, name: string, issue: IssueCode)
    requires name in def.attributes
    ensures OfRefused(c, def, item, path, name, issue) <==>
      && Given(item, name) && InProfiles(def.attributes[name], c.profiles) && !EnumOfCouple(def, c.profiles, name)
      && InRefused(c, name, def.attributes[name], item[name], path, issue)
  {
    hide RefusedIn, Used, InProfiles, EnumOfCouple;
    if rest: Elems :| RefusedOf(c, def, item, path, Used(path), name, rest, issue) {
      assert RefusedIn(c, name, def.attributes[name], item[name], path + [EP.Attribute(name)], Used(path), rest, issue);
    }
    if Given(item, name) && InProfiles(def.attributes[name], c.profiles) && !EnumOfCouple(def, c.profiles, name)
       && InRefused(c, name, def.attributes[name], item[name], path, issue) {
      var rest: Elems :|
        RefusedIn(c, name, def.attributes[name], item[name], path + [EP.Attribute(name)], Used(path), rest, issue);
      assert RefusedOf(c, def, item, path, Used(path), name, rest, issue);
    }
  }

  lemma InRefuses(c: Ctx, name: string, attr: AttrDef, v: Value, path: Elems, issue: IssueCode)
    ensures !attr.isArray ==>
      InRefused(c, name, attr, v, path, issue) == OnRefused(c, name, attr, v, path, [], issue)
    ensures attr.isArray && !v.Arr? ==>
      InRefused(c, name, attr, v, path, issue) == RefusesAll(c, name, attr, path + [EP.Attribute(name)], issue)
    ensures attr.isArray && v.Arr? ==>
      (InRefused(c, name, attr, v, path, issue) <==>
         exists i | 0 <= i < |v.elems| :: OnRefused(c, name, attr, v.elems[i], path, [EP.ArrayIndex(i)], issue))
  {
    if attr.isArray && v.Arr? {
      ArrayRefuses(c, name, attr, v, path, issue);
    } else {
      hide RefusedOn, RefusesAll, Used;
      var at := path + [EP.Attribute(name)];
      assert at + [] == at;
      forall rest
        ensures RefusedIn(c, name, attr, v, at, Used(path), rest, issue)
          == if attr.isArray then rest == [] && RefusesAll(c, name, attr, at, issue)
             else RefusedOn(c, name, attr, v, at + [], Used(path), rest, issue)
      {
      }
      assert attr.isArray && RefusesAll(c, name, attr, at, issue) ==>
        RefusedIn(c, name, attr, v, at, Used(path), [], issue);
    }
  }

  lemma ArrayRefuses(c: Ctx, name: string, attr: AttrDef, v: Value, path: Elems, issue: IssueCode)
    requires attr.isArray && v.Arr?
    ensures InRefused(c, name, attr, v, path, issue) <==>
      exists i | 0 <= i < |v.elems| :: OnRefused(c, name, attr, v.elems[i], path, [EP.ArrayIndex(i)], issue)
  {
    hide RefusedOn, RefusesAll, Used;
    var at := path + [EP.Attribute(name)];
    if rest: Elems :| RefusedIn(c, name, attr, v, at, Used(path), rest, issue) {
      var i: nat := rest[0].index;
      assert rest[0] == EP.ArrayIndex(i);
      assert RefusedOn(c, name, attr, v.elems[i], at + [EP.ArrayIndex(i)], Used(path), rest[1..], issue);
      assert OnRefused(c, name, attr, v.elems[i], path, [EP.ArrayIndex(i)], issue);
    }
    if i: nat :| i < |v.elems| && OnRefused(c, name, attr, v.elems[i], path, [EP.ArrayIndex(i)], issue) {
      var rest: Elems :| RefusedOn(c, name, attr, v.elems[i], at + [EP.ArrayIndex(i)], Used(path), rest, issue);
      var rel := [EP.ArrayIndex(i)] + rest;
      assert rel[1..] == rest;
      assert RefusedIn(c, name, attr, v, at, Used(path), rel, issue);
    }
  }

  lemma OnRefuses(c: Ctx, name: string, attr: AttrDef, v: Value, path: Elems, index: Elems, issue: IssueCode)
    requires |index| <= 1 && forall i | 0 <= i < |index| :: index[i].ArrayIndex?
    ensures OnRefused(c, name, attr, v, path, index, issue) <==>
      || RefusesOne(c, name, attr, v, path + [EP.Attribute(name)] + index, issue)
      || (Opened(c, name, attr, v, Used(path))
          && SomeRefused(c, c.cat.objects[attr.objectType.value].item, v.fields, path + [EP.Attribute(name)] + index, issue))
  {
    hide Refused, RefusesOne, Used, Opened, SomeRefused;
    UsedAt(path, name, index);
    var at := path + [EP.Attribute(name)] + index;
    if RefusesOne(c, name, attr, v, at, issue) {
      assert RefusedOn(c, name, attr, v, at, Used(path), [], issue);
    } else if Opened(c, name, attr, v, Used(path)) {
      OpenedObject(c, name, attr, v, Used(path));
      InsideRefuses(c, name, attr, v, path, index, issue);
    }
  }

  lemma OpenedObject(c: Ctx, name: string, attr: AttrDef, v: Value, used: set<string>)
    requires Opened(c, name, attr, v, used)
    ensures v.Obj? && attr.objectType.Some? && attr.objectType.value in c.cat.objects
  {
    hide OfScalars;
  }

  lemma InsideRefuses(c: Ctx, name: string, attr: AttrDef, v: Value, path: Elems, index: Elems, issue: IssueCode)
    requires Opened(c, name, attr, v, Used(path)) && v.Obj? && attr.objectType.Some? && attr.objectType.value in c.cat.objects
    requires Used(path + [EP.Attribute(name)] + index) == Used(path) + {name}
    requires !RefusesOne(c, name, attr, v, path + [EP.Attribute(name)] + index, issue)
    ensures OnRefused(c, name, attr, v, path, index, issue) <==>
      SomeRefused(c, c.cat.objects[attr.objectType.value].item, v.fields, path + [EP.Attribute(name)] + index, issue)
  {
    hide Refused, RefusesOne, Used, Opened;
    var at, inside := path + [EP.Attribute(name)] + index, c.cat.objects[attr.objectType.value].item;
    forall rest
      ensures RefusedOn(c, name, attr, v, at, Used(path), rest, issue) == Refused(c, inside, v.fields, at, Used(at), rest, issue)
    {
    }
  }

  // ----- The walk -----

  /** What a slot of the walk refuses: at its own attribute, or at its pair's sibling. */
  ghost predicate SlotRefused(c: Ctx, def: ItemDef, item: Item, path: Elems, slot: string, issue: IssueCode)
    requires Known(c, def) && slot in def.attributes
  {
    match DispatchOf(def, c.profiles, slot)
    case Single => OfRefused(c, def, item, path, slot, issue)
    case Pair(s) => s in def.attributes && OfRefused(c, def, item, path, s, issue)
    case _ => false
  }

  lemma SlotsRefuse(c: Ctx, def: ItemDef, item: Item, path: Elems, issue: IssueCode)
    requires Ready(c) && Known(c, def) && forall n :: n in def.ordered <==> n in def.attributes
    ensures (exists n | n in def.ordered :: SlotRefused(c, def, item, path, n, issue)) <==>
      SomeRefused(c, def, item, path, issue)
  {
    hide Ready, Known, OfRefused, Active, SomeRefused;
    ItemRefuses(c, def, item, path, issue);
    if n: string :| n in def.attributes && OfRefused(c, def, item, path, n, issue) {
      OfRefuses(c, def, item, path, n, issue);
      CoupleDispatched(c, def, n);
      Ends(c, def, n);
      hide InProfiles, InRefused, Couple;
      var slot := if DispatchOf(def, c.profiles, n) == Single then n else def.owners[n];
      assert SlotRefused(c, def, item, path, slot, issue);
    }
  }

  lemma {:induction false} FromRefused(c: Ctx, orig: Item, cur: Item, def: ItemDef, names: seq<string>, done: set<string>,
                                       path: Elems, issue: IssueCode)
    requires Ready(c) && Known(c, def) && Stage(c, orig, cur, def, Used(path), done) && Refusing(issue)
    requires Ascending(names) && forall n | n in names :: n in def.attributes && n !in done
    ensures Raise(issue) in VisitFrom(c, cur, def, names, path).trace <==>
      c.observables == Add
      && exists n | n in names :: SlotRefused(c, def, SettledItem(c, orig, def, Used(path)), path, n, issue)
    decreases Unused(c, path), 4, |names|
  {
    hide Ready, Known, Stage, VisitOne, SlotRefused, SettledItem, Refusing, Used;
    if names != [] {
      OneRefused(c, orig, cur, def, names[0], done, path, issue);
      OneSettles(c, orig, cur, def, names[0], done, path);
      AscendingTail(names);
      HeadAndTail(names);
      hide Ascending;
      FromRefused(c, orig, VisitOne(c, cur, def, names[0], path).item, def, names[1..], done + {names[0]}, path, issue);
    }
  }

  lemma {:induction false} OneRefused(c: Ctx, orig: Item, cur: Item, def: ItemDef, name: string, done: set<string>,
                                      path: Elems, issue: IssueCode)
    requires Ready(c) && Known(c, def) && Stage(c, orig, cur, def, Used(path), done) && Refusing(issue)
    requires name in def.attributes && name !in done
    ensures Raise(issue) in VisitOne(c, cur, def, name, path).trace <==>
      c.observables == Add && SlotRefused(c, def, SettledItem(c, orig, def, Used(path)), path, name, issue)
    decreases Unused(c, path), 3
  {
    hide *;
    match DispatchOf(def, c.profiles, name)
    case Pair(s) => OneOfPair(c, orig, cur, def, name, s, done, path, issue);
    case Single =>
      StageAttribute(c, orig, cur, def, Used(path), done, name);
      if Attribute(orig, name).Some? {
        SingleRefused(c, orig, cur, def, name, path, issue);
        SlotOfSingle(c, SettledItem(c, orig, def, Used(path)), def, name, path, issue);
      } else {
        NoneRefused(c, orig, cur, def, name, path, issue);
      }
    case _ => NoneRefused(c, orig, cur, def, name, path, issue);
  }

  lemma SlotOfSingle(c: Ctx, item: Item, def: ItemDef, name: string, path: Elems, issue: IssueCode)
    requires Known(c, def) && name in def.attributes && DispatchOf(def, c.profiles, name) == Single
    ensures SlotRefused(c, def, item, path, name, issue) == OfRefused(c, def, item, path, name, issue)
  {
    hide OfRefused, Known, DispatchOf;
  }

  lemma OneOfPair(c: Ctx, orig: Item, cur: Item, def: ItemDef, e: string, s: string, done: set<string>, path: Elems,
                  issue: IssueCode)
    requires Ready(c) && Known(c, def) && Stage(c, orig, cur, def, Used(path), done) && Refusing(issue)
    requires e in def.attributes && e !in done && DispatchOf(def, c.profiles, e) == Pair(s)
    ensures Raise(issue) in VisitOne(c, cur, def, e, path).trace <==>
      c.observables == Add && SlotRefused(c, def, SettledItem(c, orig, def, Used(path)), path, e, issue)
  {
    hide Ready, Known, Stage, OfRefused, SettledItem, VisitPair, DispatchOf, Used, Refusing;
    PairKnown(c, def, e);
    PairRefused(c, orig, cur, def, e, s, done, path, issue);
  }

  /** Attributes that are inactive, owned by a pair, or missing. */
  lemma NoneRefused(c: Ctx, orig: Item, cur: Item, def: ItemDef, name: string, path: Elems, issue: IssueCode)
    requires Ready(c) && Known(c, def) && Refusing(issue) && name in def.attributes
    requires !DispatchOf(def, c.profiles, name).Pair?
    requires DispatchOf(def, c.profiles, name) == Single ==> Attribute(orig, name) == None && Attribute(cur, name) == None
    ensures Raise(issue) in VisitOne(c, cur, def, name, path).trace <==>
      c.observables == Add && SlotRefused(c, def, SettledItem(c, orig, def, Used(path)), path, name, issue)
  {
    hide Ready, Known, OfRefused, SettledItem, Judged, VisitPresent, RetainUnsupported, DispatchOf, Used, Refusing, Mild;
    var at := path + [EP.Attribute(name)];
    if DispatchOf(def, c.profiles, name) == Single {
      JudgedMild(c, OnMissing, at, cur, Null);
      MildMeans(Judged(c, OnMissing, at, cur, Null), issue);
      AbsentRefused(c, orig, def, name, path, issue);
    } else if Attribute(cur, name).Some? {
      JudgedMild(c, OnInactive, at, cur, cur[name]);
      MildMeans(Judged(c, OnInactive, at, cur, cur[name]), issue);
    }
  }

  lemma MildMeans(trace: seq<Effect>, issue: IssueCode)
    requires Mild(trace) && Refusing(issue)
    ensures Raise(issue) !in trace
  {
  }

  lemma AbsentRefused(c: Ctx, orig: Item, def: ItemDef, name: string, path: Elems, issue: IssueCode)
    requires Ready(c) && Known(c, def)
    requires name in def.attributes && DispatchOf(def, c.profiles, name) == Single && Attribute(orig, name) == None
    ensures !OfRefused(c, def, SettledItem(c, orig, def, Used(path)), path, name, issue)
  {
    hide Ready, Known, SettledItem, RefusedIn, Active, Used;
    SettledSingle(c, orig, def, Used(path), name);
  }

  lemma {:induction false} SingleRefused(c: Ctx, orig: Item, cur: Item, def: ItemDef, name: string, path: Elems,
                                         issue: IssueCode)
    requires Ready(c) && Known(c, def) && Refusing(issue)
    requires name in def.attributes && DispatchOf(def, c.profiles, name) == Single
    requires Attribute(cur, name) == Attribute(orig, name) && Attribute(orig, name).Some?
    ensures Raise(issue) in VisitOne(c, cur, def, name, path).trace <==>
      c.observables == Add && OfRefused(c, def, SettledItem(c, orig, def, Used(path)), path, name, issue)
    decreases Unused(c, path), 2, 1
  {
    hide Ready, Known, Stage, InRefused, OfRefused, SettledItem, Judged, VisitPresent, RetainUnsupported, SettledValue;
    hide Used, Refusing, OfSiblings, InProfiles;
    var attr, v, at := def.attributes[name], orig[name], path + [EP.Attribute(name)];
    var kept, settled := RetainUnsupported(c, cur, def, name), SettledItem(c, orig, def, Used(path));
    KnownName(c, def, name);
    PresentSettles(c, kept.item, v, name, attr, path);
    PresentRefused(c, kept.item, v, name, attr, path, issue);
    SettledSingle(c, orig, def, Used(path), name);
    JudgedMild(c, OnPresent, at, kept.item, v);
    MildMeans(Judged(c, OnPresent, at, kept.item, v), issue);
    RetainedSilent(c, cur, def, name);
    SiblingsMild(kept.trace);
    MildMeans(kept.trace, issue);
    OfRefuses(c, def, settled, path, name, issue);
    CoupleDispatched(c, def, name);
    SettledNotNull(c, v, name, attr, Used(path));
  }

  lemma SettledNotNull(c: Ctx, v: Value, name: string, attr: AttrDef, used: set<string>)
    requires Ready(c) && name in Names(c) && v != Null
    ensures SettledValue(c, v, name, attr, used) != Null
  {
    hide Ready, Names, SettledItem;
  }

  lemma PairRefused(c: Ctx, orig: Item, cur: Item, def: ItemDef, e: string, s: string, done: set<string>, path: Elems,
                    issue: IssueCode)
    requires Ready(c) && Known(c, def) && Stage(c, orig, cur, def, Used(path), done) && Refusing(issue)
    requires e in def.attributes && e !in done && DispatchOf(def, c.profiles, e) == Pair(s) && s in def.attributes
    ensures Raise(issue) in VisitPair(c, cur, def, e, s, path).trace <==>
      c.observables == Add && OfRefused(c, def, SettledItem(c, orig, def, Used(path)), path, s, issue)
  {
    hide Ready, Known, Stage, OfRefused, InRefused, SettledItem, Judged, EnumStep, Active, SiblingObservables, DispatchOf;
    hide Used, Refusing, InProfiles, OfScalars, Couple;
    var step, settled := EnumStep(c, cur, e, def.attributes[e], s), SettledItem(c, orig, def, Used(path));
    SiblingPlain(c, def, e, s);
    PairFinal(c, orig, cur, def, e, s, done, path);
    StepSilent(c, cur, e, def.attributes[e], s);
    SiblingsMild(step.trace);
    MildMeans(step.trace, issue);
    var judged := Judged(c, OnPair(s), path + [EP.Attribute(e)], step.item, Null);
    JudgedMild(c, OnPair(s), path + [EP.Attribute(e)], step.item, Null);
    MildMeans(judged, issue);
    OfRefuses(c, def, settled, path, s, issue);
    SiblingActive(c, def, e, s);
    if Attribute(step.item, s).Some? {
      SiblingRefused(c, s, def.attributes[s], step.item[s], path, issue);
    }
  }

  lemma SiblingActive(c: Ctx, def: ItemDef, e: string, s: string)
    requires Known(c, def) && e in def.attributes && DispatchOf(def, c.profiles, e) == Pair(s) && s in def.attributes
    ensures InProfiles(def.attributes[s], c.profiles) && !EnumOfCouple(def, c.profiles, s)
    ensures def.attributes[s].typ == "string_t" && def.attributes[s].enum == None
  {
    hide Known, DispatchOf, InProfiles;
    CoupleDispatched(c, def, e);
  }

  /** One scalar that is looked at for its observable. */
  lemma ScalarRefused(c: Ctx, name: string, attr: AttrDef, v: Value, at: Elems, issue: IssueCode)
    requires OfScalars(attr) && attr.enum == None && Refusing(issue)
    ensures Raise(issue) in ScalarObservable(c, at, name, attr, v) <==> RefusesOne(c, name, attr, v, at, issue)
  {
    hide ObservableType, Watched, TI.DerivedFrom, OfScalars, Spelled;
    ScalarOutcome(c, at, name, attr, v);
    ObservableMeans(c, at, name, attr);
    hide ScalarObservable;
    if text :| Spelled(v, text) {
      assert !TI.DerivedFrom(c.cat.types, attr.typ, "json_t") && ObservableType(c, at, name, attr).Some? ==>
        ScalarObservable(c, at, name, attr, v) == [Observe(at, ObservableType(c, at, name, attr).value, Some(text))];
    }
  }

  /** Values of scalars are not entered. */
  lemma ScalarOnly(c: Ctx, name: string, attr: AttrDef, v: Value, path: Elems, index: Elems, issue: IssueCode)
    requires OfScalars(attr) && |index| <= 1 && forall i | 0 <= i < |index| :: index[i].ArrayIndex?
    ensures OnRefused(c, name, attr, v, path, index, issue)
      == RefusesOne(c, name, attr, v, path + [EP.Attribute(name)] + index, issue)
  {
    hide OnRefused, RefusesOne, OfScalars, Used;
    OnRefuses(c, name, attr, v, path, index, issue);
  }

  lemma SiblingRefused(c: Ctx, name: string, attr: AttrDef, v: Value, path: Elems, issue: IssueCode)
    requires attr.typ == "string_t" && attr.enum == None && Refusing(issue)
    ensures Raise(issue) in SiblingObservables(c, path + [EP.Attribute(name)], name, attr, v) <==>
      InRefused(c, name, attr, v, path, issue)
  {
    hide ScalarObservable, ArrayObservables, InRefused, OnRefused, RefusesOne, ObservableType, Watched, Promises;
    var at := path + [EP.Attribute(name)];
    InRefuses(c, name, attr, v, path, issue);
    if !attr.isArray {
      ScalarOnly(c, name, attr, v, path, [], issue);
      assert at + [] == at;
      ScalarRefused(c, name, attr, v, at, issue);
    } else if v.Arr? {
      ElementsRefused(c, name, attr, v.elems, path, 0, issue);
    } else {
      ObservableMeans(c, at, name, attr);
    }
  }

  ghost predicate AnyRefused(c: Ctx, name: string, attr: AttrDef, elems: seq<Value>, path: Elems, i: nat, issue: IssueCode) {
    exists k | i <= k < |elems| :: OnRefused(c, name, attr, elems[k], path, [EP.ArrayIndex(k)], issue)
  }

  lemma {:induction false} ElementsRefused(c: Ctx, name: string, attr: AttrDef, elems: seq<Value>, path: Elems, i: nat,
                                           issue: IssueCode)
    requires OfScalars(attr) && attr.enum == None && Refusing(issue) && i <= |elems|
    ensures Raise(issue) in ArrayObservables(c, path + [EP.Attribute(name)], name, attr, elems, i) <==>
      AnyRefused(c, name, attr, elems, path, i, issue)
    decreases |elems| - i
  {
    hide ScalarObservable, OnRefused, RefusesOne, OfScalars, Refusing;
    if i < |elems| {
      ScalarOnly(c, name, attr, elems[i], path, [EP.ArrayIndex(i)], issue);
      ScalarRefused(c, name, attr, elems[i], path + [EP.Attribute(name)] + [EP.ArrayIndex(i)], issue);
      ElementsRefused(c, name, attr, elems, path, i + 1, issue);
    }
  }

  lemma PrimitiveRefused(c: Ctx, item: Item, v: Value, name: string, attr: AttrDef, at: Elems, hook: Hook, issue: IssueCode)
    requires OfScalars(attr) && Refusing(issue)
    ensures Raise(issue) in PrimitiveStep(c, item, v, name, attr, at, hook) <==>
      c.observables == Add && RefusesOne(c, name, attr, v, at, issue)
  {
    hide Judged, ScalarObservable, Refusing, OfScalars, Watched, Spelled, Promises;
    JudgedMild(c, hook, at, item, v);
    MildMeans(Judged(c, hook, at, item, v), issue);
    if attr.enum == None {
      ScalarRefused(c, name, attr, v, at, issue);
    }
  }

  lemma {:induction false} ScalarElemsRefused(c: Ctx, item: Item, elems: seq<Value>, name: string, attr: AttrDef, path: Elems,
                                              i: nat, issue: IssueCode)
    requires OfScalars(attr) && Refusing(issue) && i <= |elems|
    ensures Raise(issue) in VisitScalarElems(c, item, elems, name, attr, path + [EP.Attribute(name)], i) <==>
      c.observables == Add && AnyRefused(c, name, attr, elems, path, i, issue)
    decreases |elems| - i
  {
    hide Judged, PrimitiveStep, OnRefused, RefusesOne, OfScalars, Refusing;
    if i < |elems| {
      var at := path + [EP.Attribute(name)] + [EP.ArrayIndex(i)];
      ScalarOnly(c, name, attr, elems[i], path, [EP.ArrayIndex(i)], issue);
      PrimitiveRefused(c, item, elems[i], name, attr, at, OnElementPrimitive, issue);
      JudgedMild(c, OnElementEnum, at, item, elems[i]);
      MildMeans(Judged(c, OnElementEnum, at, item, elems[i]), issue);
      ScalarElemsRefused(c, item, elems, name, attr, path, i + 1, issue);
    }
  }

  // ----- Values -----

  lemma {:induction false} PresentRefused(c: Ctx, item: Item, v: Value, name: string, attr: AttrDef, path: Elems,
                                          issue: IssueCode)
    requires Ready(c) && name in Names(c) && Refusing(issue)
    ensures var r := VisitPresent(c, item, v, name, attr, path);
      Raise(issue) in r.trace <==> c.observables == Add && InRefused(c, name, attr, r.value, path, issue)
    decreases Unused(c, path), 2, 0
  {
    hide Ready, Names, VisitValue, VisitElems, VisitScalarElems, InRefused, OnRefused, Walk.ArrayWrongType, Refusing, RefusesAll;
    InRefuses(c, name, attr, VisitPresent(c, item, v, name, attr, path).value, path, issue);
    if !attr.isArray {
      ValueRefused(c, item, v, name, attr, path, [], issue);
    } else if !v.Arr? {
      WrongArrayRefused(c, item, v, name, attr, path + [EP.Attribute(name)], issue);
    } else if ScalarArray(attr) {
      ScalarElemsRefused(c, item, v.elems, name, attr, path, 0, issue);
    } else {
      ElemsRefused(c, item, v.elems, name, attr, path, 0, VisitElems(c, item, v.elems, name, attr, path, 0).elems, issue);
    }
  }

  lemma WrongArrayRefused(c: Ctx, item: Item, v: Value, name: string, attr: AttrDef, at: Elems, issue: IssueCode)
    requires Refusing(issue)
    ensures Raise(issue) in Walk.ArrayWrongType(c, item, v, name, attr, at) <==>
      c.observables == Add && RefusesAll(c, name, attr, at, issue)
  {
    hide Judged, ObservableType, MayGenerateAt, Watched, Promises;
    ObservableMeans(c, at, name, attr);
    PromisesMeans(c, at, name, attr);
    JudgedMild(c, OnArrayWrongType, at, item, v);
    MildMeans(Judged(c, OnArrayWrongType, at, item, v), issue);
  }

  lemma {:induction false} ElemsRefused(c: Ctx, item: Item, elems: seq<Value>, name: string, attr: AttrDef, path: Elems, i: nat,
                                        final: seq<Value>, issue: IssueCode)
    requires Ready(c) && name in Names(c) && Refusing(issue) && !(attr.isArray && ScalarArray(attr))
    requires i <= |elems| == |final| && VisitElems(c, item, elems, name, attr, path, i).elems == final[i..]
    ensures Raise(issue) in VisitElems(c, item, elems, name, attr, path, i).trace <==>
      c.observables == Add && AnyRefused(c, name, attr, final, path, i, issue)
    decreases Unused(c, path), 1, |elems| - i
  {
    hide Ready, Names, VisitValue, OnRefused, ScalarArray, Refusing;
    if i < |elems| {
      ValueRefused(c, item, elems[i], name, attr, path, [EP.ArrayIndex(i)], issue);
      assert final[i] == final[i..][0] && final[i..][1..] == final[i + 1..];
      ElemsRefused(c, item, elems, name, attr, path, i + 1, final, issue);
    }
  }

  lemma {:induction false} ValueRefused(c: Ctx, item: Item, v: Value, name: string, attr: AttrDef, path: Elems, index: Elems,
                                        issue: IssueCode)
    requires Ready(c) && name in Names(c) && Refusing(issue) && !(attr.isArray && ScalarArray(attr))
    requires |index| <= 1 && forall i | 0 <= i < |index| :: index[i].ArrayIndex?
    ensures var r := VisitValue(c, item, v, name, attr, path, index);
      Raise(issue) in r.trace <==> c.observables == Add && OnRefused(c, name, attr, r.value, path, index, issue)
    decreases Unused(c, path), 0, 1
  {
    if Opened(c, name, attr, v, Used(path)) {
      EnteredRefused(c, item, v, name, attr, path, index, issue);
    } else {
      ClosedRefused(c, item, v, name, attr, path, index, issue);
    }
  }

  lemma ClosedRefused(c: Ctx, item: Item, v: Value, name: string, attr: AttrDef, path: Elems, index: Elems, issue: IssueCode)
    requires Ready(c) && name in Names(c) && Refusing(issue) && !(attr.isArray && ScalarArray(attr))
    requires !Opened(c, name, attr, v, Used(path))
    requires |index| <= 1 && forall i | 0 <= i < |index| :: index[i].ArrayIndex?
    ensures var r := VisitValue(c, item, v, name, attr, path, index);
      Raise(issue) in r.trace <==> c.observables == Add && OnRefused(c, name, attr, r.value, path, index, issue)
  {
    hide Ready, Names, Judged, MayGenerateAt, ObjectObservable, PrimitiveStep, EP.PriorAttribute, VisitItem, OnRefused;
    hide Used, Watched, Promises, Refusing, Spelled;
    var at := path + [EP.Attribute(name)] + index;
    UsedAt(path, name, index);
    OpenedUnless(c, name, attr, v, Used(path));
    OnRefuses(c, name, attr, v, path, index, issue);
    hide Opened;
    JudgedMild(c, OnEnum, at, item, v);
    MildMeans(Judged(c, OnEnum, at, item, v), issue);
    if attr.typ != "object_t" {
      PrimitiveRefused(c, item, v, name, attr, at, OnPrimitive, issue);
    } else if !v.Obj? {
      PromisesMeans(c, at, name, attr);
      JudgedMild(c, OnObjectWrongType, at, item, v);
      MildMeans(Judged(c, OnObjectWrongType, at, item, v), issue);
    } else if attr.objectType.Some? && attr.objectType.value !in c.cat.objects {
      JudgedMild(c, OnSchemaMissing, at, item, v);
      MildMeans(Judged(c, OnSchemaMissing, at, item, v), issue);
    }
  }

  lemma {:induction false} EnteredRefused(c: Ctx, item: Item, v: Value, name: string, attr: AttrDef, path: Elems, index: Elems,
                                          issue: IssueCode)
    requires Ready(c) && name in Names(c) && Refusing(issue) && Opened(c, name, attr, v, Used(path))
    requires |index| <= 1 && forall i | 0 <= i < |index| :: index[i].ArrayIndex?
    ensures var r := VisitValue(c, item, v, name, attr, path, index);
      Raise(issue) in r.trace <==> c.observables == Add && OnRefused(c, name, attr, r.value, path, index, issue)
    decreases Unused(c, path), 0, 0
  {
    hide Ready, Names, Judged, ObjectObservable, PrimitiveStep, EP.PriorAttribute, VisitItem, SomeRefused, OnRefused, Known;
    hide Used, Watched, Promises, Refusing, MayGenerateAt, Mild;
    var at, def := path + [EP.Attribute(name)] + index, c.cat.objects[attr.objectType.value];
    OpenedKnown(c, name, attr, v, Used(path));
    UsedAt(path, name, index);
    UnusedShrinks(c, path, name, index);
    var inner := VisitItem(c, v.fields, def.item, at);
    OnRefuses(c, name, attr, Obj(inner.item), path, index, issue);
    RefusedExactly(c, v.fields, def.item, at, issue);
    JudgedMild(c, OnEnum, at, item, v);
    MildMeans(Judged(c, OnEnum, at, item, v), issue);
    ObjectMild(c, at, name, attr, def);
    MildMeans(ObjectObservable(c, at, name, attr, def), issue);
    JudgedMild(c, OnObject, at, v.fields, v);
    MildMeans(Judged(c, OnObject, at, v.fields, v), issue);
    JudgedMild(c, OnObjectDone, at, inner.item, Null);
    MildMeans(Judged(c, OnObjectDone, at, inner.item, Null), issue);
  }
}
