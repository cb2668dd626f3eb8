/** When a run may describe its own observables: a test of the schema, made before any event is seen. */
module SelfReference {
  import opened Text
  import opened Values
  import opened TypeInheritance
  import opened Schema
  import opened Observability
  import opened Walk
  import opened Settling
  import opened Generation
  import opened ObservablePath
  import opened Analysis
  import opened Collection
  import opened Run
  import opened Trust
  import opened GeneratedEntries
  import opened TrustedSuffix
  import opened Undoing
  import EP = EventPath

  // ----- Discovery foresees generation -----

  /** The name of the object type is no name of a scalar type. */
  ghost predicate ObjectsApart(c: Ctx) {
    PrimitiveOf(c.cat.types, "object_t") !in {"boolean_t", "float_t", "integer_t", "long_t", "string_t"}
  }

  /** Discovery's answer for an attribute: the observable type of a scalar, or whether an object may generate. */
  ghost predicate MayObserve(c: Ctx, path: Elems, name: string, attr: AttrDef) {
    if Primitive(attr) then ObservableType(c, path, name, attr).Some? else MayGenerateAt(c, path, name, attr)
  }

  /** Discovery reads of a path only the attribute names. */
  lemma SameNames(c: Ctx, a: Elems, b: Elems, name: string, attr: AttrDef)
    requires EP.AttributeNames(a) == EP.AttributeNames(b)
    ensures MayObserve(c, a, name, attr) == MayObserve(c, b, name, attr)
  {
    hide TypeID, AttributeMayGenerate;
  }

  /** Whatever the schema calls for at or below an attribute, discovery has foreseen there. */
  lemma {:induction false} CalledIsForeseen(c: Ctx, name: string, attr: AttrDef, v: Value, at: Elems,
                                            used: set<string>, e: Effect)
    requires Ready(c) && ObjectsApart(c) && e.Observe? && CallsFor(c, name, attr, v, at, used, e)
    ensures MayObserve(c, at, name, attr)
    decreases Left(at, e), 2
  {
    hide Ready, ObjectsApart, MayObserve, CallsAt;
    if attr.isArray {
      var here := at + [EP.ArrayIndex(e.path[|at|].index)];
      EP.AttributeNamesAppend(at, [EP.ArrayIndex(e.path[|at|].index)]);
      EP.NoNames([EP.ArrayIndex(e.path[|at|].index)]);
      SameNames(c, at, here, name, attr);
      ForeseenAt(c, name, attr, v.elems[e.path[|at|].index], here, used, e);
    } else {
      ForeseenAt(c, name, attr, v, at, used, e);
    }
  }

  lemma {:induction false} ForeseenAt(c: Ctx, name: string, attr: AttrDef, v: Value, at: Elems, used: set<string>,
                                      e: Effect)
    requires Ready(c) && ObjectsApart(c) && e.Observe? && CallsAt(c, name, attr, v, at, used, e)
    ensures MayObserve(c, at, name, attr)
    decreases Left(at, e), 1
  {
    hide Ready, ObjectsApart, MayGenerateAt, ObservableType, Calls, ObjectCalls;
    if !Primitive(attr) {
      var o := attr.objectType.value;
      var def := c.cat.objects[o];
      if e.path == at {
        ObjectForeseen(c, name, attr, e);
      } else {
        CalledBelow(c, def.item, v.fields, at, e);
        var key := e.path[|at|].name;
        FirstBelow(c, def.item, v.fields, at, e);
        CalledIsForeseen(c, key, def.item.attributes[key], v.fields[key], at + [EP.Attribute(key)], Used(at), e);
        AttributeForeseen(c, o, key, at, e);
        NestedForeseen(c, name, attr, at);
      }
    } else {
      assert ObservableType(c, at, name, attr).Some? by {
        assert ScalarCalls(c, name, attr, v, e);
      }
    }
  }

  lemma CalledBelow(c: Ctx, def: ItemDef, item: Item, path: Elems, e: Effect)
    requires e.Observe? && Calls(c, def, item, path, e)
    ensures path < e.path && e.path[|path|].Attribute?
    ensures var key := e.path[|path|].name;
      && key in def.attributes && key in item
      && CallsFor(c, key, def.attributes[key], item[key], path + [EP.Attribute(key)], Used(path), e)
  {
    hide CallsFor, SingleKey, PairKey;
  }

  lemma FirstBelow(c: Ctx, def: ItemDef, item: Item, path: Elems, e: Effect)
    requires e.Observe? && path < e.path && e.path[|path|].Attribute?
    ensures Left(path + [EP.Attribute(e.path[|path|].name)], e) < Left(path, e)
  {
  }

  lemma ObjectForeseen(c: Ctx, name: string, attr: AttrDef, e: Effect)
    requires e.Observe? && attr.objectType.Some? && attr.objectType.value in c.cat.objects
    requires ObjectCalls(c, name, attr, c.cat.objects[attr.objectType.value], e)
    ensures MayGenerateAt(c, e.path, name, attr)
  {
    hide TypeID, MayGenerate;
    if ClassDeclared(c, e.path).Some? {
      DeclaredHere(c, e.path, e.path);
    }
  }

  /** A class declaration for a path is one at or below every path it extends. */
  lemma DeclaredHere(c: Ctx, path: Elems, at: Elems)
    requires ClassDeclared(c, path).Some? && EP.AttributeNames(at) <= EP.AttributeNames(path)
    ensures DeclaredAtOrBelow(c, at)
  {
    var key := Join(EP.AttributeNames(path), '.');
    assert key in c.cls.observables && EP.AttributeNames(at) <= Split(key, '.');
  }

  lemma DeclaredAbove(c: Ctx, path: Elems, at: Elems)
    requires DeclaredAtOrBelow(c, path) && EP.AttributeNames(at) <= EP.AttributeNames(path)
    ensures DeclaredAtOrBelow(c, at)
  {
  }

  /** What is foreseen at an attribute of an object, in general or for this class, is foreseen of the object. */
  lemma AttributeForeseen(c: Ctx, o: string, key: string, at: Elems, e: Effect)
    requires Ready(c) && ObjectsApart(c) && o in c.cat.objects && key in c.cat.objects[o].item.attributes
    requires e.Observe? && MayObserve(c, at + [EP.Attribute(key)], key, c.cat.objects[o].item.attributes[key])
    ensures DeclaredAtOrBelow(c, at) || MayGenerate(c.cat, c.allowed, o)
  {
    hide MayGenerate, DeclaredAtOrBelow, ClassDeclared, TypeID, Cached, DirectlyObservable;
    var attr := c.cat.objects[o].item.attributes[key];
    var below := at + [EP.Attribute(key)];
    EP.AttributeNamesAppend(at, [EP.Attribute(key)]);
    if Primitive(attr) {
      if ClassDeclared(c, below).Some? {
        DeclaredHere(c, below, at);
      } else {
        assert attr.typ != "object_t";
        DirectHere(c.cat, c.allowed, o, key);
        MayGenerateHere(c.cat, c.allowed, o);
      }
    } else if DeclaredAtOrBelow(c, below) {
      DeclaredAbove(c, below, at);
    } else if MayGenerate(c.cat, c.allowed, attr.objectType.value) {
      assert Edge(c.cat, o, attr.objectType.value);
      MayGenerateBefore(c.cat, c.allowed, o, attr.objectType.value);
    } else {
      DirectHere(c.cat, c.allowed, o, key);
      MayGenerateHere(c.cat, c.allowed, o);
    }
  }

  lemma NestedForeseen(c: Ctx, name: string, attr: AttrDef, at: Elems)
    requires attr.objectType.Some? && attr.objectType.value in c.cat.objects
    requires DeclaredAtOrBelow(c, at) || MayGenerate(c.cat, c.allowed, attr.objectType.value)
    ensures MayGenerateAt(c, at, name, attr)
  {
  }

  // ----- Runs that cannot describe their own observables -----

  /** The class has an attribute for its observables, and discovery foresees observables there. */
  ghost predicate ObservesItself(c: Ctx) {
    && OBSERVABLES in c.cls.item.attributes
    && MayObserve(c, [EP.Attribute(OBSERVABLES)], OBSERVABLES, c.cls.item.attributes[OBSERVABLES])
  }

  lemma LeadIsForeseen(c: Ctx, item: Item, e: Effect)
    requires Ready(c) && ObjectsApart(c) && e.Observe? && Calls(c, c.cls.item, item, [], e)
    requires e.path != [] && e.path[0].Attribute? && e.path[0].name == OBSERVABLES
    ensures ObservesItself(c)
  {
    hide Ready, ObjectsApart, MayObserve, Calls, CallsFor;
    CalledBelow(c, c.cls.item, item, [], e);
    var at := [EP.Attribute(OBSERVABLES)];
    assert [] + at == at;
    CalledIsForeseen(c, OBSERVABLES, c.cls.item.attributes[OBSERVABLES], item[OBSERVABLES], at, Used([]), e);
  }

  /** If discovery foresees nothing there, no event makes a run generate an entry that leads back. */
  lemma NothingLeadsBack(p: Pipeline, c: Ctx, event: Item)
    requires Ready(c) && Expressible(c) && Sized(Obj(event)) && c.style == p.style && c.observables == Add
    requires ObjectsApart(c) && !ObservesItself(c)
    ensures NoneLeadsBack(Generated(p, c, event))
  {
    hide *;
    SoundWalk(c, event);
    SameAsItself(Walked(c, event).item);
    if !NoneLeadsBack(Generated(p, c, event)) {
      var raw := SomeLeadsBack(Generated(p, c, event));
      var e := GeneratedFrom(p, c, event, raw);
      WalkedCalls(c, event, e);
      EntryTrusted(p, c, Walked(c, event).item, Walked(c, event).item, e);
      LeadIsForeseen(c, Walked(c, event).item, e);
    }
  }

  lemma SomeLeadsBack(raws: seq<Value>) returns (raw: Value)
    requires !NoneLeadsBack(raws)
    ensures raw in raws && LeadsBack(raw)
  {
    hide LeadsBack;
    raw :| raw in raws && LeadsBack(raw);
  }

  /** Then no event describes itself, whatever it holds. */
  lemma NeverDescribesItself(p: Pipeline, c: Ctx, item: Item)
    requires Ready(c) && ObjectsApart(c) && !ObservesItself(c)
    ensures !DescribesItself(p, c, item)
  {
    hide Ready, ObjectsApart, ObservesItself, Calls, Identify, EntryFor, WrongType;
    if e :| NewSelfObservation(p, c, item, e) {
      LeadIsForeseen(c, item, e);
    }
  }

  /** Such runs may skip the generated suffix on every event, and safe removal undoes them on every event. */
  lemma NeverLeadsBack(p: Pipeline, c: Ctx, event: Item)
    requires Ready(c) && Expressible(c) && Sized(Obj(event)) && c.style == p.style && c.observables == Add
    requires ObjectsApart(c) && !ObservesItself(c)
    ensures var finished := Finished(p, c, event);
      && ValidateObservables(c, p.preferred, finished.item, finished.start)
           == ValidateObservables(c, p.preferred, finished.item, None)
      && RemoveObservables(WithRemoval(c), finished.item).item
           == RemoveObservables(WithRemoval(c), SettledEvent(c, event)).item
  {
    hide *;
    NeverDescribesItself(p, c, SettledEvent(c, event));
    ShortcutAgrees(p, c, event);
    RemovalUndoesAddition(p, c, event);
  }

  // ----- Runs that do -----

  /** An event of a class whose observables hold one empty object. */
  function SelfDescribingEvent(uid: int64): Item {
    map["class_uid" := Int(uid), OBSERVABLES := Arr([Obj(map[])])]
  }

  /** The class's observables are an array of objects that are observable themselves. */
  ghost predicate DescribesEntries(c: Ctx) {
    && SingleKey(c, c.cls.item, OBSERVABLES)
    && var attr := c.cls.item.attributes[OBSERVABLES];
      && attr.isArray && !ScalarArray(attr) && Nested(c.cat, attr).Some?
      && DirectlyObservable(c.cat, c.allowed, OBSERVABLES, attr, c.cat.objects[attr.objectType.value])
  }

  /** For every pipeline that adds observables and has such a class, whatever it does to enum siblings, there is an event
      it resolves to the class and processes in full, on which the shortcut misses a finding: it skips an entry that the
      analysis rejects. */
  lemma ShortcutMisses(p: Pipeline, uid: int64)
    requires Usable(p) && p.observables == Add && uid in p.classes
    requires var c := ContextOf(p, p.classes[uid], {}); Expressible(c) && DescribesEntries(c)
    ensures Ready(ContextOf(p, p.classes[uid], {}))
    ensures var event, c := SelfDescribingEvent(uid), ContextOf(p, p.classes[uid], {});
      var finished := Finished(p, c, event);
      && ResolveClass(p, event) == Resolved(p.classes[uid]) && EventProfiles(event) == {}
      && ProcessEvent(p, event) == Process(p, c, event)
      && ValidateObservables(c, p.preferred, finished.item, finished.start)
           != ValidateObservables(c, p.preferred, finished.item, None)
  {
    hide *;
    var event, c := SelfDescribingEvent(uid), ContextOf(p, p.classes[uid], {});
    EventProcessed(p, uid);
    EntrySettles(c, uid);
    var settled := SettledEvent(c, event);
    var e := EntryCalled(c, settled, [Obj(map[])], 0);
    EntryNew(p, c, settled, e);
    ShortcutAgrees(p, c, event);
  }

  /** The event names the class, so the engine does not stop before the walk. */
  lemma EventProcessed(p: Pipeline, uid: int64)
    requires Usable(p) && uid in p.classes
    ensures var event, c := SelfDescribingEvent(uid), ContextOf(p, p.classes[uid], {});
      && Ready(c) && Sized(Obj(event)) && c.style == p.style && c.observables == p.observables
      && ResolveClass(p, event) == Resolved(p.classes[uid]) && EventProfiles(event) == {}
      && ProcessEvent(p, event) == Process(p, c, event)
  {
    hide Ready, Process;
  }

  /** Whatever the enum action, nothing is added to or taken from an empty object. */
  lemma NothingSettles(c: Ctx, def: ItemDef, used: set<string>)
    requires Ready(c) && Known(c, def)
    ensures SettledItem(c, map[], def, used) == map[]
  {
    hide Ready, Known, SettledItem, SettledSlot;
    var settled := SettledItem(c, map[], def, used);
    forall key ensures Slot(settled, key) == Slot(map[], key) {
      SettledAt(c, map[], def, used, key);
      NoSlotSettles(c, def, used, key);
    }
    SameSlots(settled, map[]);
  }

  lemma NoSlotSettles(c: Ctx, def: ItemDef, used: set<string>, key: string)
    requires Ready(c) && Known(c, def)
    ensures SettledSlot(c, map[], def, used, key) == None
  {
    hide Ready, Known, SettledItem, SettledValue, Clears, Active, DispatchOf, EnumStep;
    Ends(c, def, key);
    if PairKey(c, def, key) {
      NothingToStep(c, def.owners[key], def.attributes[def.owners[key]], key);
    }
  }

  lemma NothingToStep(c: Ctx, e: string, attr: AttrDef, s: string)
    ensures EnumStep(c, map[], e, attr, s).item == map[]
  {
  }

  lemma EntrySettles(c: Ctx, uid: int64)
    requires Ready(c) && DescribesEntries(c)
    ensures Slot(SettledEvent(c, SelfDescribingEvent(uid)), OBSERVABLES) == Some(Arr([Obj(map[])]))
  {
    hide Ready, SettledItem, SettledSlot, DirectlyObservable, DispatchOf;
    var event, def, attr := SelfDescribingEvent(uid), c.cls.item, c.cls.item.attributes[OBSERVABLES];
    ClassKnown(c);
    KnownName(c, def, OBSERVABLES);
    SettledSingle(c, event, def, {}, OBSERVABLES);
    var o := attr.objectType.value;
    ObjectKnown(c, o);
    NothingSettles(c, c.cat.objects[o].item, {} + {OBSERVABLES});
    assert SettledObject(c, Obj(map[]), OBSERVABLES, attr, {}) == Obj(map[]);
    assert SettledValue(c, event[OBSERVABLES], OBSERVABLES, attr, {}).elems == [Obj(map[])];
  }

  /** The schema calls for an observation of each entry that is an object. */
  lemma EntryCalled(c: Ctx, item: Item, elems: seq<Value>, i: nat) returns (e: Effect)
    requires c.observables == Add && DescribesEntries(c) && Slot(item, OBSERVABLES) == Some(Arr(elems))
    requires i < |elems| && elems[i].Obj?
    ensures e.Observe? && e.path == [EP.Attribute(OBSERVABLES), EP.ArrayIndex(i)]
    ensures Calls(c, c.cls.item, item, [], e)
  {
    hide ScalarArray, DispatchOf, TypeID;
    var attr := c.cls.item.attributes[OBSERVABLES];
    var def := c.cat.objects[attr.objectType.value];
    var id := if def.observable.Some? then def.observable.value else TypeID(c.cat, OBSERVABLES, attr).value;
    var at := [EP.Attribute(OBSERVABLES)];
    e := Observe(at + [EP.ArrayIndex(i)], id, None);
    assert [] + at == at;
    assert CallsAt(c, OBSERVABLES, attr, elems[i], at + [EP.ArrayIndex(i)], Used([]), e);
    assert ElementCalls(c, OBSERVABLES, attr, elems, 0, at, Used([]), e);
    assert KeyCalls(c, c.cls.item, item, [], OBSERVABLES, e);
  }

  /** The empty object has no identity, so nothing called for is its like. */
  lemma EntryNew(p: Pipeline, c: Ctx, item: Item, e: Effect)
    requires Slot(item, OBSERVABLES) == Some(Arr([Obj(map[])]))
    requires e.Observe? && e.path != [] && e.path[0] == EP.Attribute(OBSERVABLES)
    requires Calls(c, c.cls.item, item, [], e)
    ensures DescribesItself(p, c, item)
  {
    hide Calls, EntryFor;
    ObservationIdentified(p, c.decimal, e);
    assert Identify(c.decimal, Obj(map[])) == None;
    hide Identify;
    assert Identities(c.decimal, Prior(item)) == {};
    assert NewSelfObservation(p, c, item, e);
  }

  /** Such pipelines exist: one class, with an entry type that is observable as such. */
  function SelfDescribing(enums: Action, style: EP.Style, preferred: Option<EP.Style>, decimal: Decimal,
                          judge: Judging): Pipeline {
    var entries := AttrDef("object_t", "object_t", true, None, None, Some("observable"), None, []);
    var item := ItemDef(map[OBSERVABLES := entries], [OBSERVABLES], map[], map[], map[]);
    var objects := map["observable" := ObjectDef(ItemDef(map[], [], map[], map[], map[]), Some(1))];
    Pipeline(Catalog(objects, map[], map[]), map[7 := ClassDef(7, item, map[])], map[], enums, Add, style, None, true,
             preferred, decimal, judge)
  }

  /** An item without enums and with at most one attribute has an empty cache. */
  lemma PlainItem(types: Types, def: ItemDef)
    requires def.links == map[] && def.owners == map[] && def.numeric == map[]
    requires |def.ordered| <= 1 && forall n :: n in def.ordered <==> n in def.attributes
    requires forall n | n in def.attributes :: def.attributes[n].enum == None
    requires forall n | n in def.attributes :: def.attributes[n].primitive == PrimitiveOf(types, def.attributes[n].typ)
    ensures Initialized(types, def)
  {
    hide PrimitiveOf, Compare, EnumSiblingInitializationIssue;
  }

  lemma SelfDescribingUsable(p: Pipeline)
    requires p == SelfDescribing(p.enums, p.style, p.preferred, p.decimal, p.judge)
    ensures Usable(p)
  {
    hide Initialized, PrimitiveOf;
    ObjectPrimitive();
    PlainItem(p.cat.types, p.classes[7].item);
    PlainItem(p.cat.types, p.cat.objects["observable"].item);
  }

  lemma SelfDescribingEntries(p: Pipeline)
    requires p == SelfDescribing(p.enums, p.style, p.preferred, p.decimal, p.judge)
    ensures var c := ContextOf(p, p.classes[7], {}); Expressible(c) && DescribesEntries(c)
  {
    var c := ContextOf(p, p.classes[7], {});
    assert Walk.Names(c) == {OBSERVABLES};
    assert DispatchOf(c.cls.item, c.profiles, OBSERVABLES) == Single;
    assert Nested(c.cat, c.cls.item.attributes[OBSERVABLES]) == Some("observable");
  }

  lemma ObjectPrimitive()
    ensures PrimitiveOf(map[], "object_t") == "object_t"
  {
    TerminalIs(map[], "object_t", 0, "object_t");
  }

  /** Whatever the enum action, the notations and the validation hooks: what validation reports of the pipeline's own run
      on the event is not what it would report without the shortcut. */
  lemma SelfDescribingMisses(enums: Action, style: EP.Style, preferred: Option<EP.Style>, decimal: Decimal,
                             judge: Judging)
    ensures var p := SelfDescribing(enums, style, preferred, decimal, judge);
      && Usable(p) && ResolveClass(p, SelfDescribingEvent(7)) == Resolved(p.classes[7])
      && Ready(ContextOf(p, p.classes[7], {}))
    ensures var p := SelfDescribing(enums, style, preferred, decimal, judge);
      var c := ContextOf(p, p.classes[7], {});
      var finished := Finished(p, c, SelfDescribingEvent(7));
      && ProcessEvent(p, SelfDescribingEvent(7)) == Process(p, c, SelfDescribingEvent(7))
      && ValidateObservables(c, preferred, finished.item, finished.start)
           != ValidateObservables(c, preferred, finished.item, None)
  {
    var p := SelfDescribing(enums, style, preferred, decimal, judge);
    assert p.observables == Add && 7 in p.classes && p.preferred == preferred;
    hide *;
    SelfDescribingUsable(p);
    SelfDescribingEntries(p);
    ShortcutMisses(p, 7);
  }
}
