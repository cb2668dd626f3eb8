/** The sibling round trips for whole runs, each of which reads class and profiles from the event it is given. */
module OwnProfiles {
  import opened Text
  import opened Values
  import opened Schema
  import opened Observability
  import opened Walk
  import opened Settling
  import opened Run
  import opened RoundTrip

  // ----- What a walk leaves of values that are no captions -----

  /** A sibling that holds neither a text nor an array is neither added nor removed. */
  lemma OddSiblingKept(c: Ctx, item: Item, e: string, attr: AttrDef, s: string)
    requires Attribute(item, s).Some? && !item[s].Str? && !item[s].Arr?
    ensures Slot(EnumStep(c, item, e, attr, s).item, s) == Slot(item, s)
  {
    hide LookupEnum, RemoveArray;
  }

  lemma OddSlot(c: Ctx, item: Item, def: ItemDef, used: set<string>, key: string)
    requires Ready(c) && Known(c, def) && Attribute(item, key).Some? && !item[key].Str? && !item[key].Arr?
    ensures SettledSlot(c, item, def, used, key) == Slot(item, key)
      || (SingleKey(c, def, key) && key in Names(c)
          && SettledSlot(c, item, def, used, key) == Some(SettledValue(c, item[key], key, def.attributes[key], used)))
  {
    hide Ready, SettledValue, EnumStep, Clears, Active, DispatchOf;
    Ends(c, def, key);
    if PairKey(c, def, key) {
      OddSiblingKept(c, item, def.owners[key], def.attributes[def.owners[key]], key);
    } else if SingleKey(c, def, key) {
      KnownName(c, def, key);
    }
  }

  lemma PairHasOwner(c: Ctx, def: ItemDef, key: string)
    requires PairKey(c, def, key)
    ensures key in def.owners
  {
    hide ActiveName;
  }

  lemma NumberKept(c: Ctx, item: Item, def: ItemDef, used: set<string>, key: string)
    requires Ready(c) && Known(c, def) && Attribute(item, key).Some? && (item[key].Int? || item[key].Number?)
    ensures Attribute(SettledItem(c, item, def, used), key) == Attribute(item, key)
  {
    hide Ready, Known, SettledItem, SettledSlot, SettledValue, SingleKey, Names;
    SettledAt(c, item, def, used, key);
    OddSlot(c, item, def, used, key);
    if Slot(SettledItem(c, item, def, used), key) != Slot(item, key) {
      SingleIsAttribute(c, def, key);
      SettledScalar(c, item[key], key, def.attributes[key], used);
    }
  }

  /** The walk of any run keeps the class an event names. */
  lemma ClassKept(p: Pipeline, c: Ctx, event: Item)
    requires Ready(c) && ResolveClass(p, event).Resolved?
    ensures ResolveClass(p, SettledItem(c, event, c.cls.item, {})) == ResolveClass(p, event)
  {
    hide Ready, SettledItem;
    ClassKnown(c);
    NumberKept(c, event, c.cls.item, {}, "class_uid");
  }

  // ----- Profiles -----

  /** The profiles are not the sibling of an active enum in the class's metadata. */
  ghost predicate ProfilesPlain(c: Ctx) {
    "metadata" in c.cls.item.attributes ==>
      var nested := Nested(c.cat, c.cls.item.attributes["metadata"]);
      nested.Some? ==> !PairKey(c, c.cat.objects[nested.value].item, "profiles")
  }

  function Texts(elems: seq<Value>): set<string> {
    set v | v in elems && v.Str? :: v.text
  }

  lemma TextIn(elems: seq<Value>, text: string)
    ensures text in Texts(elems) <==> Str(text) in elems
  {
  }

  function ProfilesIn(metadata: Item): set<string> {
    if Attribute(metadata, "profiles").Some? && metadata["profiles"].Arr? then Texts(metadata["profiles"].elems) else {}
  }

  lemma EventProfilesAre(event: Item)
    ensures EventProfiles(event) ==
      if Attribute(event, "metadata").Some? && event["metadata"].Obj? then ProfilesIn(event["metadata"].fields) else {}
  {
  }

  lemma ElementsKept(c: Ctx, elems: seq<Value>, name: string, attr: AttrDef, used: set<string>)
    requires Ready(c) && name in Names(c)
    ensures Texts(seq(|elems|, i requires 0 <= i < |elems| => SettledObject(c, elems[i], name, attr, used))) == Texts(elems)
  {
    hide Ready, Names, SettledItem, Texts;
    var settled := seq(|elems|, i requires 0 <= i < |elems| => SettledObject(c, elems[i], name, attr, used));
    forall i | 0 <= i < |elems| ensures elems[i].Str? || settled[i].Str? ==> settled[i] == elems[i] {
    }
    forall text ensures text in Texts(settled) <==> text in Texts(elems) {
      TextIn(settled, text);
      TextIn(elems, text);
      if Str(text) in settled {
        var i :| 0 <= i < |elems| && settled[i] == Str(text);
      }
      if Str(text) in elems {
        var i :| 0 <= i < |elems| && elems[i] == Str(text);
        assert settled[i] == Str(text);
      }
    }
  }

  lemma ProfilesInKept(c: Ctx, metadata: Item, def: ItemDef, used: set<string>)
    requires Ready(c) && Known(c, def) && !PairKey(c, def, "profiles")
    ensures ProfilesIn(SettledItem(c, metadata, def, used)) == ProfilesIn(metadata)
  {
    hide Ready, Known, SettledItem, SettledSlot, SettledValue, SingleKey, PairKey, Names;
    if SingleKey(c, def, "profiles") && Attribute(metadata, "profiles").Some? {
      SettledAt(c, metadata, def, used, "profiles");
      SingleSlot(c, metadata, def, used, "profiles");
      SingleIsAttribute(c, def, "profiles");
      TextsKept(c, metadata["profiles"], "profiles", def.attributes["profiles"], used);
    } else {
      SettledOther(c, metadata, def, used, "profiles");
    }
  }

  lemma TextsKept(c: Ctx, v: Value, name: string, attr: AttrDef, used: set<string>)
    requires Ready(c) && name in Names(c)
    ensures SettledValue(c, v, name, attr, used).Arr? <==> v.Arr?
    ensures SettledValue(c, v, name, attr, used).Obj? <==> v.Obj?
    ensures SettledValue(c, v, name, attr, used) == Null ==> v == Null
    ensures v.Arr? ==> Texts(SettledValue(c, v, name, attr, used).elems) == Texts(v.elems)
  {
    hide Ready, Names, SettledItem, Texts;
    if v.Arr? {
      ElementsKept(c, v.elems, name, attr, used);
    }
  }

  /** A value becomes or stops being an object nowhere. */
  lemma ObjectsKept(c: Ctx, item: Item, def: ItemDef, used: set<string>, key: string)
    requires Ready(c) && Known(c, def)
    ensures var settled := SettledItem(c, item, def, used);
      (Attribute(settled, key).Some? && settled[key].Obj?) <==> (Attribute(item, key).Some? && item[key].Obj?)
  {
    hide Ready, Known, SettledItem, SettledSlot, SettledValue, SingleKey, PairKey, Names, EnumStep;
    if PairKey(c, def, key) {
      PairHasOwner(c, def, key);
      SettledPair(c, item, def, used, key);
      SiblingNoObject(c, item, def.owners[key], def.attributes[def.owners[key]], key);
    } else if SingleKey(c, def, key) && Attribute(item, key).Some? {
      SettledAt(c, item, def, used, key);
      SingleSlot(c, item, def, used, key);
      SingleIsAttribute(c, def, key);
      TextsKept(c, item[key], key, def.attributes[key], used);
    } else {
      SettledOther(c, item, def, used, key);
    }
  }

  lemma SiblingNoObject(c: Ctx, item: Item, e: string, attr: AttrDef, s: string)
    ensures var stepped := EnumStep(c, item, e, attr, s).item;
      (Attribute(stepped, s).Some? && stepped[s].Obj?) <==> (Attribute(item, s).Some? && item[s].Obj?)
  {
    hide LookupEnum, RemoveArray;
    if Attribute(item, s).Some? && item[s].Obj? {
      OddSiblingKept(c, item, e, attr, s);
    } else if Settling.Removing(c) {
      PairKeepsOrRemoves(c, item, e, attr, s);
    }
  }

  /** The walk of any run keeps the profiles an event activates. */
  lemma ProfilesKept(c: Ctx, event: Item)
    requires Ready(c) && ProfilesPlain(c)
    ensures EventProfiles(SettledItem(c, event, c.cls.item, {})) == EventProfiles(event)
  {
    hide Names, ProfilesIn, EventProfiles;
    ClassKnown(c);
    var def := c.cls.item;
    var settled := SettledItem(c, event, def, {});
    EventProfilesAre(event);
    EventProfilesAre(settled);
    ObjectsKept(c, event, def, {}, "metadata");
    if Attribute(event, "metadata").Some? && event["metadata"].Obj? {
      OddSlot(c, event, def, {}, "metadata");
      SettledAt(c, event, def, {}, "metadata");
      if Slot(settled, "metadata") != Slot(event, "metadata") {
        MetadataKept(c, event["metadata"], def.attributes["metadata"]);
      }
    }
  }

  lemma MetadataKept(c: Ctx, v: Value, attr: AttrDef)
    requires Ready(c) && v.Obj? && "metadata" in Names(c)
    requires Nested(c.cat, attr).Some? ==> !PairKey(c, c.cat.objects[Nested(c.cat, attr).value].item, "profiles")
    ensures var settled := SettledValue(c, v, "metadata", attr, {});
      settled.Obj? && ProfilesIn(settled.fields) == ProfilesIn(v.fields)
  {
    hide Names, ProfilesIn, PairKey;
    if Enters(c, v, "metadata", attr, {}) {
      ObjectKnown(c, attr.objectType.value);
      ProfilesInKept(c, v.fields, c.cat.objects[attr.objectType.value].item, {} + {"metadata"});
    }
  }

  // ----- Whole runs -----

  function WithEnums(p: Pipeline, action: Action): Pipeline {
    p.(enums := action)
  }

  /** A run that changes only siblings leaves the walked event, and another run reads the same class and profiles off it. */
  lemma SiblingRun(p: Pipeline, action: Action, event: Item)
    requires Usable(p) && p.observables == NoAction && action != NoAction && ResolveClass(p, event).Resolved?
    ensures Usable(WithEnums(p, action))
    ensures var c := ContextOf(WithEnums(p, action), ResolveClass(p, event).cls, EventProfiles(event));
      && Ready(c) && Known(c, c.cls.item)
      && ProcessEvent(WithEnums(p, action), event).item == SettledItem(c, event, c.cls.item, {})
      && (ProfilesPlain(c) ==>
            && ResolveClass(p, ProcessEvent(WithEnums(p, action), event).item) == ResolveClass(p, event)
            && EventProfiles(ProcessEvent(WithEnums(p, action), event).item) == EventProfiles(event))
  {
    hide Ready, Known, Usable, ResolveClass, EventProfiles, ProfilesPlain, SettledItem, VisitItem, ProcessEvent;
    UsableWith(p, action);
    var q := WithEnums(p, action);
    var c := ContextOf(q, ResolveClass(p, event).cls, EventProfiles(event));
    SameClass(p, action, event);
    ReadyFor(q, event);
    ClassKnown(c);
    WalkOnly(q, event);
    VisitSettles(c, event, c.cls.item, []);
    assert Used([]) == {};
    ClassKept(p, c, event);
    if ProfilesPlain(c) {
      ProfilesKept(c, event);
    }
  }

  lemma SameClass(p: Pipeline, action: Action, event: Item)
    ensures ResolveClass(WithEnums(p, action), event) == ResolveClass(p, event)
  {
  }

  /** A run that changes only siblings leaves what the walk leaves. */
  lemma WalkOnly(p: Pipeline, event: Item)
    requires Usable(p) && p.observables == NoAction && p.enums != NoAction && ResolveClass(p, event).Resolved?
    ensures var c := ContextOf(p, ResolveClass(p, event).cls, EventProfiles(event));
      && Ready(c) && Known(c, c.cls.item)
      && ProcessEvent(p, event).item == VisitItem(c, event, c.cls.item, []).item
  {
    ReadyFor(p, event);
    hide Ready, Known, Usable, ResolveClass, EventProfiles, VisitItem, Judged, ValidateObservables;
    ClassKnown(ContextOf(p, ResolveClass(p, event).cls, EventProfiles(event)));
  }

  lemma UsableWith(p: Pipeline, action: Action)
    requires Usable(p)
    ensures Usable(WithEnums(p, action))
  {
    forall uid, profiles | uid in p.classes
      ensures Ready(ContextOf(WithEnums(p, action), p.classes[uid], profiles))
    {
      assert Ready(ContextOf(p, p.classes[uid], profiles));
    }
  }

  lemma ReadyFor(p: Pipeline, event: Item)
    requires Usable(p) && ResolveClass(p, event).Resolved?
    ensures Ready(ContextOf(p, ResolveClass(p, event).cls, EventProfiles(event)))
  {
    hide Ready;
  }

  /** Over whole runs, each reading its own class and profiles: removing after adding is removing alone exactly when no
      caption was synthesised for a 99, and adding after removing is adding alone, up to null for absent, exactly when no
      removed sibling spelled an empty caption. */
  lemma RunsRoundTrip(p: Pipeline, event: Item)
    requires Usable(p) && p.observables == NoAction && ResolveClass(p, event).Resolved?
    requires ProfilesPlain(ContextOf(p, ResolveClass(p, event).cls, EventProfiles(event)))
    ensures Usable(WithEnums(p, Add)) && Usable(WithEnums(p, Remove))
    ensures var c := ContextOf(p, ResolveClass(p, event).cls, EventProfiles(event));
      && Ready(c) && Known(c, c.cls.item)
      && (var adding, removing := WithEnums(p, Add), WithEnums(p, Remove);
          && (ProcessEvent(removing, ProcessEvent(adding, event).item).item == ProcessEvent(removing, event).item
              <==> !Synthesised(c, event, c.cls.item, {}))
          && (SameItem(ProcessEvent(adding, ProcessEvent(removing, event).item).item, ProcessEvent(adding, event).item)
              <==> !Lost(c, event, c.cls.item, {})))
  {
    var c := ContextOf(p, ResolveClass(p, event).cls, EventProfiles(event));
    var adding, removing := WithEnums(p, Add), WithEnums(p, Remove);
    ReadyFor(p, event);
    PlainEitherWay(c);
    hide Ready, Known, Usable, EventProfiles, ResolveClass, ProfilesPlain, SettledItem, ProcessEvent, Synthesised, Lost, SameItem;
    ClassKnown(c);
    SiblingRun(p, Add, event);
    SiblingRun(p, Remove, event);
    assert ContextOf(adding, c.cls, c.profiles) == Adding(c) && ContextOf(removing, c.cls, c.profiles) == SafelyRemoving(c);
    SiblingRun(p, Remove, ProcessEvent(adding, event).item);
    SiblingRun(p, Add, ProcessEvent(removing, event).item);
    RemoveAfterAdd(c, event, c.cls.item, {});
    AddAfterRemove(c, event, c.cls.item, {});
  }

  lemma PlainEitherWay(c: Ctx)
    ensures ProfilesPlain(Adding(c)) == ProfilesPlain(SafelyRemoving(c)) == ProfilesPlain(c)
  {
  }
}
