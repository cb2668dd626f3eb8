/** Running again over an event that was already processed. */
module SecondRun {
  import opened Text
  import opened Values
  import opened Schema
  import opened Observability
  import opened Walk
  import opened Settling
  import opened Generation
  import opened Analysis
  import opened Collection
  import opened Run
  import opened GeneratedEntries
  import opened SafeRemoval
  import opened SelfReference
  import opened RoundTrip
  import EP = EventPath

  // ----- Adding again -----

  /** Entries whose like the event holds already are not appended. */
  lemma AddingKnown(decimal: Decimal, item: Item, again: seq<Value>)
    requires !WrongType(item) ==> Slot(item, OBSERVABLES) == if Prior(item) == [] then None else Some(Arr(Prior(item)))
    requires !WrongType(item) ==> forall raw | raw in again ::
      Identify(decimal, raw).Some? && Identify(decimal, raw).value in Identities(decimal, Prior(item))
    ensures Appended(decimal, item, again) == []
    ensures AddObservables(decimal, item, again).item == item
  {
    hide Identify, Keep, Fresh, AddObservables, Prior;
    AddedAfterPrior(decimal, item, again);
    if !WrongType(item) {
      KnownAddsNothing(decimal, Prior(item), again);
      assert Prior(item) + [] == Prior(item);
      AdditionOnlyObservables(decimal, item, again);
      SameSlots(AddObservables(decimal, item, again).item, item);
    }
  }

  /** What was generated once is not appended again, in whatever order and however often it is generated. */
  lemma AddingAgain(decimal: Decimal, item: Item, generated: seq<Value>, again: seq<Value>)
    requires forall raw | raw in generated :: Identify(decimal, raw).Some?
    requires forall raw | raw in again :: raw in generated
    ensures var once := AddObservables(decimal, item, generated).item;
      && Appended(decimal, once, again) == []
      && AddObservables(decimal, once, again).item == once
  {
    hide Identify, Keep, Fresh, AddObservables;
    var once := AddObservables(decimal, item, generated).item;
    AddedAfterPrior(decimal, item, generated);
    forall raw | !WrongType(item) && raw in again
      ensures Identify(decimal, raw).value in Identities(decimal, Prior(once))
    {
      GeneratedPresent(decimal, item, generated, raw);
    }
    AddingKnown(decimal, once, again);
  }

  /** After an addition the event holds the like of everything generated. */
  lemma GeneratedPresent(decimal: Decimal, item: Item, generated: seq<Value>, raw: Value)
    requires !WrongType(item) && raw in generated && Identify(decimal, raw).Some?
    ensures var once := AddObservables(decimal, item, generated).item;
      Identify(decimal, raw).value in Identities(decimal, Prior(once))
  {
    hide Identify, Keep, Fresh, AddObservables;
    var once := AddObservables(decimal, item, generated).item;
    AddedAfterPrior(decimal, item, generated);
    assert Prior(once) == Prior(item) + Appended(decimal, item, generated);
    var j :| 0 <= j < |generated| && generated[j] == raw;
    PassCovers(decimal, Prior(item), generated, j);
  }

  /** Nothing of the event's observables takes part in an enum pair or clears a null. */
  predicate ObservablesPlain(c: Ctx) {
    && OBSERVABLES !in c.cls.item.owners
    && (OBSERVABLES in c.cls.item.attributes ==> c.cls.item.attributes[OBSERVABLES].enum == None)
  }

  /** No pair step would change one of these entries. */
  ghost predicate EntriesStay(c: Ctx, raws: seq<Value>) {
    OBSERVABLES in c.cls.item.attributes && Nested(c.cat, c.cls.item.attributes[OBSERVABLES]).Some? ==>
      var def := c.cat.objects[c.cls.item.attributes[OBSERVABLES].objectType.value].item;
      forall raw, s | raw in raws && raw.Obj? && PairKey(c, def, s) :: StaysAt(c, raw.fields, def, s)
  }

  ghost predicate StaysAt(c: Ctx, fields: Item, def: ItemDef, s: string)
    requires PairKey(c, def, s)
  {
    def.owners[s] in def.attributes ==> PairSlot(c, fields, def, def.owners[s], s) == Slot(fields, s)
  }

  /** A second run that adds observables leaves the event as the first run left it, exactly when nothing in that event is
      left to settle and it does not call for a new observation in its own observables. The one holds when runs change no
      siblings, or would change none in the appended entries; the other when discovery foresees nothing in the observables. */
  lemma SecondRunAddsNothing(p: Pipeline, c: Ctx, event: Item)
    requires Ready(c) && c.observables == Add && (c.enums == NoAction || ObservablesPlain(c))
    ensures var once := Process(p, c, event).item;
      Process(p, c, once).item == once <==> SettledEvent(c, once) == once && !DescribesItself(p, c, once)
    ensures c.enums == NoAction || EntriesStay(c, Appended(c.decimal, SettledEvent(c, event), Generated(p, c, event))) ==>
      var once := Process(p, c, event).item; SettledEvent(c, once) == once
    ensures ObjectsApart(c) && !ObservesItself(c) ==> !DescribesItself(p, c, Process(p, c, event).item)
  {
    hide *;
    var once := Process(p, c, event).item;
    AddingRun(p, c, once);
    if c.enums == NoAction || EntriesStay(c, Appended(c.decimal, SettledEvent(c, event), Generated(p, c, event))) {
      OnceSettled(p, c, event);
    }
    if SettledEvent(c, once) != once {
      UnsettledMoves(p, c, once);
    } else if DescribesItself(p, c, once) {
      DescribesMore(p, c, once);
    } else {
      NothingNew(p, c, event);
    }
    if ObjectsApart(c) && !ObservesItself(c) {
      NeverDescribesItself(p, c, once);
    }
  }

  /** Addition undoes no settling: outside the observables it changes nothing, and it only makes them longer. */
  lemma UnsettledMoves(p: Pipeline, c: Ctx, item: Item)
    requires Ready(c) && (c.enums == NoAction || ObservablesPlain(c))
    requires SettledEvent(c, item) != item
    ensures AddObservables(c.decimal, SettledEvent(c, item), Generated(p, c, item)).item != item
  {
    hide *;
    var settled, generated := SettledEvent(c, item), Generated(p, c, item);
    var added := AddObservables(c.decimal, settled, generated).item;
    AddedAfterPrior(c.decimal, settled, generated);
    AdditionOnlyObservables(c.decimal, settled, generated);
    if added == item && !WrongType(settled) {
      var all := Prior(settled) + Appended(c.decimal, settled, generated);
      ObservablesKeepLength(c, item, all);
      PriorOfSlot(settled);
      assert |Prior(settled)| == |all|;
      assert Prior(settled) + [] == Prior(settled);
      OutsideOnly(settled, item);
    }
  }

  lemma PriorOfSlot(item: Item)
    ensures Slot(item, OBSERVABLES) == None ==> Prior(item) == []
    ensures forall elems :: Slot(item, OBSERVABLES) == Some(Arr(elems)) ==> Prior(item) == elems
  {
  }

  lemma OutsideOnly(a: Item, b: Item)
    requires SameOutsideObservables(a, b) && Slot(a, OBSERVABLES) == Slot(b, OBSERVABLES)
    ensures a == b
  {
    SameSlots(a, b);
  }

  /** Settling makes the observables neither longer nor shorter. */
  lemma ObservablesKeepLength(c: Ctx, item: Item, elems: seq<Value>)
    requires Ready(c) && (c.enums == NoAction || ObservablesPlain(c))
    requires Slot(item, OBSERVABLES) == if elems == [] then None else Some(Arr(elems))
    ensures var slot := Slot(SettledEvent(c, item), OBSERVABLES);
      if elems == [] then slot == None else slot.Some? && slot.value.Arr? && |slot.value.elems| == |elems|
  {
    hide Ready, SettledItem, SettledSlot, SettledValue, Names, ObservablesPlain, DispatchOf;
    ClassKnown(c);
    if c.enums == NoAction {
      UnchangedItem(c, item, c.cls.item, {});
    } else {
      PlainObservables(c);
      SettledAt(c, item, c.cls.item, {}, OBSERVABLES);
      if elems == [] {
        AbsentSlot(c, item, c.cls.item, {}, OBSERVABLES);
      } else {
        ArraySlot(c, item, OBSERVABLES, elems);
        if SingleKey(c, c.cls.item, OBSERVABLES) {
          ArrayKeepsLength(c, elems, c.cls.item.attributes[OBSERVABLES]);
        }
      }
    }
  }

  lemma PlainObservables(c: Ctx)
    requires ObservablesPlain(c)
    ensures OBSERVABLES !in c.cls.item.owners
  {
  }

  lemma ArrayKeepsLength(c: Ctx, elems: seq<Value>, attr: AttrDef)
    requires Ready(c) && OBSERVABLES in Names(c)
    ensures var v := SettledValue(c, Arr(elems), OBSERVABLES, attr, {}); v.Arr? && |v.elems| == |elems|
  {
    hide Ready, Names, SettledObject;
    ArrayNotEntered(c, Arr(elems), attr);
  }

  /** An observation of the event's own observables that is new there makes them longer. */
  lemma DescribesMore(p: Pipeline, c: Ctx, item: Item)
    requires Ready(c) && c.observables == Add && SettledEvent(c, item) == item && DescribesItself(p, c, item)
    ensures AddObservables(c.decimal, item, Generated(p, c, item)).item != item
  {
    hide Ready, Walked, Generated, AddObservables, Calls, Identify, EntryFor, Appended, Prior, SettledEvent;
    var e :| NewSelfObservation(p, c, item, e);
    WalkedIsSettled(c, item);
    WalkedCalls(c, item, e);
    GeneratedOf(p, c, item, e);
    var kept := NewReached(c.decimal, item, Generated(p, c, item), EntryFor(p, e));
    AddedAfterPrior(c.decimal, item, Generated(p, c, item));
    PriorOfArray(item, Prior(item) + Appended(c.decimal, item, Generated(p, c, item)));
  }

  lemma PriorOfArray(item: Item, elems: seq<Value>)
    ensures Slot(item, OBSERVABLES) == Some(Arr(elems)) ==> Prior(item) == elems
  {
  }

  /** All that a second run generates is present: the rest of the event calls for what it called for before, and the
      observables call for nothing new. */
  lemma NothingNew(p: Pipeline, c: Ctx, event: Item)
    requires Ready(c) && c.observables == Add
    requires var once := Process(p, c, event).item; SettledEvent(c, once) == once && !DescribesItself(p, c, once)
    ensures var once := Process(p, c, event).item;
      AddObservables(c.decimal, once, Generated(p, c, once)).item == once
  {
    hide *;
    var once, settled := Process(p, c, event).item, SettledEvent(c, event);
    AddingRun(p, c, event);
    AddedNormal(c.decimal, settled, Generated(p, c, event));
    GeneratedIdentified(p, c, once);
    forall raw | !WrongType(once) && raw in Generated(p, c, once)
      ensures Identify(c.decimal, raw).value in Identities(c.decimal, Prior(once))
    {
      var e := GeneratedFrom(p, c, once, raw);
      WalkedIsSettled(c, once);
      WalkedCalls(c, once, e);
      CallsPresent(p, c, event, e);
    }
    AddingKnown(c.decimal, once, Generated(p, c, once));
  }

  lemma AddedNormal(decimal: Decimal, item: Item, generated: seq<Value>)
    ensures var once := AddObservables(decimal, item, generated).item;
      && WrongType(once) == WrongType(item)
      && (!WrongType(once) ==> Slot(once, OBSERVABLES) == if Prior(once) == [] then None else Some(Arr(Prior(once))))
  {
    hide Keep, Fresh, AddObservables;
    AddedAfterPrior(decimal, item, generated);
  }

  lemma CallsPresent(p: Pipeline, c: Ctx, event: Item, e: Effect)
    requires Ready(c) && c.observables == Add && e.Observe?
    requires var once := Process(p, c, event).item;
      !WrongType(once) && !DescribesItself(p, c, once) && Calls(c, c.cls.item, once, [], e)
    ensures Identify(c.decimal, EntryFor(p, e)).Some?
    ensures Identify(c.decimal, EntryFor(p, e)).value in Identities(c.decimal, Prior(Process(p, c, event).item))
  {
    hide Ready, Walked, Generated, AddObservables, Calls, Identify, EntryFor, Appended, Prior, SettledEvent, Process, WrongType;
    var once, settled, generated := Process(p, c, event).item, SettledEvent(c, event), Generated(p, c, event);
    AddingRun(p, c, event);
    AddedNormal(c.decimal, settled, generated);
    ObservationIdentified(p, c.decimal, e);
    CalledBelow(c, c.cls.item, once, [], e);
    if e.path[0] == EP.Attribute(OBSERVABLES) {
      assert !NewSelfObservation(p, c, once, e);
    } else {
      AdditionOnlyObservables(c.decimal, settled, generated);
      CallsOutside(c, once, settled, e);
      WalkedIsSettled(c, event);
      WalkedCalls(c, event, e);
      GeneratedOf(p, c, event, e);
      GeneratedPresent(c.decimal, settled, generated, EntryFor(p, e));
    }
  }

  lemma AddingRun(p: Pipeline, c: Ctx, event: Item)
    requires Ready(c) && c.observables == Add
    ensures Process(p, c, event).item == AddObservables(c.decimal, SettledEvent(c, event), Generated(p, c, event)).item
  {
    hide Ready, Walked, Generated, AddObservables, ValidateObservables, Judged, SettledEvent;
    WalkedIsSettled(c, event);
  }

  /** Settling finds nothing to do in the event a first run leaves. */
  lemma OnceSettled(p: Pipeline, c: Ctx, event: Item)
    requires Ready(c) && c.observables == Add
    requires c.enums == NoAction
      || (ObservablesPlain(c) && EntriesStay(c, Appended(c.decimal, SettledEvent(c, event), Generated(p, c, event))))
    ensures var once := Process(p, c, event).item; SettledEvent(c, once) == once
  {
    hide Ready, SettledItem, Generated, AddObservables, Process, ObservablesPlain, EntriesStay;
    var once, settled := Process(p, c, event).item, SettledEvent(c, event);
    ClassKnown(c);
    if c.enums == NoAction {
      UnchangedItem(c, once, c.cls.item, {});
    } else {
      AddingRun(p, c, event);
      var appended := Appended(c.decimal, settled, Generated(p, c, event));
      AddedAfterPrior(c.decimal, settled, Generated(p, c, event));
      AdditionOnlyObservables(c.decimal, settled, Generated(p, c, event));
      AppendedGenerated(c.decimal, settled, Generated(p, c, event));
      GeneratedPlain(p, c, event);
      SettledTwice(c, event, c.cls.item, {});
      var again := SettledEvent(c, once);
      forall key ensures Slot(again, key) == Slot(once, key) {
        SettledAt(c, once, c.cls.item, {}, key);
        OnceSlot(c, settled, once, appended, key);
      }
      SameSlots(again, once);
    }
  }

  /** An entry as a run writes it: an object of scalars. */
  predicate PlainEntry(raw: Value) {
    raw.Obj? && forall k | k in raw.fields :: raw.fields[k].Str? || raw.fields[k].Int?
  }

  lemma GeneratedPlain(p: Pipeline, c: Ctx, event: Item)
    requires Ready(c)
    ensures forall raw | raw in Generated(p, c, event) :: PlainEntry(raw)
  {
    hide Ready, Walked, EP.Render;
    forall raw | raw in Generated(p, c, event) ensures PlainEntry(raw) {
      var e := GeneratedFrom(p, c, event, raw);
    }
  }

  /** Key by key: outside the observables the settled event stays; in them the prior entries have settled, and the
      appended ones stay. */
  lemma OnceSlot(c: Ctx, settled: Item, once: Item, appended: seq<Value>, key: string)
    requires Ready(c) && Known(c, c.cls.item) && SettledItem(c, settled, c.cls.item, {}) == settled
    requires SameOutsideObservables(settled, once) && (WrongType(settled) ==> once == settled)
    requires !WrongType(settled) ==>
      Slot(once, OBSERVABLES) == if Prior(settled) + appended == [] then None else Some(Arr(Prior(settled) + appended))
    requires ObservablesPlain(c) && EntriesStay(c, appended) && forall raw | raw in appended :: PlainEntry(raw)
    ensures SettledSlot(c, once, c.cls.item, {}, key) == Slot(once, key)
  {
    hide Ready, Known, SettledItem, SettledSlot, SettledValue, EntriesStay, PlainEntry, WrongType, SameOutsideObservables, Prior;
    SettledAt(c, settled, c.cls.item, {}, key);
    if WrongType(settled) {
    } else if key != OBSERVABLES {
      OutsideSlot(c, settled, once, c.cls.item, {}, key);
    } else if Prior(settled) + appended == [] {
      AbsentSlot(c, once, c.cls.item, {}, OBSERVABLES);
    } else {
      ArraySlot(c, once, OBSERVABLES, Prior(settled) + appended);
      if SingleKey(c, c.cls.item, OBSERVABLES) {
        KnownName(c, c.cls.item, OBSERVABLES);
        PriorStays(c, settled);
        ArrayStays(c, Prior(settled), appended);
      }
    }
  }

  lemma OutsideSlot(c: Ctx, a: Item, b: Item, def: ItemDef, used: set<string>, key: string)
    requires Ready(c) && Known(c, def) && def == c.cls.item && ObservablesPlain(c)
    requires SameOutsideObservables(a, b) && key != OBSERVABLES
    ensures SettledSlot(c, b, def, used, key) == SettledSlot(c, a, def, used, key)
    ensures Slot(a, key) == Slot(b, key)
  {
    hide Ready, Known, SettledValue, Clears, Active, DispatchOf, EnumStep, ObservablesPlain, SameOutsideObservables, SingleKey;
    OutsideSame(a, b, key);
    forall n ensures Clears(c, a, def, n, key) == Clears(c, b, def, n, key) {
      OutsideClears(c, a, b, def, n, key);
    }
    if PairKey(c, def, key) {
      var e := def.owners[key];
      OwnerHasEnum(c, def, key);
      EnumIsOutside(c, e);
      OutsideSame(a, b, e);
      PairDepends(c, a, b, e, def.attributes[e], key);
    }
  }

  lemma OutsideSame(a: Item, b: Item, key: string)
    requires SameOutsideObservables(a, b) && key != OBSERVABLES
    ensures Slot(a, key) == Slot(b, key)
  {
  }

  lemma EnumIsOutside(c: Ctx, e: string)
    requires ObservablesPlain(c) && e in c.cls.item.attributes && c.cls.item.attributes[e].enum.Some?
    ensures e != OBSERVABLES
  {
  }

  lemma OutsideClears(c: Ctx, a: Item, b: Item, def: ItemDef, n: string, key: string)
    requires def == c.cls.item && ObservablesPlain(c) && SameOutsideObservables(a, b)
    ensures Clears(c, a, def, n, key) == Clears(c, b, def, n, key)
  {
    hide DispatchOf, SameOutsideObservables;
    if n != OBSERVABLES {
      OutsideSame(a, b, n);
    }
  }

  lemma OwnerHasEnum(c: Ctx, def: ItemDef, key: string)
    requires Known(c, def) && key in def.owners
    ensures def.owners[key] in def.attributes && def.attributes[def.owners[key]].enum.Some?
  {
    hide PrimitiveOf, NeedsIndex;
    LinkEnds(def.attributes, def.owners[key]);
  }

  lemma AbsentSlot(c: Ctx, item: Item, def: ItemDef, used: set<string>, key: string)
    requires Ready(c) && Known(c, def) && Slot(item, key) == None && key !in def.owners
    ensures SettledSlot(c, item, def, used, key) == None
  {
    hide Ready, Known, SettledValue, Clears, DispatchOf;
  }

  lemma ArraySlot(c: Ctx, item: Item, key: string, elems: seq<Value>)
    requires Ready(c) && Known(c, c.cls.item) && Slot(item, key) == Some(Arr(elems)) && key !in c.cls.item.owners
    ensures if SingleKey(c, c.cls.item, key)
            then key in Names(c) && SettledSlot(c, item, c.cls.item, {}, key)
                   == Some(SettledValue(c, Arr(elems), key, c.cls.item.attributes[key], {}))
            else SettledSlot(c, item, c.cls.item, {}, key) == Some(Arr(elems))
  {
    if SingleKey(c, c.cls.item, key) {
      KnownName(c, c.cls.item, key);
    }
    hide Ready, Known, SettledValue, Clears, DispatchOf, Names;
  }

  lemma PriorStays(c: Ctx, settled: Item)
    requires Ready(c) && Known(c, c.cls.item) && SettledItem(c, settled, c.cls.item, {}) == settled
    requires ObservablesPlain(c) && SingleKey(c, c.cls.item, OBSERVABLES) && OBSERVABLES in Names(c)
    ensures SettledValue(c, Arr(Prior(settled)), OBSERVABLES, c.cls.item.attributes[OBSERVABLES], {}) == Arr(Prior(settled))
  {
    hide Ready, Known, SettledItem, SettledSlot, DispatchOf, Names, SettledObject;
    if Prior(settled) != [] {
      SettledAt(c, settled, c.cls.item, {}, OBSERVABLES);
      ArraySlot(c, settled, OBSERVABLES, Prior(settled));
    } else {
      var attr := c.cls.item.attributes[OBSERVABLES];
      ArrayNotEntered(c, Arr([]), attr);
      assert SettledValue(c, Arr([]), OBSERVABLES, attr, {}).elems == [];
    }
  }

  lemma ArrayStays(c: Ctx, prior: seq<Value>, appended: seq<Value>)
    requires Ready(c) && OBSERVABLES in c.cls.item.attributes && OBSERVABLES in Names(c)
    requires var attr := c.cls.item.attributes[OBSERVABLES]; SettledValue(c, Arr(prior), OBSERVABLES, attr, {}) == Arr(prior)
    requires EntriesStay(c, appended) && forall raw | raw in appended :: PlainEntry(raw)
    ensures var attr := c.cls.item.attributes[OBSERVABLES];
      SettledValue(c, Arr(prior + appended), OBSERVABLES, attr, {}) == Arr(prior + appended)
  {
    hide Ready, Names, SettledObject, EntriesStay, PlainEntry;
    var attr, all := c.cls.item.attributes[OBSERVABLES], prior + appended;
    if attr.isArray && !ScalarArray(attr) {
      forall i | 0 <= i < |all| ensures SettledObject(c, all[i], OBSERVABLES, attr, {}) == all[i] {
        if i < |prior| {
          assert SettledValue(c, Arr(prior), OBSERVABLES, attr, {}).elems[i] == prior[i];
        } else {
          assert all[i] == appended[i - |prior|] && all[i] in appended;
          EntryStays(c, appended, all[i]);
        }
      }
      assert SettledValue(c, Arr(all), OBSERVABLES, attr, {}).elems == all;
    } else {
      ArrayNotEntered(c, Arr(all), attr);
    }
  }

  lemma ArrayNotEntered(c: Ctx, v: Value, attr: AttrDef)
    requires Ready(c) && OBSERVABLES in Names(c) && v.Arr?
    ensures SettledObject(c, v, OBSERVABLES, attr, {}) == v
  {
    hide Ready, Names;
  }

  lemma EntryStays(c: Ctx, raws: seq<Value>, raw: Value)
    requires Ready(c) && OBSERVABLES in c.cls.item.attributes && OBSERVABLES in Names(c)
    requires raw in raws && PlainEntry(raw) && EntriesStay(c, raws)
    ensures SettledObject(c, raw, OBSERVABLES, c.cls.item.attributes[OBSERVABLES], {}) == raw
  {
    hide Ready, Names, SettledItem, SettledSlot, StaysAt;
    var attr := c.cls.item.attributes[OBSERVABLES];
    if Enters(c, raw, OBSERVABLES, attr, {}) {
      ObjectKnown(c, attr.objectType.value);
      var def, used := c.cat.objects[attr.objectType.value].item, {} + {OBSERVABLES};
      var settled := SettledItem(c, raw.fields, def, used);
      forall key ensures Slot(settled, key) == Slot(raw.fields, key) {
        SettledAt(c, raw.fields, def, used, key);
        EntrySlotStays(c, raw.fields, def, used, key);
      }
      SameSlots(settled, raw.fields);
    }
  }

  lemma EntrySlotStays(c: Ctx, fields: Item, def: ItemDef, used: set<string>, key: string)
    requires Ready(c) && Known(c, def) && PlainEntry(Obj(fields))
    requires PairKey(c, def, key) ==> StaysAt(c, fields, def, key)
    ensures SettledSlot(c, fields, def, used, key) == Slot(fields, key)
  {
    hide Ready, Known, SettledValue, Clears, DispatchOf, ActiveName, PairSlot, PlainEntry, Names;
    Ends(c, def, key);
    PlainSlot(fields, key);
    if SingleKey(c, def, key) && key in fields {
      KnownName(c, def, key);
      SettledScalar(c, fields[key], key, def.attributes[key], used);
    }
  }

  lemma PlainSlot(fields: Item, key: string)
    requires PlainEntry(Obj(fields))
    ensures key in fields ==> fields[key].Str? || fields[key].Int?
  {
  }

  /** Outside the observables the schema calls for the same in events that agree there. */
  lemma CallsOutside(c: Ctx, a: Item, b: Item, e: Effect)
    requires SameOutsideObservables(b, a)
    requires e.Observe? && e.path != [] && e.path[0].Attribute? && e.path[0].name != OBSERVABLES
    requires Calls(c, c.cls.item, a, [], e)
    ensures Calls(c, c.cls.item, b, [], e)
  {
    hide CallsFor, Visited;
    var key := e.path[0].name;
    assert Slot(a, key) == Slot(b, key);
  }

  // ----- Walking again -----

  /** A second walk changes nothing, whatever the enum action. */
  lemma SecondWalkChangesNothing(c: Ctx, item: Item, def: ItemDef, path: Elems)
    requires Ready(c) && Known(c, def)
    ensures var once := VisitItem(c, item, def, path).item; VisitItem(c, once, def, path).item == once
  {
    hide VisitItem, SettledItem, Ready, Known;
    VisitSettles(c, item, def, path);
    VisitSettles(c, VisitItem(c, item, def, path).item, def, path);
    SettledTwice(c, item, def, Used(path));
  }

  lemma {:induction false} SettledTwice(c: Ctx, item: Item, def: ItemDef, used: set<string>)
    requires Ready(c) && Known(c, def)
    ensures SettledItem(c, SettledItem(c, item, def, used), def, used) == SettledItem(c, item, def, used)
    decreases Names(c) - used, 3
  {
    hide Ready, Known, SettledItem, SettledSlot;
    var once := SettledItem(c, item, def, used);
    var twice := SettledItem(c, once, def, used);
    forall key ensures Slot(twice, key) == Slot(once, key) {
      SettledAt(c, item, def, used, key);
      SettledAt(c, once, def, used, key);
      SlotTwice(c, item, def, used, key);
    }
    SameSlots(twice, once);
  }

  lemma {:induction false} SlotTwice(c: Ctx, item: Item, def: ItemDef, used: set<string>, key: string)
    requires Ready(c) && Known(c, def)
    ensures SettledSlot(c, SettledItem(c, item, def, used), def, used, key) == SettledSlot(c, item, def, used, key)
    decreases Names(c) - used, 2
  {
    hide Ready, Known, SettledItem, SettledValue, SettledSlot, Active, DispatchOf, Cleared;
    var once := SettledItem(c, item, def, used);
    SettledAt(c, item, def, used, key);
    Ends(c, def, key);
    if PairKey(c, def, key) {
      PairKeyTwice(c, item, def, used, key);
    } else if SingleKey(c, def, key) && Attribute(item, key).Some? {
      KnownName(c, def, key);
      SettledSingle(c, item, def, used, key);
      ValueTwice(c, item[key], key, def.attributes[key], used);
      SingleSlot(c, item, def, used, key);
      SingleSlot(c, once, def, used, key);
    } else {
      OtherKeyTwice(c, item, def, used, key);
    }
  }

  lemma PairKeyTwice(c: Ctx, item: Item, def: ItemDef, used: set<string>, key: string)
    requires Ready(c) && Known(c, def) && PairKey(c, def, key)
    ensures SettledSlot(c, SettledItem(c, item, def, used), def, used, key) == SettledSlot(c, item, def, used, key)
  {
    var once := SettledItem(c, item, def, used);
    assert Slot(once, key) == SettledSlot(c, item, def, used, key);
    hide Ready, Known, SettledItem, SettledValue, EnumStep, Active, DispatchOf;
    Ends(c, def, key);
    var e := def.owners[key];
    SettledOwner(c, item, def, used, e);
    PairTwice(c, item, once, e, def.attributes[e], key);
  }

  /** A pair step on what it left finds nothing to do. */
  lemma PairTwice(c: Ctx, item: Item, once: Item, e: string, attr: AttrDef, s: string)
    requires Attribute(once, e) == Attribute(item, e)
    requires Slot(once, s) == Slot(EnumStep(c, item, e, attr, s).item, s)
    ensures Slot(EnumStep(c, once, e, attr, s).item, s) == Slot(once, s)
  {
    hide LookupEnum, RemoveArray;
    if Slot(once, s) == Slot(item, s) {
      PairDepends(c, once, item, e, attr, s);
    } else if Settling.Removing(c) {
      PairKeepsOrRemoves(c, item, e, attr, s);
    }
  }

  lemma OtherKeyTwice(c: Ctx, item: Item, def: ItemDef, used: set<string>, key: string)
    requires Ready(c) && Known(c, def) && !PairKey(c, def, key)
    requires SingleKey(c, def, key) ==> Attribute(item, key) == None
    ensures SettledSlot(c, SettledItem(c, item, def, used), def, used, key) == SettledSlot(c, item, def, used, key)
  {
    hide Ready, Known, SettledItem, SettledValue, Clears, Active, DispatchOf, PairKey, SingleKey;
    var once := SettledItem(c, item, def, used);
    SettledAt(c, item, def, used, key);
    forall n ensures Clears(c, once, def, n, key) == Clears(c, item, def, n, key) {
      ClearsTwice(c, item, def, used, n, key);
    }
    if SingleKey(c, def, key) {
      SettledSingle(c, item, def, used, key);
    }
  }

  lemma ClearsTwice(c: Ctx, item: Item, def: ItemDef, used: set<string>, n: string, key: string)
    requires Ready(c) && Known(c, def)
    ensures Clears(c, SettledItem(c, item, def, used), def, n, key) == Clears(c, item, def, n, key)
  {
    hide Ready, Known, SettledItem, SettledValue, Active, DispatchOf;
    if SingleKey(c, def, n) {
      SettledSingle(c, item, def, used, n);
    }
  }

  lemma {:induction false} ValueTwice(c: Ctx, v: Value, name: string, attr: AttrDef, used: set<string>)
    requires Ready(c) && name in Names(c)
    ensures SettledValue(c, SettledValue(c, v, name, attr, used), name, attr, used) == SettledValue(c, v, name, attr, used)
    decreases Names(c) - used, 1
  {
    if !attr.isArray {
      ObjectTwice(c, v, name, attr, used);
    } else if v.Arr? && !ScalarArray(attr) {
      var once := SettledValue(c, v, name, attr, used);
      forall i | 0 <= i < |v.elems| ensures SettledValue(c, once, name, attr, used).elems[i] == once.elems[i] {
        ObjectTwice(c, v.elems[i], name, attr, used);
      }
      assert SettledValue(c, once, name, attr, used).elems == once.elems;
    }
  }

  lemma {:induction false} ObjectTwice(c: Ctx, v: Value, name: string, attr: AttrDef, used: set<string>)
    requires Ready(c) && name in Names(c)
    ensures SettledObject(c, SettledObject(c, v, name, attr, used), name, attr, used) == SettledObject(c, v, name, attr, used)
    decreases Names(c) - used, 0
  {
    if Enters(c, v, name, attr, used) {
      ObjectKnown(c, attr.objectType.value);
      SettledTwice(c, v.fields, c.cat.objects[attr.objectType.value].item, used + {name});
    }
  }
}
