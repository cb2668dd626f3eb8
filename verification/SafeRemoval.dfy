/** Safe removal of observables loses nothing: what a run takes out, the event it ends with still says. */
module SafeRemoval {
  import opened Text
  import opened Values
  import opened Schema
  import opened Walk
  import opened Settling
  import opened Analysis
  import opened Collection
  import opened Run

  // ----- Without an enum action the walk leaves the event alone -----

  lemma {:induction false} UnchangedItem(c: Ctx, item: Item, def: ItemDef, used: set<string>)
    requires Ready(c) && Known(c, def) && c.enums == NoAction
    ensures SettledItem(c, item, def, used) == item
    decreases Names(c) - used, 3
  {
    var settled := SettledItem(c, item, def, used);
    forall key ensures Slot(settled, key) == Slot(item, key) {
      SettledAt(c, item, def, used, key);
      UnchangedSlot(c, item, def, used, key);
    }
    SameSlots(settled, item);
  }

  lemma {:induction false} UnchangedSlot(c: Ctx, item: Item, def: ItemDef, used: set<string>, key: string)
    requires Ready(c) && Known(c, def) && c.enums == NoAction
    ensures SettledSlot(c, item, def, used, key) == Slot(item, key)
    decreases Names(c) - used, 2
  {
    hide Ready, Known, Active, DispatchOf, Clears, SettledValue;
    if SingleKey(c, def, key) && Attribute(item, key).Some? {
      KnownName(c, def, key);
      UnchangedValue(c, item[key], key, def.attributes[key], used);
    }
  }

  lemma {:induction false} UnchangedValue(c: Ctx, v: Value, name: string, attr: AttrDef, used: set<string>)
    requires Ready(c) && name in Names(c) && c.enums == NoAction
    ensures SettledValue(c, v, name, attr, used) == v
    decreases Names(c) - used, 1
  {
    if !attr.isArray {
      UnchangedObject(c, v, name, attr, used);
    } else if v.Arr? && !ScalarArray(attr) {
      forall i | 0 <= i < |v.elems| ensures SettledObject(c, v.elems[i], name, attr, used) == v.elems[i] {
        UnchangedObject(c, v.elems[i], name, attr, used);
      }
      assert SettledValue(c, v, name, attr, used).elems == v.elems;
    }
  }

  lemma {:induction false} UnchangedObject(c: Ctx, v: Value, name: string, attr: AttrDef, used: set<string>)
    requires Ready(c) && name in Names(c) && c.enums == NoAction
    ensures SettledObject(c, v, name, attr, used) == v
    decreases Names(c) - used, 0
  {
    if Enters(c, v, name, attr, used) {
      ObjectKnown(c, attr.objectType.value);
      UnchangedItem(c, v.fields, c.cat.objects[attr.objectType.value].item, used + {name});
    }
  }

  // ----- Removal -----

  /** The event whose observables a run with safe removal analyses: the original one, or the walked one when the walk
      changes enum siblings. */
  ghost function Analysed(c: Ctx, event: Item): Item
    requires Ready(c)
  {
    if Deferred(c) then Walked(c, event).item else event
  }

  lemma FinalAfterRemoval(p: Pipeline, c: Ctx, event: Item)
    requires Ready(c) && (c.observables == Remove || c.observables == ForceRemove)
    ensures Process(p, c, event).item == RemoveObservables(c, Analysed(c, event)).item
  {
    hide Ready, RemoveObservables, VisitItem, Judged, ValidateObservables;
    ClassKnown(c);
    if !Deferred(c) {
      var begun := Begun(c, event).item;
      VisitSettles(c, begun, c.cls.item, []);
      UnchangedItem(c, begun, c.cls.item, Used([]));
    }
  }

  /** Over a whole run, for every enum action: the final event is the analysed one but for its observables; every
      entry keeps its verdict, so each one taken out is still redundant; and what remains is the exact subsequence of
      the others. */
  lemma LosslessRemoval(p: Pipeline, c: Ctx, event: Item)
    requires Ready(c) && c.observables == Remove
    ensures var before, after := Analysed(c, event), Process(p, c, event).item;
      && SameOutsideObservables(before, after)
      && (forall raw :: AnalyzeEntry(after, raw, ScopeOf(c)) == AnalyzeEntry(before, raw, ScopeOf(c)))
      && (Slot(before, OBSERVABLES).Some? && before[OBSERVABLES].Arr? ==>
            var elems := before[OBSERVABLES].elems;
            var flags := Flags(EntriesOf(before, before[OBSERVABLES], ScopeOf(c)));
            && (forall i | 0 <= i < |elems| :: flags[i] <==> Redundant(after, elems[i], ScopeOf(c)))
            && Slot(after, OBSERVABLES) ==
                 (if Keep(elems, Not(flags)) == [] then None else Some(Arr(Keep(elems, Not(flags)))))
            && |Keep(elems, flags)| + |Keep(elems, Not(flags))| == |elems|)
  {
    hide Ready, Process, Analysed, AnalyzeEntry, Keep, AllIssues, Redundant;
    FinalAfterRemoval(p, c, event);
    var before, after := Analysed(c, event), Process(p, c, event).item;
    RemovalOnlyObservables(c, before);
    forall raw ensures AnalyzeEntry(after, raw, ScopeOf(c)) == AnalyzeEntry(before, raw, ScopeOf(c)) {
      VerdictIgnoresObservables(after, before, raw, ScopeOf(c));
    }
    if Slot(before, OBSERVABLES).Some? && before[OBSERVABLES].Arr? {
      var elems := before[OBSERVABLES].elems;
      var entries := EntriesOf(before, before[OBSERVABLES], ScopeOf(c));
      forall i | 0 <= i < |elems| ensures Flags(entries)[i] <==> Redundant(after, elems[i], ScopeOf(c)) {
        RemovableIsRedundant(after, elems[i], ScopeOf(c));
      }
      KeepPartition(elems, Flags(entries));
    }
  }

  /** A second removal finds nothing to take out. */
  lemma SecondRemovalKeepsAll(c: Ctx, item: Item)
    requires c.observables == Remove
    ensures var once := RemoveObservables(c, item).item; RemoveObservables(c, once).item == once
  {
    hide AnalyzeEntry, Keep, AllIssues;
    var once := RemoveObservables(c, item).item;
    if Slot(item, OBSERVABLES).Some? && item[OBSERVABLES].Arr? && OBSERVABLES in once {
      var elems := item[OBSERVABLES].elems;
      var flags := Flags(EntriesOf(item, Arr(elems), ScopeOf(c)));
      var kept := Keep(elems, Not(flags));
      RemovalOnlyObservables(c, item);
      forall j | 0 <= j < |kept| ensures !AnalyzeEntry(once, kept[j], ScopeOf(c)).removable {
        KeepMember(elems, Not(flags), kept[j]);
        var i :| 0 <= i < |elems| && Not(flags)[i] && elems[i] == kept[j];
        VerdictIgnoresObservables(once, item, kept[j], ScopeOf(c));
      }
      KeepAll(kept, Not(Flags(EntriesOf(once, Arr(kept), ScopeOf(c)))));
      assert once[OBSERVABLES := Arr(kept)] == once;
    }
  }
}
