/** The entries a run generates: each is sound in the event the run ends with, and whether one leads back into the
    event's own observables can be told from the event before the run. */
module GeneratedEntries {
  import opened Text
  import opened Values
  import opened Schema
  import opened Walk
  import opened Settling
  import opened Generation
  import opened ObservablePath
  import opened Definedness
  import opened Analysis
  import opened Collection
  import opened Run
  import opened Trust
  import EP = EventPath

  /** The entry's name starts at the event's own observables. */
  predicate LeadsBack(raw: Value) {
    && raw.Obj? && Slot(raw.fields, "name").Some? && raw.fields["name"].Str?
    && var parsed := ReadName(raw.fields["name"].text);
      parsed.Ok? && parsed.value.segments != [] && parsed.value.segments[0].attribute == OBSERVABLES
  }

  /** What generation by construction guarantees of an entry, against the event it was appended to. */
  ghost predicate Trusted(c: Ctx, event: Item, raw: Value) {
    && raw.Obj? && Attribute(raw.fields, "name").Some? && raw.fields["name"].Str?
    && var parsed := ReadName(raw.fields["name"].text);
      && parsed.Ok? && UsesNotation(parsed.value, c.style, c.cat.objects, c.cls.item)
      && AnalyzeEntry(event, raw, ScopeOf(c)) ==
           if LeadsBack(raw) then Rejected(raw, NameInvalidReference) else Entry(raw, Some(parsed.value), true, NoProblem)
  }

  ghost predicate AllTrusted(c: Ctx, event: Item, raws: seq<Value>) {
    forall raw | raw in raws :: Trusted(c, event, raw)
  }

  predicate NoneLeadsBack(raws: seq<Value>) {
    forall raw | raw in raws :: !LeadsBack(raw)
  }

  lemma NoneOfNone()
    ensures NoneLeadsBack([])
  {
  }

  /** Every entry generated by a run is trusted in the event the run ends with. */
  lemma GeneratedTrusted(p: Pipeline, c: Ctx, event: Item, final: Item)
    requires Ready(c) && Expressible(c) && Sized(Obj(Begun(c, event).item)) && c.style == p.style
    requires RequiresWalk(c) && SameOutsideObservables(Walked(c, event).item, final)
    ensures forall raw | raw in Generated(p, c, event) :: Trusted(c, final, raw)
  {
    hide Sound, Trusted, Sized, EntryFor, SameOutsideObservables, VisitItem, Observations, Ready, Expressible;
    var begun := Begun(c, event).item;
    var walked := Walked(c, event);
    ClassKnown(c);
    WalkSound(c, begun, c.cls.item, []);
    VisitSettles(c, begun, c.cls.item, []);
    SettledSized(c, begun, c.cls.item, Used([]));
    var observed := Observations(walked.trace);
    forall raw | raw in Generated(p, c, event) ensures Trusted(c, final, raw) {
      var i :| 0 <= i < |observed| && raw == EntryFor(p, observed[i]);
      assert observed[i] in observed;
      EntryTrusted(p, c, walked.item, final, observed[i]);
    }
  }

  lemma EntryTrusted(p: Pipeline, c: Ctx, walked: Item, event: Item, e: Effect)
    requires Ready(c) && Expressible(c) && Sized(Obj(walked)) && c.style == p.style
    requires e.Observe? && Sound(c, c.cls.item, walked, [], e) && SameOutsideObservables(walked, event)
    ensures Trusted(c, event, EntryFor(p, e))
    ensures e.path != [] && e.path[0].Attribute? && (LeadsBack(EntryFor(p, e)) <==> e.path[0].name == OBSERVABLES)
  {
    hide *;
    TrustedEntry(p, c, walked, event, e);
    SoundParts(c, walked, e);
    FirstSegment(c, c.cls.item, e.path, {}, p.style);
    EntryName(p, e);
    TrustMeans(p, c, event, e);
  }

  lemma TrustMeans(p: Pipeline, c: Ctx, event: Item, e: Effect)
    requires e.Observe? && c.style == p.style && e.path != [] && e.path[0].Attribute?
    requires var entry := EntryFor(p, e);
      entry.Obj? && Attribute(entry.fields, "name") == Some(Str(EP.Render(e.path, p.style)))
    requires var name := Name(Segments(e.path, p.style), p.style == EP.JSONPath);
      && ReadName(EP.Render(e.path, p.style)) == Ok(name)
      && UsesNotation(name, p.style, c.cat.objects, c.cls.item)
      && name.segments != [] && name.segments[0].attribute == e.path[0].name
      && AnalyzeEntry(event, EntryFor(p, e), ScopeOf(c)) ==
           if e.path[0].name == OBSERVABLES then Rejected(EntryFor(p, e), NameInvalidReference)
           else Entry(EntryFor(p, e), Some(name), true, NoProblem)
    ensures Trusted(c, event, EntryFor(p, e))
    ensures LeadsBack(EntryFor(p, e)) <==> e.path[0].name == OBSERVABLES
  {
    hide ReadName, EP.Render, UsesNotation, AnalyzeEntry, EntryFor, Segments;
  }

  // ----- Entries and observations -----

  lemma SameAsItself(item: Item)
    ensures SameOutsideObservables(item, item)
  {
  }

  lemma SoundWalk(c: Ctx, event: Item)
    requires Ready(c) && Sized(Obj(event)) && c.observables == Add
    ensures Sized(Obj(Walked(c, event).item))
    ensures forall e | e in Walked(c, event).trace && e.Observe? :: Sound(c, c.cls.item, Walked(c, event).item, [], e)
  {
    hide Sound, Sized, VisitItem, Ready;
    ClassKnown(c);
    WalkSound(c, event, c.cls.item, []);
    VisitSettles(c, event, c.cls.item, []);
    SettledSized(c, event, c.cls.item, Used([]));
  }

  lemma GeneratedFrom(p: Pipeline, c: Ctx, event: Item, raw: Value) returns (e: Effect)
    requires Ready(c) && raw in Generated(p, c, event)
    ensures e.Observe? && e in Walked(c, event).trace && raw == EntryFor(p, e)
  {
    hide Ready, Walked, EntryFor;
    var observed := Observations(Walked(c, event).trace);
    var i :| 0 <= i < |observed| && raw == EntryFor(p, observed[i]);
    e := observed[i];
    assert e in observed;
  }

  lemma WalkedCalls(c: Ctx, event: Item, e: Effect)
    requires Ready(c) && c.observables == Add && e.Observe?
    ensures e in Walked(c, event).trace <==> Calls(c, c.cls.item, Walked(c, event).item, [], e)
  {
    hide Ready, VisitItem, Calls;
    ClassKnown(c);
    WalkExact(c, event, c.cls.item, [], e);
  }

  lemma GeneratedOf(p: Pipeline, c: Ctx, event: Item, e: Effect)
    requires Ready(c) && e.Observe? && e in Walked(c, event).trace
    ensures EntryFor(p, e) in Generated(p, c, event)
  {
    hide Ready, Walked, EntryFor;
    ObservationsAll(Walked(c, event).trace, e);
    var observed := Observations(Walked(c, event).trace);
    var i :| 0 <= i < |observed| && observed[i] == e;
    assert EntriesFor(p, observed)[i] == EntryFor(p, e);
  }

  lemma {:induction false} ObservationsAll(trace: seq<Effect>, e: Effect)
    requires e in trace && e.Observe?
    ensures e in Observations(trace)
  {
    var n := |trace| - 1;
    if trace[n] != e {
      InitAndLast(trace);
      ObservationsAll(trace[..n], e);
    }
  }

  lemma SameName(decimal: Decimal, a: Value, b: Value)
    requires Identify(decimal, a) == Identify(decimal, b) && Identify(decimal, a).Some?
    ensures LeadsBack(a) <==> LeadsBack(b)
  {
    hide ReadName;
  }

  lemma GeneratedIdentified(p: Pipeline, c: Ctx, event: Item)
    requires Ready(c)
    ensures forall raw | raw in Generated(p, c, event) :: Identify(c.decimal, raw).Some?
  {
    hide Walked, Identify, EntryFor;
    forall e: Effect | e.Observe? ensures Identify(c.decimal, EntryFor(p, e)).Some? {
      ObservationIdentified(p, c.decimal, e);
    }
  }

  lemma ObservationIdentified(p: Pipeline, decimal: Decimal, e: Effect)
    requires e.Observe?
    ensures Identify(decimal, EntryFor(p, e)).Some?
  {
    EntryName(p, e);
    hide EntryFor;
  }

  // ----- Stages of a run that adds -----

  lemma AddingStages(p: Pipeline, c: Ctx, event: Item)
    requires Ready(c) && c.observables == Add
    ensures Begun(c, event).item == event && RequiresWalk(c)
    ensures Finished(p, c, event) == AddObservables(c.decimal, Walked(c, event).item, Generated(p, c, event))
  {
    hide WalkEvent;
  }

  lemma AppendedGenerated(decimal: Decimal, item: Item, generated: seq<Value>)
    ensures forall raw | raw in Appended(decimal, item, generated) :: raw in generated
    ensures WrongType(item) ==> Appended(decimal, item, generated) == []
  {
    hide Fresh, Keep;
    var flags := Fresh(decimal, Prior(item), generated);
    forall raw | raw in Keep(generated, flags) ensures raw in generated {
      KeepMember(generated, flags, raw);
    }
  }

  // ----- Entries that lead back, told from the event -----

  /** The event as the walk leaves it: told from the event without running. */
  ghost function SettledEvent(c: Ctx, event: Item): Item
    requires Ready(c)
  {
    ClassKnown(c);
    SettledItem(c, event, c.cls.item, {})
  }

  lemma WalkedIsSettled(c: Ctx, event: Item)
    requires Ready(c) && c.observables == Add
    ensures Walked(c, event).item == SettledEvent(c, event)
  {
    hide Ready, VisitItem, SettledItem;
    ClassKnown(c);
    VisitSettles(c, event, c.cls.item, []);
    assert Used([]) == {};
  }

  /** The schema calls for an observation in the event's own observables, and no entry there is its like already. */
  ghost predicate NewSelfObservation(p: Pipeline, c: Ctx, item: Item, e: Effect) {
    && e.Observe? && e.path != [] && e.path[0] == EP.Attribute(OBSERVABLES)
    && Calls(c, c.cls.item, item, [], e)
    && Identify(c.decimal, EntryFor(p, e)).Some?
    && Identify(c.decimal, EntryFor(p, e)).value !in Identities(c.decimal, Prior(item))
  }

  ghost predicate DescribesItself(p: Pipeline, c: Ctx, item: Item) {
    !WrongType(item) && exists e :: NewSelfObservation(p, c, item, e)
  }

  /** An observation in the observables stands in an entry that was there. */
  lemma SelfObservationNeedsPrior(p: Pipeline, c: Ctx, item: Item, e: Effect)
    requires !WrongType(item) && e.Observe? && e.path != [] && e.path[0] == EP.Attribute(OBSERVABLES)
    requires Calls(c, c.cls.item, item, [], e)
    ensures Prior(item) != []
  {
    hide Calls, CallsAt;
    SelfObservationCalls(c, item, e);
    ArrayNotCalled(c, OBSERVABLES, c.cls.item.attributes[OBSERVABLES], item[OBSERVABLES], [EP.Attribute(OBSERVABLES)], Used([]), e);
  }

  /** No single value is an array. */
  lemma ArrayNotCalled(c: Ctx, name: string, attr: AttrDef, v: Value, at: Elems, used: set<string>, e: Effect)
    requires e.Observe?
    ensures v.Arr? ==> !CallsAt(c, name, attr, v, at, used, e)
  {
    hide ObservableType, ObjectCalls, Calls;
  }

  lemma SelfObservationCalls(c: Ctx, item: Item, e: Effect)
    requires e.Observe? && e.path != [] && e.path[0] == EP.Attribute(OBSERVABLES)
    requires Calls(c, c.cls.item, item, [], e)
    ensures OBSERVABLES in c.cls.item.attributes && Attribute(item, OBSERVABLES).Some?
    ensures CallsFor(c, OBSERVABLES, c.cls.item.attributes[OBSERVABLES], item[OBSERVABLES], [EP.Attribute(OBSERVABLES)],
                     Used([]), e)
  {
    hide CallsFor, SingleKey, PairKey;
    assert [] + [EP.Attribute(OBSERVABLES)] == [EP.Attribute(OBSERVABLES)];
  }

  /** Some appended entry leads back exactly when the settled event calls for a new one in its own observables; and then
      the event held entries before, so validation trusts the suffix. */
  lemma LeadsBackExactly(p: Pipeline, c: Ctx, event: Item)
    requires Ready(c) && Expressible(c) && Sized(Obj(event)) && c.style == p.style && c.observables == Add
    ensures var settled := SettledEvent(c, event);
      && (!NoneLeadsBack(Appended(c.decimal, settled, Generated(p, c, event))) <==> DescribesItself(p, c, settled))
      && (DescribesItself(p, c, settled) ==> Prior(settled) != [] && !WrongType(settled))
  {
    hide *;
    var settled, generated := SettledEvent(c, event), Generated(p, c, event);
    var appended := Appended(c.decimal, settled, generated);
    WalkedIsSettled(c, event);
    if !NoneLeadsBack(appended) {
      AppendedDescribes(p, c, event);
    }
    if DescribesItself(p, c, settled) {
      DescribedAppended(p, c, event);
    }
  }

  lemma AppendedDescribes(p: Pipeline, c: Ctx, event: Item)
    requires Ready(c) && Expressible(c) && Sized(Obj(event)) && c.style == p.style && c.observables == Add
    requires !NoneLeadsBack(Appended(c.decimal, Walked(c, event).item, Generated(p, c, event)))
    ensures DescribesItself(p, c, Walked(c, event).item)
  {
    hide Ready, Expressible, Sized, LeadsBack, Walked, Generated, Identify, Sound, EntryFor, Calls, WrongType, Keep, Trusted,
      SameOutsideObservables, Appended, Prior;
    var walked, generated := Walked(c, event).item, Generated(p, c, event);
    var raw :| raw in Appended(c.decimal, walked, generated) && LeadsBack(raw);
    AppendedNew(c.decimal, walked, generated, raw);
    GeneratedIdentified(p, c, event);
    var e := GeneratedFrom(p, c, event, raw);
    SoundWalk(c, event);
    SameAsItself(walked);
    EntryTrusted(p, c, walked, walked, e);
    WalkedCalls(c, event, e);
    assert NewSelfObservation(p, c, walked, e);
  }

  lemma DescribedAppended(p: Pipeline, c: Ctx, event: Item)
    requires Ready(c) && Expressible(c) && Sized(Obj(event)) && c.style == p.style && c.observables == Add
    requires DescribesItself(p, c, Walked(c, event).item)
    ensures !NoneLeadsBack(Appended(c.decimal, Walked(c, event).item, Generated(p, c, event)))
    ensures Prior(Walked(c, event).item) != [] && !WrongType(Walked(c, event).item)
  {
    hide Ready, Expressible, Sized, LeadsBack, Walked, Generated, Identify, Sound, EntryFor, Calls, WrongType, Keep, Trusted,
      SameOutsideObservables, Appended, Prior;
    var walked, generated := Walked(c, event).item, Generated(p, c, event);
    var e :| NewSelfObservation(p, c, walked, e);
    SelfObservationNeedsPrior(p, c, walked, e);
    WalkedCalls(c, event, e);
    GeneratedOf(p, c, event, e);
    SoundWalk(c, event);
    SameAsItself(walked);
    EntryTrusted(p, c, walked, walked, e);
    var kept := NewReached(c.decimal, walked, generated, EntryFor(p, e));
    SameName(c.decimal, kept, EntryFor(p, e));
  }

  lemma AppendedNew(decimal: Decimal, item: Item, generated: seq<Value>, raw: Value)
    requires raw in Appended(decimal, item, generated)
    ensures raw in generated && !WrongType(item)
    ensures Identify(decimal, raw).Some? ==> Identify(decimal, raw).value !in Identities(decimal, Prior(item))
  {
    hide Identify, Keep, Fresh, Identities;
    AppendedGenerated(decimal, item, generated);
    AcceptedDistinct(decimal, Prior(item), generated);
  }

  /** A generated entry unlike all prior ones reaches the event, itself or its like. */
  lemma NewReached(decimal: Decimal, item: Item, generated: seq<Value>, raw: Value) returns (kept: Value)
    requires !WrongType(item) && raw in generated && Identify(decimal, raw).Some?
    requires Identify(decimal, raw).value !in Identities(decimal, Prior(item))
    ensures kept in Appended(decimal, item, generated) && Identify(decimal, kept) == Identify(decimal, raw)
  {
    hide Identify, Keep, Fresh, Prior;
    var i :| 0 <= i < |generated| && generated[i] == raw;
    PassCovers(decimal, Prior(item), generated, i);
    var all := Prior(item) + Keep(generated, Fresh(decimal, Prior(item), generated));
    kept :| kept in all && Identify(decimal, kept) == Identify(decimal, raw);
  }
}
