/** Appending without duplicates, told from the entries' own fields: nothing generated is lost, and nothing is held twice
    because of a run. */
module Appending {
  import opened Text
  import opened Values
  import opened Walk
  import opened Analysis
  import opened Collection
  import opened Run
  import opened GeneratedEntries
  import EP = EventPath

  /** A text for a name, an integer for a type, and no value, a null or a text. */
  predicate Entrylike(decimal: Decimal, raw: Value) {
    && raw.Obj? && "name" in raw.fields && raw.fields["name"].Str?
    && "type_id" in raw.fields && AsInteger(decimal, raw.fields["type_id"]).Some?
    && ("value" in raw.fields ==> raw.fields["value"] == Null || raw.fields["value"].Str?)
  }

  /** Two such entries agree in name, type and value. */
  predicate Agree(decimal: Decimal, a: Value, b: Value) {
    && Entrylike(decimal, a) && Entrylike(decimal, b)
    && a.fields["name"].text == b.fields["name"].text
    && AsInteger(decimal, a.fields["type_id"]) == AsInteger(decimal, b.fields["type_id"])
    && ("value" in a.fields <==> "value" in b.fields)
    && ("value" in a.fields ==> a.fields["value"] == b.fields["value"])
  }

  lemma IdentityMeans(decimal: Decimal, a: Value, b: Value)
    ensures Identify(decimal, a).Some? <==> Entrylike(decimal, a)
    ensures Identify(decimal, a).Some? && Identify(decimal, a) == Identify(decimal, b) <==> Agree(decimal, a, b)
  {
  }

  /** The identity of an entry is among those of others when one of them agrees with it. */
  lemma AmongMeans(decimal: Decimal, raw: Value, entries: seq<Value>)
    ensures (Identify(decimal, raw).Some? && Identify(decimal, raw).value in Identities(decimal, entries)) <==>
      exists q | q in entries :: Agree(decimal, raw, q)
  {
    forall q ensures Identify(decimal, raw).Some? && Identify(decimal, raw) == Identify(decimal, q) <==>
      Agree(decimal, raw, q)
    {
      IdentityMeans(decimal, raw, q);
    }
    hide Identify, Agree;
    if Identify(decimal, raw).Some? && Identify(decimal, raw).value in Identities(decimal, entries) {
      var q :| q in entries && Identify(decimal, q).Some? && Identify(decimal, q).value == Identify(decimal, raw).value;
      assert Agree(decimal, raw, q);
    }
  }

  /** A pass goes through the generated entries in order, and accepts each unless it agrees with one that was there or
      with an earlier one. */
  lemma AcceptedUnlessAgreeing(decimal: Decimal, existing: seq<Value>, generated: seq<Value>, i: nat)
    requires i < |generated|
    ensures Fresh(decimal, existing, generated)[i] <==>
      !exists q | q in existing + generated[..i] :: Agree(decimal, generated[i], q)
    ensures DuplicateAt(decimal, existing, generated, i) == Duplicate(generated[i],
      if exists q | q in existing :: Agree(decimal, generated[i], q) then FromExisting else FromGenerated, i)
  {
    hide Identify, Agree, Identities;
    AmongMeans(decimal, generated[i], existing + generated[..i]);
    AmongMeans(decimal, generated[i], existing);
  }

  /** Appended entries agree neither with an entry that was there nor with one another. */
  lemma AppendedNewOnly(decimal: Decimal, item: Item, generated: seq<Value>)
    ensures var appended := Appended(decimal, item, generated);
      && (forall raw, q | raw in appended && q in Prior(item) :: !Agree(decimal, raw, q))
      && (forall i, j | 0 <= i < j < |appended| :: !Agree(decimal, appended[i], appended[j]))
  {
    hide Identify, Agree, Identities, Keep, Fresh, Prior;
    var appended := Appended(decimal, item, generated);
    AcceptedDistinct(decimal, Prior(item), generated);
    forall raw, q | raw in appended && q in Prior(item) ensures !Agree(decimal, raw, q) {
      IdentityMeans(decimal, raw, q);
      AmongMeans(decimal, raw, Prior(item));
    }
    forall i, j | 0 <= i < j < |appended| ensures !Agree(decimal, appended[i], appended[j]) {
      IdentityMeans(decimal, appended[i], appended[j]);
    }
  }

  /** The entry says what was observed: the path's name in the configured notation, the type, and the text if any. */
  predicate SaysObserved(p: Pipeline, raw: Value, e: Effect)
    requires e.Observe?
  {
    && raw.Obj? && "name" in raw.fields && raw.fields["name"] == Str(EP.Render(e.path, p.style))
    && "type_id" in raw.fields && AsInteger(p.decimal, raw.fields["type_id"]) == Some(e.typeID)
    && (if e.text.Some? then "value" in raw.fields && raw.fields["value"] == Str(e.text.value) else "value" !in raw.fields)
  }

  /** What is written for an observation, field by field. */
  lemma EntryWritten(p: Pipeline, e: Effect)
    requires e.Observe?
    ensures var raw := EntryFor(p, e);
      && SaysObserved(p, raw, e) && raw.fields["type_id"] == Int(e.typeID)
      && ("type" in raw.fields <==> p.enums == Add && e.typeID in p.typeNames)
      && ("type" in raw.fields ==> raw.fields["type"] == Str(p.typeNames[e.typeID]))
      && raw.fields.Keys <= {"name", "type_id", "value", "type"}
  {
    hide EP.Render;
  }

  /** Nothing observed is lost: unless the observables are no list, the event ends with an entry for each observation of
      its walk. */
  lemma NothingLost(p: Pipeline, c: Ctx, event: Item, e: Effect)
    requires Ready(c) && c.observables == Add && c.decimal == p.decimal
    requires e.Observe? && e in Walked(c, event).trace
    ensures var before, after := Walked(c, event).item, Process(p, c, event).item;
      ("observables" in before ==> before["observables"] == Null || before["observables"].Arr?) ==>
        && "observables" in after && after["observables"].Arr?
        && exists raw | raw in after["observables"].elems :: SaysObserved(p, raw, e)
  {
    hide *;
    var before, generated := Walked(c, event).item, Generated(p, c, event);
    GeneratedOf(p, c, event, e);
    AddingStages(p, c, event);
    FinalItem(p, c, event);
    EntryWritten(p, e);
    ObservationIdentified(p, c.decimal, e);
    WrongTypeMeans(before);
    if !WrongType(before) {
      ListAfter(c.decimal, before, generated);
      Held(c.decimal, before, generated, EntryFor(p, e));
      forall q | Agree(c.decimal, EntryFor(p, e), q) ensures SaysObserved(p, q, e) {
        AgreeingSays(p, EntryFor(p, e), q, e);
      }
    }
  }

  lemma FinalItem(p: Pipeline, c: Ctx, event: Item)
    requires Ready(c)
    ensures Process(p, c, event).item == Finished(p, c, event).item
  {
    hide Finished, Judged, ValidateObservables;
  }

  lemma WrongTypeMeans(item: Item)
    ensures WrongType(item) <==>
      !("observables" in item ==> item["observables"] == Null || item["observables"].Arr?)
  {
  }

  lemma ListAfter(decimal: Decimal, item: Item, generated: seq<Value>)
    requires !WrongType(item)
    ensures var after, all := AddObservables(decimal, item, generated).item, Prior(item) + Appended(decimal, item, generated);
      all != [] ==> "observables" in after && after["observables"].Arr? && after["observables"].elems == all
  {
    hide AddObservables, Appended, Prior;
    AddedAfterPrior(decimal, item, generated);
  }

  /** One of the entries afterwards agrees with each that was generated. */
  lemma Held(decimal: Decimal, item: Item, generated: seq<Value>, raw: Value)
    requires !WrongType(item) && raw in generated && Identify(decimal, raw).Some?
    ensures exists q | q in Prior(item) + Appended(decimal, item, generated) :: Agree(decimal, raw, q)
  {
    hide Identify, Agree, Identities, Keep, Fresh, Prior;
    var i :| 0 <= i < |generated| && generated[i] == raw;
    PassCovers(decimal, Prior(item), generated, i);
    AmongMeans(decimal, raw, Prior(item) + Appended(decimal, item, generated));
  }

  lemma AgreeingSays(p: Pipeline, raw: Value, q: Value, e: Effect)
    requires e.Observe? && SaysObserved(p, raw, e) && Agree(p.decimal, raw, q)
    ensures SaysObserved(p, q, e)
  {
    hide EP.Render, AsInteger;
  }

  /** In a run that adds, the prior entries stay first, the accepted ones follow; an absent, null or empty list comes to be
      only by an accepted entry, and any other value stays, with an issue if there was something to add. Duplicates are
      reported one by one, and the accepted entries counted. */
  lemma AdditionTold(p: Pipeline, c: Ctx, event: Item)
    requires Ready(c) && c.observables == Add
    ensures var before, generated := Walked(c, event).item, Generated(p, c, event);
      var finished, appended := Finished(p, c, event), Appended(c.decimal, before, generated);
      var list := "observables" in before && before["observables"].Arr?;
      && (list || "observables" !in before || before["observables"] == Null ==>
            var all := (if list then before["observables"].elems else []) + appended;
            && (if all == [] then "observables" !in finished.item
                else "observables" in finished.item && finished.item["observables"] == Arr(all))
            && finished.trace == seq(|generated| - |appended|, _ => Raise(ObservableDuplicateSkipped))
                                 + if appended == [] then [] else [ObservablesAdded(|appended|)])
      && (!list && "observables" in before && before["observables"] != Null ==>
            && finished.item == before
            && finished.trace == if generated == [] then [] else [Raise(ObservablesNotAddedWrongType)])
  {
    hide Walked, Generated, Finished, Appended;
    AddingStages(p, c, event);
    AddedTold(c.decimal, Walked(c, event).item, Generated(p, c, event));
  }

  lemma AddedTold(decimal: Decimal, item: Item, generated: seq<Value>)
    ensures var added, appended := AddObservables(decimal, item, generated), Appended(decimal, item, generated);
      var list := "observables" in item && item["observables"].Arr?;
      && |appended| <= |generated|
      && (list || "observables" !in item || item["observables"] == Null ==>
            var all := (if list then item["observables"].elems else []) + appended;
            && (if all == [] then "observables" !in added.item
                else "observables" in added.item && added.item["observables"] == Arr(all))
            && added.trace == seq(|generated| - |appended|, _ => Raise(ObservableDuplicateSkipped))
                              + if appended == [] then [] else [ObservablesAdded(|appended|)])
      && (!list && "observables" in item && item["observables"] != Null ==>
            && added.item == item
            && added.trace == if generated == [] then [] else [Raise(ObservablesNotAddedWrongType)])
  {
    hide AddObservables, Appended, AddTo;
    AddedAfterPrior(decimal, item, generated);
    AddedTrace(decimal, item, generated);
    WrongTypeMeans(item);
  }

  lemma AddedTrace(decimal: Decimal, item: Item, generated: seq<Value>)
    ensures var added, appended := AddObservables(decimal, item, generated), Appended(decimal, item, generated);
      && |appended| <= |generated|
      && (WrongType(item) ==> added.trace == if generated == [] then [] else [Raise(ObservablesNotAddedWrongType)])
      && (!WrongType(item) ==>
            added.trace == seq(|generated| - |appended|, _ => Raise(ObservableDuplicateSkipped))
                           + if appended == [] then [] else [ObservablesAdded(|appended|)])
  {
    hide Fresh, Keep, AddTo;
    KeptNoMore(generated, Fresh(decimal, Prior(item), generated));
    if !WrongType(item) {
      if Prior(item) == [] {
        AddToTrace(decimal, item, None, generated);
        AddToTrace(decimal, Without(item, OBSERVABLES), None, generated);
      } else {
        AddToTrace(decimal, item, Some(Prior(item)), generated);
      }
    }
  }

  lemma AddToTrace(decimal: Decimal, item: Item, existing: Option<seq<Value>>, generated: seq<Value>)
    ensures var prior := if existing.Some? then existing.value else [];
      var accepted := Keep(generated, Fresh(decimal, prior, generated));
      && |accepted| <= |generated|
      && AddTo(decimal, item, existing, generated).trace ==
           seq(|generated| - |accepted|, _ => Raise(ObservableDuplicateSkipped))
           + if accepted == [] then [] else [ObservablesAdded(|accepted|)]
  {
    var prior := if existing.Some? then existing.value else [];
    KeptNoMore(generated, Fresh(decimal, prior, generated));
    FirstIsFresh(decimal, generated);
    hide Fresh, Keep;
    var none: seq<Effect> := seq(0, _ => Raise(ObservableDuplicateSkipped));
    assert none == [];
    assert generated == [] ==> Keep(generated, Fresh(decimal, prior, generated)) == [];
  }

  lemma {:induction false} KeptNoMore<T>(s: seq<T>, flags: seq<bool>)
    requires |s| == |flags|
    ensures |Keep(s, flags)| <= |s|
  {
    if s != [] {
      var n := |s| - 1;
      KeptNoMore(s[..n], flags[..n]);
    }
  }
}
