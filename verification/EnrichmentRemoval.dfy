/** The processors that remove enum siblings and observables, as they change the context and the event step by step. */
module EnrichmentRemoval {
  import opened Text
  import opened Values
  import NE = NumericEnum
  import opened Schema
  import opened Walk
  import opened Analysis
  import opened Collection
  import opened Run
  import opened Reporting
  import opened Context
  import opened Enrichment

  method RecordEnumSiblingRetention(ctx: ProcessContext)
    requires ctx.Valid()
    modifies ctx.result
    ensures ctx.Valid()
    ensures ctx.State() == ctx.After(old(ctx.State()), [SiblingRetained, Raise(EnumSiblingNotRemoved)])
  {
    hide ProcessContext.After;
    Onward(ctx, ctx.State(), [SiblingRetained], [Raise(EnumSiblingNotRemoved)]);
    assert [SiblingRetained] + [Effect.Raise(EnumSiblingNotRemoved)] == [SiblingRetained, Raise(EnumSiblingNotRemoved)];
    ctx.Tally(SiblingRetained);
    ctx.Raise(EnumSiblingNotRemoved);
  }

  method DeleteSibling(ctx: ProcessContext, item: Item, s: string) returns (r: Item)
    requires ctx.Valid()
    modifies ctx.result
    ensures ctx.Valid() && r == Removed(item, s).item
    ensures ctx.State() == ctx.After(old(ctx.State()), Removed(item, s).trace)
  {
    ctx.Tally(SiblingRemoved);
    return map k | k in item && k != s :: item[k];
  }

  /** What one enum value or element decides: go on, retain silently, or retain with an issue. */
  datatype Verdict = Matching | KeepOther | KeepReported

  function VerdictOn(c: Ctx, attr: AttrDef, v: Value, sibling: Option<Value>): Verdict {
    var l := LookupEnum(c, attr, v);
    if l == Unusable then KeepReported
    else if ElementOther(c, attr, v) then KeepOther
    else if sibling.Some? && (l == Missing || sibling.value != Str(l.def.caption)) then KeepReported
    else Matching
  }

  /** Compares one enum value with its sibling; a forced removal compares with nothing. */
  method JudgeSibling(ctx: ProcessContext, attr: AttrDef, index: Option<NE.Index>, v: Value, sibling: Option<Value>)
    returns (verdict: Verdict)
    requires ctx.Valid() && IndexFits(attr, index)
    modifies ctx`numberStyleKnown, ctx`numberUsesFloatSyntax
    ensures verdict == VerdictOn(ctx.c, attr, v, sibling)
  {
    hide LookupEnum, NE.Compiled;
    var l := ctx.LookupEnumDefinition(attr, index, v);
    var other := (attr.primitive == "integer_t" || attr.primitive == "long_t") && IsOther(ctx.c.decimal, v);
    if l == Unusable {
      return KeepReported;
    }
    if other {
      return KeepOther;
    }
    if sibling.Some? {
      if l == Missing {
        return KeepReported;
      }
      if sibling.value != Str(l.def.caption) {
        return KeepReported;
      }
    }
    return Matching;
  }

  /** Compares element by element until one decides. */
  method CompareElements(ctx: ProcessContext, item: Item, attr: AttrDef, index: Option<NE.Index>, s: string,
                         enumValues: seq<Value>, siblingValues: seq<Value>, force: bool)
    returns (verdict: Verdict)
    requires ctx.Valid() && IndexFits(attr, index) && (force || |enumValues| == |siblingValues|)
    modifies ctx`numberStyleKnown, ctx`numberUsesFloatSyntax
    ensures RemoveArray(ctx.c, item, attr, s, enumValues, siblingValues, force, 0) == match verdict
      case Matching => Removed(item, s)
      case KeepOther => Outcome(item, [SiblingRetained])
      case KeepReported => Retain(item)
  {
    hide LookupEnum, IndexFits, ElementOther, Removed, Retain;
    for i := 0 to |enumValues|
      invariant RemoveArray(ctx.c, item, attr, s, enumValues, siblingValues, force, 0)
        == RemoveArray(ctx.c, item, attr, s, enumValues, siblingValues, force, i)
    {
      verdict := JudgeSibling(ctx, attr, index, enumValues[i], if force then None else Some(siblingValues[i]));
      if verdict != Matching {
        return;
      }
    }
    return Matching;
  }

  method RemoveEnumArraySiblingPair(ctx: ProcessContext, item: Item, e: string, attr: AttrDef,
                                    index: Option<NE.Index>, s: string, force: bool)
    returns (r: Item)
    requires ctx.Valid() && IndexFits(attr, index) && attr.isArray && s in item && item[s] != Null
    modifies ctx`numberStyleKnown, ctx`numberUsesFloatSyntax, ctx.result
    ensures ctx.Valid() && r == RemovePair(ctx.c, item, e, attr, s, force).item
    ensures ctx.State() == ctx.After(old(ctx.State()), RemovePair(ctx.c, item, e, attr, s, force).trace)
  {
    hide LookupEnum, ProcessContext.After, IndexFits, ElementOther, RemoveArray;
    r := item;
    if !item[s].Arr? || Attribute(item, e) == None || !item[e].Arr?
       || (!force && |item[e].elems| != |item[s].elems|) {
      RecordEnumSiblingRetention(ctx);
      return;
    }
    var verdict := CompareElements(ctx, item, attr, index, s, item[e].elems, item[s].elems, force);
    match verdict
    case KeepReported => RecordEnumSiblingRetention(ctx);
    case KeepOther => ctx.Tally(SiblingRetained);
    case Matching => r := DeleteSibling(ctx, item, s);
  }

  method RemoveEnumSiblingPair(ctx: ProcessContext, item: Item, e: string, attr: AttrDef, index: Option<NE.Index>,
                               s: string, force: bool)
    returns (r: Item)
    requires ctx.Valid() && IndexFits(attr, index)
    modifies ctx`numberStyleKnown, ctx`numberUsesFloatSyntax, ctx.result
    ensures ctx.Valid() && r == RemovePair(ctx.c, item, e, attr, s, force).item
    ensures ctx.State() == ctx.After(old(ctx.State()), RemovePair(ctx.c, item, e, attr, s, force).trace)
  {
    hide LookupEnum, ProcessContext.After, IndexFits, RemoveArray;
    Onward(ctx, ctx.State(), [], []);
    r := item;
    if s !in item {
      return;
    }
    if item[s] == Null {
      r := DeleteSibling(ctx, item, s);
      return;
    }
    if attr.isArray {
      r := RemoveEnumArraySiblingPair(ctx, item, e, attr, index, s, force);
      return;
    }
    if !item[s].Str? || Attribute(item, e) == None {
      RecordEnumSiblingRetention(ctx);
      return;
    }
    var verdict := JudgeSibling(ctx, attr, index, item[e], if force then None else Some(item[s]));
    match verdict
    case KeepReported => RecordEnumSiblingRetention(ctx);
    case KeepOther => ctx.Tally(SiblingRetained);
    case Matching => r := DeleteSibling(ctx, item, s);
  }

  method RetainUnsupportedEnumSibling(ctx: ProcessContext, item: Item, def: ItemDef, name: string) returns (r: Item)
    requires ctx.Valid() && name in def.attributes && (ctx.c.enums == Remove || ctx.c.enums == ForceRemove)
    modifies ctx.result
    ensures ctx.Valid() && r == RetainUnsupported(ctx.c, item, def, name).item
    ensures ctx.State() == ctx.After(old(ctx.State()), RetainUnsupported(ctx.c, item, def, name).trace)
  {
    hide ProcessContext.After;
    Onward(ctx, ctx.State(), [], []);
    var attr := def.attributes[name];
    r := item;
    if attr.enum == None || attr.sibling == None || name in def.links {
      return;
    }
    var sibling := attr.sibling.value;
    if sibling !in item {
      return;
    }
    if item[sibling] == Null {
      r := DeleteSibling(ctx, item, sibling);
      return;
    }
    ctx.Tally(SiblingRetained);
  }

  // ----- Observables -----

  method ReportEntries(ctx: ProcessContext, entries: seq<Entry>)
    requires ctx.Valid()
    modifies ctx`limitReported, ctx.result
    ensures ctx.Valid() && ctx.State() == ctx.After(old(ctx.State()), AllIssues(entries))
  {
    hide ProcessContext.After;
    ghost var before := ctx.State();
    Onward(ctx, before, [], []);
    for i := 0 to |entries|
      invariant ctx.Valid() && ctx.State() == ctx.After(before, AllIssues(entries[..i]))
    {
      var problem := entries[i].problem;
      assert entries[..i + 1][..i] == entries[..i];
      Onward(ctx, before, AllIssues(entries[..i]), EntryIssues(entries[i]));
      if problem == BoundaryReached {
        ctx.ReachTheLimit();
        continue;
      }
      var code := IssueOf(problem);
      if code.Some? {
        ctx.Raise(code.value);
      } else {
        Onward(ctx, ctx.State(), [], []);
      }
    }
    assert entries[..|entries|] == entries;
  }

  method RemoveObservablesSafely(ctx: ProcessContext, event: Item) returns (r: Item)
    requires ctx.Valid()
    modifies ctx`limitReported, ctx.result
    ensures ctx.Valid() && r == RemoveSafely(ctx.c, event).item
    ensures ctx.State() == ctx.After(old(ctx.State()), RemoveSafely(ctx.c, event).trace)
  {
    hide ProcessContext.After, AllIssues, EntriesOf, Keep;
    ghost var before := ctx.State();
    Onward(ctx, before, [], []);
    r := event;
    if OBSERVABLES !in event {
      return;
    }
    if event[OBSERVABLES] == Null {
      return map k | k in event && k != OBSERVABLES :: event[k];
    }
    var analysis := Analyze(event, ScopeOf(ctx.c));
    var entries := analysis.value;
    ReportEntries(ctx, entries);
    if !event[OBSERVABLES].Arr? {
      Onward(ctx, before, AllIssues(entries), [ObservablesRetained(1)]);
      ctx.Tally(ObservablesRetained(1));
      return;
    }
    var elems := event[OBSERVABLES].elems;
    assert |entries| == |elems| by { EntryPerElement(event, elems, ScopeOf(ctx.c)); }
    KeepPartition(elems, Flags(entries));
    SameCount(entries, elems, Flags(entries));
    var removeCount := RemovableCount(entries);
    Onward(ctx, before, AllIssues(entries), [ObservablesRemoved(removeCount)]);
    Onward(ctx, before, AllIssues(entries) + [ObservablesRemoved(removeCount)], [ObservablesRetained(|elems| - removeCount)]);
    assert AllIssues(entries) + [ObservablesRemoved(removeCount)] + [ObservablesRetained(|elems| - removeCount)]
      == AllIssues(entries) + [ObservablesRemoved(removeCount), ObservablesRetained(|elems| - removeCount)];
    ctx.Tally(ObservablesRemoved(removeCount));
    ctx.Tally(ObservablesRetained(|elems| - removeCount));
    r := TakeOut(event, elems, entries, removeCount);
  }

  /** Takes the removable entries out, and the attribute with the last of them. */
  method TakeOut(event: Item, elems: seq<Value>, entries: seq<Entry>, removeCount: nat) returns (r: Item)
    requires Slot(event, OBSERVABLES) == Some(Arr(elems)) && |entries| == |elems|
    requires removeCount == |Keep(elems, Flags(entries))|
    ensures var retained := Keep(elems, Not(Flags(entries)));
      r == if retained == [] then Walk.Without(event, OBSERVABLES) else event[OBSERVABLES := Arr(retained)]
  {
    hide Keep;
    KeepPartition(elems, Flags(entries));
    if removeCount == |elems| {
      return map k | k in event && k != OBSERVABLES :: event[k];
    }
    if removeCount == 0 {
      NothingTaken(event, elems, Flags(entries));
      return event;
    }
    var filtered := FilterRemovable(elems, entries, removeCount);
    r := event[OBSERVABLES := Arr(filtered.values)];
  }

  lemma EntryPerElement(event: Item, elems: seq<Value>, scope: Scope)
    ensures |EntriesOf(event, Arr(elems), scope)| == |elems|
  {
  }

  lemma NothingTaken(event: Item, elems: seq<Value>, flags: seq<bool>)
    requires OBSERVABLES in event && event[OBSERVABLES] == Arr(elems) && |flags| == |elems| && Keep(elems, flags) == []
    ensures event[OBSERVABLES := Arr(Keep(elems, Not(flags)))] == event
  {
    hide Keep;
    forall i | 0 <= i < |elems| ensures Not(flags)[i] {
      if flags[i] {
        KeepMember(elems, flags, elems[i]);
      }
    }
    KeepAll(elems, Not(flags));
  }

  method ForceRemoveObservablesWithoutAnalysis(ctx: ProcessContext, event: Item) returns (r: Item)
    requires ctx.Valid()
    modifies ctx.result
    ensures ctx.Valid() && r == RemoveForcibly(event).item
    ensures ctx.State() == ctx.After(old(ctx.State()), RemoveForcibly(event).trace)
  {
    hide ProcessContext.After;
    Onward(ctx, ctx.State(), [], []);
    r := event;
    if OBSERVABLES !in event {
      return;
    }
    if event[OBSERVABLES].Arr? {
      ctx.Tally(ObservablesRemoved(|event[OBSERVABLES].elems|));
    }
    r := map k | k in event && k != OBSERVABLES :: event[k];
  }
}
