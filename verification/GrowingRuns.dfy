/** Runs over an event whose entries are observable themselves: each describes the last entry of the one before. */
module GrowingRuns {
  import opened Text
  import opened Values
  import opened Walk
  import opened Settling
  import opened Generation
  import opened ObservablePath
  import opened Analysis
  import opened Collection
  import opened Run
  import opened Trust
  import opened GeneratedEntries
  import opened SafeRemoval
  import opened SelfReference
  import opened SecondRun
  import EP = EventPath

  // ----- Names of entries -----

  /** The notations that write array indexes. */
  predicate Numbered(style: EP.Style) {
    style == EP.Indexed || style == EP.JSONPath
  }

  function EntryPath(i: nat): Elems {
    [EP.Attribute(OBSERVABLES), EP.ArrayIndex(i)]
  }

  predicate NamedAs(raw: Value, text: string) {
    raw.Obj? && Slot(raw.fields, "name") == Some(Str(text))
  }

  lemma EntrySegments(i: nat, style: EP.Style)
    requires Numbered(style)
    ensures Segments(EntryPath(i), style) == [Segment(OBSERVABLES, [At(i)])]
  {
    var path, alone := EntryPath(i), Segment(OBSERVABLES, []);
    assert path[..1] == [EP.Attribute(OBSERVABLES)];
    AloneSegments(OBSERVABLES, style);
    assert Segments(path, style) == [alone][..0] + [alone.(selectors := [] + StyleSelectors(style, i))];
    assert [] + StyleSelectors(style, i) == [At(i)];
    assert [alone][..0] == [];
  }

  lemma AloneSegments(name: string, style: EP.Style)
    ensures Segments([EP.Attribute(name)], style) == [Segment(name, [])]
  {
    assert [EP.Attribute(name)][..0] == [];
    assert Segments([], style) == [];
  }

  /** No other path has the name of an entry. */
  lemma OnlyEntryPath(path: Elems, i: nat, style: EP.Style)
    requires Numbered(style) && path != [] && path[0].Attribute?
    requires Segments(path, style) == [Segment(OBSERVABLES, [At(i)])]
    ensures path == EntryPath(i)
  {
    var n := |path| - 1;
    LastIsIndex(path, Segment(OBSERVABLES, [At(i)]), style);
    OnlyAttribute(path[..n], OBSERVABLES, style);
    assert path == path[..n] + [path[n]];
  }

  lemma LastIsIndex(path: Elems, segment: Segment, style: EP.Style)
    requires Numbered(style) && path != [] && path[0].Attribute?
    requires Segments(path, style) == [segment] && |segment.selectors| == 1 && segment.selectors[0].At?
    ensures path[|path| - 1] == EP.ArrayIndex(segment.selectors[0].index)
    ensures |path| > 1 && Segments(path[..|path| - 1], style) == [segment.(selectors := [])]
  {
    var n := |path| - 1;
    var before := Segments(path[..n], style);
    assert Segments(path, style)[0] == segment;
    match path[n]
    case Attribute(name) =>
    case ArrayIndex(index) =>
      var last := before[|before| - 1];
      assert Segments(path, style)[|before| - 1] == last.(selectors := last.selectors + [At(index)]);
      assert (last.selectors + [At(index)])[|last.selectors|] == segment.selectors[0];
  }

  lemma OnlyAttribute(path: Elems, name: string, style: EP.Style)
    requires Numbered(style) && path != [] && path[0].Attribute? && Segments(path, style) == [Segment(name, [])]
    ensures path == [EP.Attribute(name)]
  {
    var n := |path| - 1;
    var before, whole := Segments(path[..n], style), Segments(path, style);
    if n > 0 {
      PrefixNamed(path, n, style);
    }
    assert whole[|whole| - 1] == Segment(name, []);
    assert path[n].Attribute?;
    assert |whole| == |before| + 1;
    assert path == [path[0]];
  }

  lemma PrefixNamed(path: Elems, n: nat, style: EP.Style)
    requires 0 < n <= |path| && path[0].Attribute?
    ensures Segments(path[..n], style) != []
  {
    assert path[..n][0] == path[0];
  }

  lemma EntryNameRead(i: nat, style: EP.Style)
    requires Numbered(style) && i <= MAX_INT64
    ensures ReadName(EP.Render(EntryPath(i), style)) == Ok(Name([Segment(OBSERVABLES, [At(i)])], style == EP.JSONPath))
  {
    hide EP.Render, ReadName, Segments;
    EntrySegments(i, style);
    RenderParseRoundTrip(EntryPath(i), style);
  }

  // ----- One run -----

  /** The observables are objects, none of which names the last one or one yet to come. */
  ghost predicate LastUndescribed(p: Pipeline, item: Item) {
    && !WrongType(item) && Prior(item) != [] && (forall raw | raw in Prior(item) :: raw.Obj?)
    && forall i: nat, raw | |Prior(item)| - 1 <= i <= MAX_INT64 && raw in Prior(item) ::
         !NamedAs(raw, EP.Render(EntryPath(i), p.style))
  }

  /** A run that leaves siblings alone describes the event as it is. */
  lemma NothingMoves(p: Pipeline, c: Ctx, item: Item)
    requires Ready(c) && c.observables == Add && c.enums == NoAction
    ensures SettledEvent(c, item) == item && Walked(c, item).item == item
    ensures Process(p, c, item).item == AddObservables(c.decimal, item, Generated(p, c, item)).item
  {
    hide *;
    WalkedIsSettled(c, item);
    AddingRun(p, c, item);
    NothingSettled(c, item);
  }

  lemma NothingSettled(c: Ctx, item: Item)
    requires Ready(c) && c.enums == NoAction
    ensures SettledEvent(c, item) == item
  {
    hide Ready, SettledItem;
    ClassKnown(c);
    UnchangedItem(c, item, c.cls.item, {});
  }

  /** The entries a run generates name only entries that were there. */
  lemma GeneratedNamesPresent(p: Pipeline, c: Ctx, item: Item, raw: Value, i: nat)
    requires Ready(c) && Expressible(c) && Sized(Obj(item)) && c.style == p.style
    requires c.observables == Add && c.enums == NoAction && Numbered(p.style)
    requires raw in Generated(p, c, item) && i <= MAX_INT64 && NamedAs(raw, EP.Render(EntryPath(i), p.style))
    ensures i < |Prior(item)|
  {
    hide *;
    var e := GeneratedFrom(p, c, item, raw);
    NothingMoves(p, c, item);
    SoundWalk(c, item);
    SameAsItself(item);
    TrustedEntry(p, c, item, item, e);
    EntryName(p, e);
    NameOf(raw, EP.Render(EntryPath(i), p.style), EP.Render(e.path, p.style));
    EntryNameRead(i, p.style);
    OnlyEntryPath(e.path, i, p.style);
    SoundParts(c, item, e);
    ValueAtEntry(item, i);
  }

  lemma NameOf(raw: Value, a: string, b: string)
    requires NamedAs(raw, a) && Attribute(raw.fields, "name") == Some(Str(b))
    ensures a == b
  {
  }

  lemma ValueAtEntry(item: Item, i: nat)
    requires ValueAt(Obj(item), EntryPath(i)).Some?
    ensures i < |Prior(item)|
  {
    assert EntryPath(i)[1..] == [EP.ArrayIndex(i)];
    assert ValueAt(Obj(item), EntryPath(i)) == ValueAt(item[OBSERVABLES], [EP.ArrayIndex(i)]);
  }

  /** The last entry is described by a run. */
  lemma LastDescribed(p: Pipeline, c: Ctx, item: Item)
    requires Ready(c) && c.observables == Add && c.enums == NoAction && DescribesEntries(c) && c.style == p.style
    requires LastUndescribed(p, item) && |Prior(item)| <= MAX_INT64
    ensures DescribesItself(p, c, item)
  {
    hide Ready, DescribesEntries, Calls, EntryFor, Identify, EP.Render, WrongType;
    var n := |Prior(item)| - 1;
    var e := EntryCalled(c, item, Prior(item), n);
    ObservationIdentified(p, c.decimal, e);
    EntryName(p, e);
    assert Prior(item)[n] in Prior(item);
    forall raw | raw in Prior(item) ensures Identify(c.decimal, raw) != Identify(c.decimal, EntryFor(p, e)) {
      DifferentNames(c.decimal, raw, EntryFor(p, e), EP.Render(EntryPath(n), p.style));
    }
    assert NewSelfObservation(p, c, item, e);
  }

  lemma DifferentNames(decimal: Decimal, a: Value, b: Value, text: string)
    requires a.Obj? && b.Obj? && !NamedAs(a, text) && Attribute(b.fields, "name") == Some(Str(text))
    requires Identify(decimal, b).Some?
    ensures Identify(decimal, a) != Identify(decimal, b)
  {
  }

  /** So the run makes the observables longer, and again nothing describes the last entry. */
  lemma OneRun(p: Pipeline, c: Ctx, item: Item)
    requires Ready(c) && Expressible(c) && Sized(Obj(item)) && c.style == p.style && Numbered(p.style)
    requires c.observables == Add && c.enums == NoAction && DescribesEntries(c) && LastUndescribed(p, item)
    ensures var next := Process(p, c, item).item;
      |Prior(next)| > |Prior(item)| && LastUndescribed(p, next)
  {
    hide Ready, Expressible, Sized, DescribesEntries, Process, Generated, AddObservables, Appended, EP.Render, WrongType,
      DescribesItself, Prior, NamedAs;
    var next, generated := Process(p, c, item).item, Generated(p, c, item);
    var appended := Appended(c.decimal, item, generated);
    NothingMoves(p, c, item);
    PriorSized(item);
    LastDescribed(p, c, item);
    DescribedLonger(p, c, item);
    Extended(c.decimal, item, generated);
    AppendedGenerated(c.decimal, item, generated);
    GeneratedPlain(p, c, item);
    forall i: nat, raw | |Prior(next)| - 1 <= i <= MAX_INT64 && raw in Prior(next)
      ensures !NamedAs(raw, EP.Render(EntryPath(i), p.style))
    {
      if raw in appended && NamedAs(raw, EP.Render(EntryPath(i), p.style)) {
        GeneratedNamesPresent(p, c, item, raw, i);
      }
    }
  }

  lemma PriorSized(item: Item)
    requires Sized(Obj(item))
    ensures |Prior(item)| <= MAX_INT64
  {
  }

  lemma Extended(decimal: Decimal, item: Item, generated: seq<Value>)
    requires !WrongType(item)
    ensures var next := AddObservables(decimal, item, generated).item;
      !WrongType(next) && Prior(next) == Prior(item) + Appended(decimal, item, generated)
  {
    hide AddObservables, Appended;
    AddedAfterPrior(decimal, item, generated);
  }

  lemma DescribedLonger(p: Pipeline, c: Ctx, item: Item)
    requires Ready(c) && c.observables == Add && c.enums == NoAction && DescribesItself(p, c, item)
    ensures Appended(c.decimal, item, Generated(p, c, item)) != []
  {
    hide Ready, Walked, Generated, Calls, Identify, EntryFor, Appended, Prior, WrongType;
    var e :| NewSelfObservation(p, c, item, e);
    NothingMoves(p, c, item);
    WalkedCalls(c, item, e);
    GeneratedOf(p, c, item, e);
    var kept := NewReached(c.decimal, item, Generated(p, c, item), EntryFor(p, e));
  }

  // ----- All runs -----

  /** The event after so many runs, each of which resolves the class for itself. */
  ghost function After(p: Pipeline, event: Item, k: nat): Item
    requires Usable(p)
  {
    if k == 0 then event else ProcessEvent(p, After(p, event, k - 1)).item
  }

  /** In a notation with indexes, runs that add observables to an event of such a class never settle: as long as the
      arrays fit, every further run makes the observables longer, since nothing describes the last entry before it. */
  lemma NeverSettles(p: Pipeline, cls: ClassDef, event: Item, k: nat)
    requires Usable(p) && p.observables == Add && p.enums == NoAction && Numbered(p.style)
    requires ResolveClass(p, event) == Resolved(cls) && LastUndescribed(p, event)
    requires var c := ContextOf(p, cls, EventProfiles(event)); Expressible(c) && DescribesEntries(c)
    requires Sized(Obj(After(p, event, k)))
    ensures |Prior(After(p, event, k + 1))| > |Prior(After(p, event, k))|
  {
    hide *;
    var c := ClassStays(p, cls, event, k);
    StillUndescribed(p, cls, event, k);
    OneRun(p, c, After(p, event, k));
    AfterNext(p, event, k);
  }

  lemma AfterNext(p: Pipeline, event: Item, k: nat)
    requires Usable(p)
    ensures After(p, event, k + 1) == ProcessEvent(p, After(p, event, k)).item
  {
  }

  lemma {:induction false} ClassStays(p: Pipeline, cls: ClassDef, event: Item, k: nat) returns (c: Ctx)
    requires Usable(p) && p.observables == Add && p.enums == NoAction && ResolveClass(p, event) == Resolved(cls)
    ensures c == ContextOf(p, cls, EventProfiles(event)) && Ready(c)
    ensures c.style == p.style && c.observables == Add && c.enums == NoAction
    ensures var x := After(p, event, k);
      ResolveClass(p, x) == Resolved(cls) && EventProfiles(x) == EventProfiles(event)
      && ProcessEvent(p, x) == Process(p, c, x)
  {
    hide Ready, ResolveClass, EventProfiles, Process;
    c := ContextOf(p, cls, EventProfiles(event));
    ResolvedReady(p, cls, event);
    if k > 0 {
      var before := ClassStays(p, cls, event, k - 1);
      var x := After(p, event, k - 1);
      NothingMoves(p, c, x);
      AdditionOnlyObservables(c.decimal, x, Generated(p, c, x));
      SameClass(p, x, After(p, event, k));
    }
  }

  lemma ResolvedReady(p: Pipeline, cls: ClassDef, event: Item)
    requires Usable(p) && ResolveClass(p, event) == Resolved(cls)
    ensures Ready(ContextOf(p, cls, EventProfiles(event)))
  {
    hide Ready;
  }

  /** The class and the profiles stand outside the observables. */
  lemma SameClass(p: Pipeline, a: Item, b: Item)
    requires SameOutsideObservables(a, b)
    ensures ResolveClass(p, a) == ResolveClass(p, b) && EventProfiles(a) == EventProfiles(b)
  {
    assert Slot(a, "class_uid") == Slot(b, "class_uid") && Slot(a, "metadata") == Slot(b, "metadata");
  }

  lemma {:induction false} StillUndescribed(p: Pipeline, cls: ClassDef, event: Item, k: nat)
    requires Usable(p) && p.observables == Add && p.enums == NoAction && Numbered(p.style)
    requires ResolveClass(p, event) == Resolved(cls) && LastUndescribed(p, event)
    requires var c := ContextOf(p, cls, EventProfiles(event)); Expressible(c) && DescribesEntries(c)
    requires Sized(Obj(After(p, event, k)))
    ensures LastUndescribed(p, After(p, event, k))
  {
    hide Ready, Usable, ResolveClass, EventProfiles, Process, ProcessEvent, Sized, Expressible, DescribesEntries, LastUndescribed;
    if k > 0 {
      var c := ClassStays(p, cls, event, k - 1);
      var x := After(p, event, k - 1);
      SizedBefore(p, c, x);
      StillUndescribed(p, cls, event, k - 1);
      OneRun(p, c, x);
    }
  }

  /** A run takes nothing away. */
  lemma SizedBefore(p: Pipeline, c: Ctx, item: Item)
    requires Ready(c) && c.observables == Add && c.enums == NoAction && Sized(Obj(Process(p, c, item).item))
    ensures Sized(Obj(item))
  {
    hide Ready, Generated, Process, AddObservables, Appended, SameOutsideObservables;
    var next, generated := Process(p, c, item).item, Generated(p, c, item);
    NothingMoves(p, c, item);
    AdditionOnlyObservables(c.decimal, item, generated);
    AddedAfterPrior(c.decimal, item, generated);
    forall key | key in item ensures Sized(item[key]) {
      if key != OBSERVABLES {
        OutsideSame(item, next, key);
        assert next[key] == item[key];
      } else if item[key].Arr? && item[key].elems != [] {
        var all := Prior(item) + Appended(c.decimal, item, generated);
        assert next[key] == Arr(all) && Prior(item) == all[..|Prior(item)|];
      }
    }
  }

  /** The self-describing pipelines never settle on the event with one empty entry, which nothing describes. */
  lemma SelfDescribingNeverSettles(style: EP.Style, preferred: Option<EP.Style>, decimal: Decimal, judge: Judging, k: nat)
    requires Numbered(style)
    ensures Usable(SelfDescribing(NoAction, style, preferred, decimal, judge))
    ensures var p, event := SelfDescribing(NoAction, style, preferred, decimal, judge), SelfDescribingEvent(7);
      Sized(Obj(After(p, event, k))) ==> |Prior(After(p, event, k + 1))| > |Prior(After(p, event, k))|
  {
    var p, event := SelfDescribing(NoAction, style, preferred, decimal, judge), SelfDescribingEvent(7);
    assert p.observables == Add && p.enums == NoAction && p.style == style && 7 in p.classes;
    EmptyEntryUndescribed(p, 7);
    hide *;
    SelfDescribingUsable(p);
    SelfDescribingEntries(p);
    EventProcessed(p, 7);
    if Sized(Obj(After(p, event, k))) {
      NeverSettles(p, p.classes[7], event, k);
    }
  }

  lemma EmptyEntryUndescribed(p: Pipeline, uid: int64)
    ensures LastUndescribed(p, SelfDescribingEvent(uid))
  {
  }
}
