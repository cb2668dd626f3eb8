/** What validation and safe removal say of each entry of an event's observables, told from the entry, the schema and
    what the entry's name selects in the event. */
module Verdicts {
  import opened Text
  import opened Values
  import opened Schema
  import opened Walk
  import opened ObservablePath
  import opened Definedness
  import opened DefinedNames
  import opened Resolution
  import opened Analysis
  import opened Collection
  import opened Run
  import EP = EventPath

  // ----- What can be wrong with an entry -----

  predicate NoObject(raw: Value) {
    !raw.Obj?
  }

  /** Without a name, or with a null one. */
  predicate Nameless(raw: Value) {
    raw.Obj? && ("name" in raw.fields ==> raw.fields["name"] == Null)
  }

  predicate Misnamed(raw: Value) {
    raw.Obj? && "name" in raw.fields && raw.fields["name"] != Null && !raw.fields["name"].Str?
  }

  predicate Named(raw: Value) {
    raw.Obj? && "name" in raw.fields && raw.fields["name"].Str?
  }

  predicate Unreadable(raw: Value) {
    Named(raw) && ReadName(raw.fields["name"].text).Err?
  }

  predicate Readable(raw: Value) {
    Named(raw) && ReadName(raw.fields["name"].text).Ok?
  }

  function SegmentsOf(raw: Value): seq<Segment>
    requires Readable(raw)
  {
    ReadName(raw.fields["name"].text).value.segments
  }

  /** The name starts at the observables. */
  predicate StartsBack(raw: Value) {
    Readable(raw) && SegmentsOf(raw) != [] && SegmentsOf(raw)[0].attribute == "observables"
  }

  /** The class defines the name, which does not start at the observables. */
  ghost predicate Placed(c: Ctx, raw: Value) {
    && Readable(raw) && !StartsBack(raw)
    && exists items :: items != [] && items[0] == c.cls.item
         && DefinedBy(c.cat.objects, c.profiles, SegmentsOf(raw), items)
  }

  /** The name meets the recursion boundary of the schema. */
  ghost predicate Bounded(c: Ctx, raw: Value) {
    && Readable(raw) && !StartsBack(raw)
    && exists n: nat, items :: items != [] && items[0] == c.cls.item
         && LimitedAt(c.cat.objects, c.profiles, SegmentsOf(raw), n, items)
  }

  /** The name leads nowhere the class defines, or back into the observables. */
  ghost predicate Stray(c: Ctx, raw: Value) {
    Readable(raw) && !Placed(c, raw) && !Bounded(c, raw)
  }

  predicate Misvalued(raw: Value) {
    raw.Obj? && "value" in raw.fields && raw.fields["value"] != Null && !raw.fields["value"].Str?
  }

  function Chosen(event: Item, raw: Value): set<Value>
    requires Readable(raw)
  {
    Selected(Obj(event), SegmentsOf(raw))
  }

  /** The event holds what the entry says: without a value an object, for a null value a null or missing content, for a
      text a scalar so spelled. */
  predicate Holding(event: Item, raw: Value)
    requires Readable(raw)
  {
    if "value" !in raw.fields then exists x | x in Chosen(event, raw) :: x.Obj?
    else if raw.fields["value"] == Null then
      Null in Chosen(event, raw) || SelectionMissing(Obj(event), SegmentsOf(raw))
    else raw.fields["value"].Str? && exists x | x in Chosen(event, raw) :: FormatScalar(x) == Some(raw.fields["value"].text)
  }

  /** A proper entry the event does not bear out, and whose name selects nothing. */
  ghost predicate Nowhere(c: Ctx, event: Item, raw: Value) {
    Placed(c, raw) && !Misvalued(raw) && !Holding(event, raw) && Chosen(event, raw) == {}
  }

  /** One without a value whose name selects something, but no object. */
  ghost predicate Objectless(c: Ctx, event: Item, raw: Value) {
    Placed(c, raw) && "value" !in raw.fields && !Holding(event, raw) && Chosen(event, raw) != {}
  }

  /** One with a text or a null, whose name selects something else. */
  ghost predicate Unsaid(c: Ctx, event: Item, raw: Value) {
    Placed(c, raw) && "value" in raw.fields && !Misvalued(raw) && !Holding(event, raw) && Chosen(event, raw) != {}
  }

  /** The event bears the entry out. */
  ghost predicate Borne(c: Ctx, event: Item, raw: Value) {
    Placed(c, raw) && Holding(event, raw)
  }

  // ----- One entry -----

  lemma StatusOf(c: Ctx, raw: Value)
    requires Readable(raw) && !StartsBack(raw)
    ensures var status := DefinitionFrom(c.cat.objects, c.profiles, SegmentsOf(raw), c.cls.item, []);
      (status == Defined <==> Placed(c, raw)) && (status == TraversalLimited <==> Bounded(c, raw))
  {
    hide *;
    DefinedExactly(c.cat.objects, c.profiles, SegmentsOf(raw), c.cls.item);
    PlacedMeans(c, raw);
  }

  lemma PlacedMeans(c: Ctx, raw: Value)
    requires Readable(raw)
    ensures Placed(c, raw) <==>
      !StartsBack(raw)
      && (exists items :: items != [] && items[0] == c.cls.item
            && DefinedBy(c.cat.objects, c.profiles, SegmentsOf(raw), items))
    ensures Bounded(c, raw) <==>
      !StartsBack(raw)
      && (exists n: nat, items :: items != [] && items[0] == c.cls.item
            && LimitedAt(c.cat.objects, c.profiles, SegmentsOf(raw), n, items))
  {
    hide DefinedBy, LimitedAt, StartsBack, ReadName;
  }

  /** The verdict on a readable name, by what it names. */
  lemma ReadableVerdict(c: Ctx, event: Item, raw: Value)
    requires Readable(raw)
    ensures var problem := AnalyzeEntry(event, raw, ScopeOf(c)).problem;
      && (Stray(c, raw) ==> problem == NameInvalidReference)
      && (Bounded(c, raw) ==> problem == BoundaryReached && !Placed(c, raw))
      && (Placed(c, raw) && Misvalued(raw) ==> problem == ValueWrongType)
      && (Nowhere(c, event, raw) ==> problem == PathNotFound)
      && (Objectless(c, event, raw) ==> problem == PathNotObject)
      && (Unsaid(c, event, raw) ==> problem == ValueNotFound)
      && (Borne(c, event, raw) ==> problem == NoProblem)
  {
    hide ReadName, DefinitionFrom, Selected, SelectionMissing, Placed, Bounded;
    if StartsBack(raw) {
      NotBack(c, raw);
    } else {
      StatusOf(c, raw);
    }
  }

  lemma NotBack(c: Ctx, raw: Value)
    ensures Placed(c, raw) || Bounded(c, raw) ==> !StartsBack(raw)
  {
    hide ReadName, DefinedBy, LimitedAt;
  }

  lemma UnreadableVerdict(c: Ctx, event: Item, raw: Value)
    requires !Readable(raw)
    ensures var problem := AnalyzeEntry(event, raw, ScopeOf(c)).problem;
      && (NoObject(raw) ==> problem == ElementWrongType)
      && (Nameless(raw) ==> problem == NameMissing)
      && (Misnamed(raw) ==> problem == NameWrongType)
      && (Unreadable(raw) ==> problem == NameInvalidSyntax)
  {
    hide ReadName;
  }

  /** Every entry is of exactly one of these kinds. */
  lemma SomeKind(c: Ctx, event: Item, raw: Value)
    ensures !Readable(raw) <==> NoObject(raw) || Nameless(raw) || Misnamed(raw) || Unreadable(raw)
    ensures Readable(raw) <==>
      Stray(c, raw) || Bounded(c, raw) || (Placed(c, raw) && Misvalued(raw)) || Borne(c, event, raw)
      || Nowhere(c, event, raw) || Objectless(c, event, raw) || Unsaid(c, event, raw)
  {
    hide ReadName, Selected, SelectionMissing, DefinedBy, LimitedAt, StartsBack;
  }

  // ----- What is said of it -----

  /** Validation finds 29 for an unreadable name, 30 for a stray one, 31 for one that selects nothing, 32 for one without
      a value that selects no object, and 33 for one that selects other values than its own; and nothing of the kind for
      any other entry. */
  lemma EntryFound(c: Ctx, event: Item, raw: Value)
    ensures var found := EntryFindings(c, None, AnalyzeEntry(event, raw, ScopeOf(c)));
      && (Unreadable(raw) ==> found == [Find(29)])
      && (Stray(c, raw) ==> found == [Find(30)])
      && (Nowhere(c, event, raw) ==> found == [Find(31)])
      && (Objectless(c, event, raw) ==> found == [Find(32)])
      && (Unsaid(c, event, raw) ==> found == [Find(33)])
      && (Bounded(c, raw) ==> found == [ReachLimit])
      && (NoObject(raw) || Nameless(raw) || Misnamed(raw) || Borne(c, event, raw) || (Placed(c, raw) && Misvalued(raw)) ==>
            found == [])
  {
    hide AnalyzeEntry, Placed, Bounded, Readable, Holding, Chosen, Unreadable, Nameless, Misnamed, NoObject, Misvalued,
      Nowhere, Objectless, Unsaid, Stray, Borne;
    KindOfReadable(c, event, raw);
    if Readable(raw) {
      ReadableVerdict(c, event, raw);
    } else {
      UnreadableVerdict(c, event, raw);
    }
  }

  lemma KindOfReadable(c: Ctx, event: Item, raw: Value)
    ensures Stray(c, raw) || Bounded(c, raw) || Placed(c, raw) || Borne(c, event, raw) || Nowhere(c, event, raw)
              || Objectless(c, event, raw) || Unsaid(c, event, raw) ==>
            Readable(raw)
    ensures NoObject(raw) || Nameless(raw) || Misnamed(raw) || Unreadable(raw) ==> !Readable(raw)
  {
    hide ReadName, DefinedBy, LimitedAt, StartsBack, Holding, Chosen;
  }

  /** Safe removal raises an issue of its own for each kind of entry it retains. */
  lemma EntryRaised(c: Ctx, event: Item, raw: Value)
    ensures var entry := AnalyzeEntry(event, raw, ScopeOf(c));
      var raised := EntryIssues(entry);
      && (entry.removable <==> Borne(c, event, raw))
      && (NoObject(raw) ==> raised == [Raise(ObservableElementWrongType)])
      && (Nameless(raw) ==> raised == [Raise(ObservableNameMissing)])
      && (Misnamed(raw) ==> raised == [Raise(ObservableNameWrongType)])
      && (Unreadable(raw) ==> raised == [Raise(ObservableNameInvalidSyntax)])
      && (Stray(c, raw) ==> raised == [Raise(ObservableNameInvalidReference)])
      && (Bounded(c, raw) ==> raised == [ReachLimit])
      && (Placed(c, raw) && Misvalued(raw) ==> raised == [Raise(ObservableValueWrongType)])
      && (Nowhere(c, event, raw) ==> raised == [Raise(ObservablePathNotFound)])
      && (Objectless(c, event, raw) ==> raised == [Raise(ObservablePathNotObject)])
      && (Unsaid(c, event, raw) ==> raised == [Raise(ObservableValueNotFound)])
      && (Borne(c, event, raw) ==> raised == [])
  {
    hide AnalyzeEntry, Placed, Bounded, Readable, Holding, Chosen, Unreadable, Nameless, Misnamed, NoObject, Misvalued,
      Nowhere, Objectless, Unsaid, Stray, Borne, Redundant;
    SomeKind(c, event, raw);
    KindOfReadable(c, event, raw);
    RemovableIsRedundant(event, raw, ScopeOf(c));
    if Readable(raw) {
      ReadableVerdict(c, event, raw);
    } else {
      UnreadableVerdict(c, event, raw);
    }
  }

  // ----- All entries -----

  lemma {:induction false} FoundSomewhere(c: Ctx, preferred: Option<EP.Style>, event: Item, raws: seq<Value>, f: Effect)
    ensures f in AllFindings(c, preferred, EntriesOf(event, Arr(raws), ScopeOf(c))) <==>
      exists raw | raw in raws :: f in EntryFindings(c, preferred, AnalyzeEntry(event, raw, ScopeOf(c)))
  {
    hide AnalyzeEntry, EntryFindings;
    if raws != [] {
      var n := |raws| - 1;
      FoundSomewhere(c, preferred, event, raws[..n], f);
      var entries := EntriesOf(event, Arr(raws), ScopeOf(c));
      assert entries[..n] == EntriesOf(event, Arr(raws[..n]), ScopeOf(c));
      InitAndLast(raws);
    }
  }

  /** Whatever the preferred notation: the other findings are the same. */
  lemma BesidesNotation(c: Ctx, preferred: Option<EP.Style>, event: Item, raw: Value, k: Code)
    requires k != 48
    ensures var entry := AnalyzeEntry(event, raw, ScopeOf(c));
      Find(k) in EntryFindings(c, preferred, entry) <==> Find(k) in EntryFindings(c, None, entry)
  {
    hide AnalyzeEntry, UsesNotation;
  }

  /** Validation of all entries makes each of its findings exactly when there is an entry of the kind. */
  lemma ObservablesFound(c: Ctx, preferred: Option<EP.Style>, event: Item, raws: seq<Value>)
    requires Slot(event, "observables") == Some(Arr(raws))
    ensures var found := ValidateObservables(c, preferred, event, None);
      && (Find(29) in found <==> exists raw | raw in raws :: Unreadable(raw))
      && (Find(30) in found <==> exists raw | raw in raws :: Stray(c, raw))
      && (Find(31) in found <==> exists raw | raw in raws :: Nowhere(c, event, raw))
      && (Find(32) in found <==> exists raw | raw in raws :: Objectless(c, event, raw))
      && (Find(33) in found <==> exists raw | raw in raws :: Unsaid(c, event, raw))
  {
    hide AllFindings, EntriesOf, AnalyzeEntry, EntryFindings, Unreadable, Stray, Nowhere, Objectless, Unsaid, Bounded, Borne,
      Placed, Misvalued, NoObject, Nameless, Misnamed, Readable;
    forall k: Code | 29 <= k <= 33 {
      FoundSomewhere(c, preferred, event, raws, Find(k));
    }
    forall raw, k: Code | raw in raws && 29 <= k <= 33
      ensures Find(k) in EntryFindings(c, preferred, AnalyzeEntry(event, raw, ScopeOf(c))) <==>
        match k
        case 29 => Unreadable(raw)
        case 30 => Stray(c, raw)
        case 31 => Nowhere(c, event, raw)
        case 32 => Objectless(c, event, raw)
        case _ => Unsaid(c, event, raw)
    {
      BesidesNotation(c, preferred, event, raw, k);
      EntryFound(c, event, raw);
      SomeKind(c, event, raw);
    }
  }

  /** A value that is no array has no entries to find anything in. */
  lemma NothingFound(c: Ctx, preferred: Option<EP.Style>, event: Item, start: Option<nat>)
    requires "observables" in event ==> !event["observables"].Arr?
    ensures ValidateObservables(c, preferred, event, start) == []
  {
    hide UsesNotation, AnalyzeEntry;
    if Attribute(event, "observables").Some? {
      var entries := EntriesOf(event, event["observables"], ScopeOf(c));
      assert entries == [Rejected(event["observables"], ArrayWrongType)] && entries[..0] == [];
      assert AllFindings(c, preferred, entries[..0]) == [];
      assert EntryFindings(c, preferred, entries[0]) == [];
      assert AllFindings(c, preferred, entries) == [];
    }
  }

  // ----- Safe removal -----

  /** The entries the event does not bear out, in order. */
  ghost function Rest(c: Ctx, event: Item, raws: seq<Value>): seq<Value> {
    if raws == [] then []
    else
      var last := raws[|raws| - 1];
      Rest(c, event, raws[..|raws| - 1]) + if Borne(c, event, last) then [] else [last]
  }

  lemma {:induction false} RestKept(c: Ctx, event: Item, raws: seq<Value>)
    ensures var flags := Flags(EntriesOf(event, Arr(raws), ScopeOf(c)));
      && Keep(raws, Not(flags)) == Rest(c, event, raws)
      && |Keep(raws, flags)| + |Rest(c, event, raws)| == |raws|
  {
    if raws != [] {
      hide AnalyzeEntry, Borne, Flags, EntriesOf, Not, Keep;
      var n, flags := |raws| - 1, Flags(EntriesOf(event, Arr(raws), ScopeOf(c)));
      RestKept(c, event, raws[..n]);
      LastFlag(c, event, raws);
      KeepLast(raws, flags);
      KeepLast(raws, Not(flags));
    } else {
      hide AnalyzeEntry;
    }
  }

  lemma KeepLast(raws: seq<Value>, flags: seq<bool>)
    requires |raws| == |flags| > 0
    ensures var n := |raws| - 1;
      Keep(raws, flags) == Keep(raws[..n], flags[..n]) + if flags[n] then [raws[n]] else []
  {
  }

  lemma LastFlag(c: Ctx, event: Item, raws: seq<Value>)
    requires raws != []
    ensures var n, flags := |raws| - 1, Flags(EntriesOf(event, Arr(raws), ScopeOf(c)));
      && |flags| == |raws| && (flags[n] <==> Borne(c, event, raws[n])) && (Not(flags)[n] <==> !flags[n])
      && flags[..n] == Flags(EntriesOf(event, Arr(raws[..n]), ScopeOf(c))) && Not(flags)[..n] == Not(flags[..n])
  {
    hide AnalyzeEntry, Borne, EntryIssues;
    var n := |raws| - 1;
    EntryRaised(c, event, raws[n]);
    var flags := Flags(EntriesOf(event, Arr(raws), ScopeOf(c)));
    assert flags[..n] == Flags(EntriesOf(event, Arr(raws[..n]), ScopeOf(c)));
    assert Not(flags)[..n] == Not(flags[..n]);
  }

  lemma {:induction false} RaisedSomewhere(c: Ctx, event: Item, raws: seq<Value>, f: Effect)
    ensures f in AllIssues(EntriesOf(event, Arr(raws), ScopeOf(c))) <==>
      exists raw | raw in raws :: f in EntryIssues(AnalyzeEntry(event, raw, ScopeOf(c)))
  {
    hide AnalyzeEntry, EntryIssues;
    if raws != [] {
      var n := |raws| - 1;
      RaisedSomewhere(c, event, raws[..n], f);
      var entries := EntriesOf(event, Arr(raws), ScopeOf(c));
      assert entries[..n] == EntriesOf(event, Arr(raws[..n]), ScopeOf(c));
      InitAndLast(raws);
    }
  }

  /** Safe removal leaves exactly the entries the event does not bear out, with the attribute as long as there are any,
      and counts both. */
  lemma SafelyRemoved(c: Ctx, item: Item, raws: seq<Value>)
    requires c.observables == Remove && Slot(item, "observables") == Some(Arr(raws))
    ensures var after, rest := RemoveObservables(c, item), Rest(c, item, raws);
      && Slot(after.item, "observables") == (if rest == [] then None else Some(Arr(rest)))
      && (forall key | key != "observables" :: Slot(after.item, key) == Slot(item, key))
      && after.trace == AllIssues(EntriesOf(item, Arr(raws), ScopeOf(c)))
                        + [ObservablesRemoved(|raws| - |rest|), ObservablesRetained(|rest|)]
  {
    hide AllIssues, EntriesOf, Keep, Not, Flags, Rest;
    RestKept(c, item, raws);
  }

  /** And says why, kind by kind. */
  lemma RemovalRaised(c: Ctx, item: Item, raws: seq<Value>)
    requires c.observables == Remove && Slot(item, "observables") == Some(Arr(raws))
    ensures var raised := RemoveObservables(c, item).trace;
      && (Raise(ObservableElementWrongType) in raised <==> exists raw | raw in raws :: NoObject(raw))
      && (Raise(ObservableNameMissing) in raised <==> exists raw | raw in raws :: Nameless(raw))
      && (Raise(ObservableNameWrongType) in raised <==> exists raw | raw in raws :: Misnamed(raw))
      && (Raise(ObservableNameInvalidSyntax) in raised <==> exists raw | raw in raws :: Unreadable(raw))
      && (Raise(ObservableNameInvalidReference) in raised <==> exists raw | raw in raws :: Stray(c, raw))
      && (Raise(ObservablePathNotFound) in raised <==> exists raw | raw in raws :: Nowhere(c, item, raw))
      && (Raise(ObservablePathNotObject) in raised <==> exists raw | raw in raws :: Objectless(c, item, raw))
      && (Raise(ObservableValueNotFound) in raised <==> exists raw | raw in raws :: Unsaid(c, item, raw))
      && (Raise(ObservableValueWrongType) in raised <==> exists raw | raw in raws :: Placed(c, raw) && Misvalued(raw))
      && (ReachLimit in raised <==> exists raw | raw in raws :: Bounded(c, raw))
  {
    hide AllIssues, EntriesOf, AnalyzeEntry, EntryIssues, Unreadable, Stray, Nowhere, Objectless, Unsaid, Bounded, Borne, Rest,
      Placed, Misvalued, NoObject, Nameless, Misnamed, Readable, RemoveObservables;
    SafelyRemoved(c, item, raws);
    forall f: Effect ensures f in AllIssues(EntriesOf(item, Arr(raws), ScopeOf(c))) <==>
      exists raw | raw in raws :: f in EntryIssues(AnalyzeEntry(item, raw, ScopeOf(c)))
    {
      RaisedSomewhere(c, item, raws, f);
    }
    forall raw | raw in raws
      ensures var raised := EntryIssues(AnalyzeEntry(item, raw, ScopeOf(c)));
        && (Raise(ObservableElementWrongType) in raised <==> NoObject(raw))
        && (Raise(ObservableNameMissing) in raised <==> Nameless(raw))
        && (Raise(ObservableNameWrongType) in raised <==> Misnamed(raw))
        && (Raise(ObservableNameInvalidSyntax) in raised <==> Unreadable(raw))
        && (Raise(ObservableNameInvalidReference) in raised <==> Stray(c, raw))
        && (Raise(ObservablePathNotFound) in raised <==> Nowhere(c, item, raw))
        && (Raise(ObservablePathNotObject) in raised <==> Objectless(c, item, raw))
        && (Raise(ObservableValueNotFound) in raised <==> Unsaid(c, item, raw))
        && (Raise(ObservableValueWrongType) in raised <==> Placed(c, raw) && Misvalued(raw))
        && (ReachLimit in raised <==> Bounded(c, raw))
    {
      EntryRaised(c, item, raw);
      SomeKind(c, item, raw);
    }
  }

  /** Nothing but an array can lose entries; a null goes, and other values stay. */
  lemma NoArrayRemoved(c: Ctx, item: Item)
    requires c.observables == Remove && ("observables" in item ==> !item["observables"].Arr?)
    ensures RemoveObservables(c, item) ==
      if "observables" !in item then Outcome(item, [])
      else if item["observables"] == Null then Outcome(item - {"observables"}, [])
      else Outcome(item, [Raise(ObservableArrayWrongType), ObservablesRetained(1)])
  {
    if "observables" in item {
      var entries := EntriesOf(item, item["observables"], ScopeOf(c));
      assert entries == [Rejected(item["observables"], ArrayWrongType)] && entries[..0] == [];
      assert AllIssues(entries[..0]) == [];
      assert AllIssues(entries) == [Raise(ObservableArrayWrongType)];
      assert Without(item, "observables") == item - {"observables"};
    }
  }

  /** Forced removal takes the attribute away whatever it holds, and counts the entries of a list. */
  lemma ForciblyRemoved(c: Ctx, item: Item)
    requires c.observables == ForceRemove
    ensures RemoveObservables(c, item) ==
      Outcome(item - {"observables"},
              if "observables" in item && item["observables"].Arr? then [ObservablesRemoved(|item["observables"].elems|)] else [])
  {
    assert Without(item, "observables") == item - {"observables"};
    assert "observables" !in item ==> item - {"observables"} == item;
  }

  /** An entry whose name passes an attribute outside the active profiles is a stray one, so it stays. */
  lemma InactiveStays(c: Ctx, item: Item, raws: seq<Value>, raw: Value, k: nat, items: seq<ItemDef>)
    requires Slot(item, "observables") == Some(Arr(raws)) && raw in raws && Readable(raw)
    requires var segments := SegmentsOf(raw);
      && k < |segments| && |items| == k + 1 && items[0] == c.cls.item
      && (forall i | 0 <= i < k :: LeadsTo(c.cat.objects, segments[i].attribute, items[i], items[i + 1]))
      && segments[k].attribute in items[k].attributes
      && var attr := items[k].attributes[segments[k].attribute];
        attr.profiles != [] && forall p | p in attr.profiles :: p !in c.profiles
    ensures raw in Rest(c, item, raws)
  {
    hide ReadName, Holding;
    NotPlaced(c, raw, k, items);
    InRest(c, item, raws, raw);
  }

  lemma NotPlaced(c: Ctx, raw: Value, k: nat, items: seq<ItemDef>)
    requires Readable(raw)
    requires var segments := SegmentsOf(raw);
      && k < |segments| && |items| == k + 1 && items[0] == c.cls.item
      && (forall i | 0 <= i < k :: LeadsTo(c.cat.objects, segments[i].attribute, items[i], items[i + 1]))
      && segments[k].attribute in items[k].attributes
      && var attr := items[k].attributes[segments[k].attribute];
        attr.profiles != [] && forall p | p in attr.profiles :: p !in c.profiles
    ensures !Placed(c, raw)
  {
    hide ReadName, LeadsTo, StartsBack;
    var segments := SegmentsOf(raw);
    assert !Stands(c.profiles, segments[k], items[k]);
    if all :| all != [] && all[0] == c.cls.item && DefinedBy(c.cat.objects, c.profiles, segments, all) {
      SameItems(c.cat.objects, c.profiles, segments, k, items, all);
      assert false;
    }
  }

  lemma {:induction false} SameItems(objects: Objects, profiles: set<string>, segments: seq<Segment>, k: nat,
                                     items: seq<ItemDef>, all: seq<ItemDef>)
    requires Along(objects, profiles, segments, |segments|, all) && k < |segments| && k < |items| && all[0] == items[0]
    requires forall i | 0 <= i < k :: LeadsTo(objects, segments[i].attribute, items[i], items[i + 1])
    ensures all[k] == items[k]
    decreases k
  {
    hide Stands;
    if k > 0 {
      SameItems(objects, profiles, segments, k - 1, items, all);
      OnlyOne(objects, segments[k - 1].attribute, items[k - 1]);
      assert LeadsTo(objects, segments[k - 1].attribute, all[k - 1], all[k - 1 + 1]);
      assert LeadsTo(objects, segments[k - 1].attribute, items[k - 1], items[k - 1 + 1]);
    }
  }

  lemma {:induction false} InRest(c: Ctx, event: Item, raws: seq<Value>, raw: Value)
    requires raw in raws && !Borne(c, event, raw)
    ensures raw in Rest(c, event, raws)
  {
    hide Borne;
    var n := |raws| - 1;
    if raw != raws[n] {
      InitAndLast(raws);
      InRest(c, event, raws[..n], raw);
    }
  }

  // ----- Notation -----

  /** The name is written in the notation. */
  ghost predicate InNotation(c: Ctx, style: EP.Style, raw: Value)
    requires Readable(raw)
  {
    && (ReadName(raw.fields["name"].text).value.rooted <==> style == EP.JSONPath)
    && exists items :: items != [] && items[0] == c.cls.item
         && WrittenAlong(c.cat.objects, style, SegmentsOf(raw), items)
  }

  /** With a preferred notation validation finds 48 besides, exactly when there is an entry whose name the class defines
      and that is not written in it. */
  lemma NotationFound(c: Ctx, preferred: Option<EP.Style>, event: Item, raws: seq<Value>)
    requires Slot(event, "observables") == Some(Arr(raws))
    ensures Find(48) in ValidateObservables(c, preferred, event, None) <==>
      preferred.Some? && exists raw | raw in raws :: Placed(c, raw) && !InNotation(c, preferred.value, raw)
  {
    hide AllFindings, EntriesOf, AnalyzeEntry, EntryFindings, Placed, InNotation, Readable;
    FoundSomewhere(c, preferred, event, raws, Find(48));
    forall raw | raw in raws
      ensures Placed(c, raw) ==> Readable(raw)
      ensures Find(48) in EntryFindings(c, preferred, AnalyzeEntry(event, raw, ScopeOf(c))) <==>
        preferred.Some? && Placed(c, raw) && !InNotation(c, preferred.value, raw)
    {
      EntryNotation(c, preferred, event, raw);
    }
  }

  lemma EntryNotation(c: Ctx, preferred: Option<EP.Style>, event: Item, raw: Value)
    ensures Placed(c, raw) ==> Readable(raw)
    ensures Find(48) in EntryFindings(c, preferred, AnalyzeEntry(event, raw, ScopeOf(c))) <==>
      preferred.Some? && Placed(c, raw) && !InNotation(c, preferred.value, raw)
  {
    hide AnalyzeEntry, Placed, UsesNotation, InNotation, Readable;
    KindOfReadable(c, event, raw);
    if Readable(raw) {
      EntryPath(c, event, raw);
      if preferred.Some? {
        NotationMeans(c, preferred.value, raw);
      }
    } else {
      NoPath(c, event, raw);
    }
  }

  lemma NotationMeans(c: Ctx, style: EP.Style, raw: Value)
    requires Readable(raw)
    ensures UsesNotation(ReadName(raw.fields["name"].text).value, style, c.cat.objects, c.cls.item) <==> InNotation(c, style, raw)
  {
    hide ReadName, UsesNotation, WrittenAlong;
    NotationExactly(c.cat.objects, style, ReadName(raw.fields["name"].text).value, c.cls.item);
  }

  lemma EntryPath(c: Ctx, event: Item, raw: Value)
    requires Readable(raw)
    ensures var entry := AnalyzeEntry(event, raw, ScopeOf(c));
      && (entry.path.Some? <==> Placed(c, raw))
      && (entry.path.Some? ==> entry.path.value == ReadName(raw.fields["name"].text).value)
      && (entry.path.Some? ==> entry.problem != BoundaryReached)
  {
    hide ReadName, DefinitionFrom, Selected, SelectionMissing, Placed, Bounded;
    if StartsBack(raw) {
      NotBack(c, raw);
    } else {
      StatusOf(c, raw);
    }
  }

  lemma NoPath(c: Ctx, event: Item, raw: Value)
    requires !Readable(raw)
    ensures AnalyzeEntry(event, raw, ScopeOf(c)).path == None
    ensures forall preferred :: Find(48) !in EntryFindings(c, preferred, AnalyzeEntry(event, raw, ScopeOf(c)))
  {
    hide ReadName;
  }

  /** The trusted suffix gets no other check than its notation, and that only when it is not the preferred one. */
  lemma SuffixFound(c: Ctx, preferred: Option<EP.Style>, event: Item, raws: seq<Value>, start: nat)
    requires Slot(event, "observables") == Some(Arr(raws)) && start < |raws|
    ensures ValidateObservables(c, preferred, event, Some(start)) ==
      AllFindings(c, preferred, EntriesOf(event, Arr(raws[..start]), ScopeOf(c)))
      + if preferred.Some? && preferred.value != c.style then SuffixNotation(c, preferred.value, raws[start..]) else []
  {
    hide AllFindings, SuffixNotation, AnalyzeEntry;
    assert EntriesOf(event, Arr(raws), ScopeOf(c))[..start] == EntriesOf(event, Arr(raws[..start]), ScopeOf(c));
  }

  lemma {:induction false} SuffixNotationFound(c: Ctx, style: EP.Style, raws: seq<Value>)
    ensures forall f | f in SuffixNotation(c, style, raws) :: f == Find(48)
    ensures |SuffixNotation(c, style, raws)| > 0 <==>
      exists raw | raw in raws :: Readable(raw) && !InNotation(c, style, raw)
  {
    hide ReadName, UsesNotation, InNotation;
    if raws != [] {
      var n := |raws| - 1;
      SuffixNotationFound(c, style, raws[..n]);
      InitAndLast(raws);
      if Readable(raws[n]) {
        NotationMeans(c, style, raws[n]);
      }
    }
  }
}
