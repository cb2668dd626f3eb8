/** Deciding, entry by entry, whether an event's observables say nothing the event does not already say. */
module Analysis {
  import opened Text
  import opened Values
  import opened Schema
  import opened ObservablePath
  import opened Definedness
  import opened Resolution

  datatype Problem =
    | NoProblem
    | ArrayWrongType
    | ElementWrongType
    | NameMissing | NameWrongType | NameInvalidSyntax | NameInvalidReference
    | BoundaryReached
    | PathNotFound | PathNotObject
    | ValueWrongType | ValueNotFound

  datatype Entry = Entry(raw: Value, path: Option<Name>, removable: bool, problem: Problem)

  /** What names are resolved against: the class item, the schema objects and the active profiles. */
  datatype Scope = Scope(def: ItemDef, objects: Objects, profiles: set<string>)

  const OBSERVABLES := "observables"

  function Rejected(raw: Value, problem: Problem): Entry {
    Entry(raw, None, false, problem)
  }

  function Decided(raw: Value, path: Name, proven: bool, found: bool, otherwise: Problem): Entry {
    Entry(raw, Some(path), proven, if proven then NoProblem else if !found then PathNotFound else otherwise)
  }

  function AnalyzeEntry(event: Item, raw: Value, scope: Scope): Entry {
    if !raw.Obj? then Rejected(raw, ElementWrongType)
    else
      match Attribute(raw.fields, "name")
      case None => Rejected(raw, NameMissing)
      case Some(nameValue) =>
        if !nameValue.Str? then Rejected(raw, NameWrongType)
        else
          match ReadName(nameValue.text)
          case Err(_) => Rejected(raw, NameInvalidSyntax)
          case Ok(path) => AnalyzePath(event, raw, path, scope)
  }

  function AnalyzePath(event: Item, raw: Value, path: Name, scope: Scope): Entry
    requires raw.Obj?
  {
    if path.segments != [] && path.segments[0].attribute == OBSERVABLES then Rejected(raw, NameInvalidReference)
    else
      match DefinitionFrom(scope.objects, scope.profiles, path.segments, scope.def, [])
      case Undefined => Rejected(raw, NameInvalidReference)
      case TraversalLimited => Rejected(raw, BoundaryReached)
      case Defined =>
        match Slot(raw.fields, "value")
        case None =>
          var r := Resolve(event, path.segments, IsObject);
          Decided(raw, path, r.matched, r.found, PathNotObject)
        case Some(Null) =>
          var r := Resolve(event, path.segments, IsNull);
          Decided(raw, path, r.missing || r.matched, r.found, ValueNotFound)
        case Some(Str(text)) =>
          var r := Resolve(event, path.segments, ScalarMatches(text));
          Decided(raw, path, r.matched, r.found, ValueNotFound)
        case Some(_) => Entry(raw, Some(path), false, ValueWrongType)
  }

  /** What makes an entry redundant: its name is defined, does not lead back into the observables, and selects from the
      event what the entry says is there. */
  predicate Redundant(event: Item, raw: Value, scope: Scope) {
    && raw.Obj? && Slot(raw.fields, "name").Some? && raw.fields["name"].Str?
    && ReadName(raw.fields["name"].text).Ok?
    && var segments := ReadName(raw.fields["name"].text).value.segments;
      && (segments != [] ==> segments[0].attribute != OBSERVABLES)
      && DefinitionFrom(scope.objects, scope.profiles, segments, scope.def, []) == Defined
      && Says(event, segments, Slot(raw.fields, "value"))
  }

  predicate Says(event: Item, segments: seq<Segment>, value: Option<Value>) {
    var selected := Selected(Obj(event), segments);
    match value
    case None => exists x | x in selected :: x.Obj?
    case Some(Null) => SelectionMissing(Obj(event), segments) || Null in selected
    case Some(Str(text)) => exists x | x in selected :: FormatScalar(x) == Some(text)
    case Some(_) => false
  }

  /** Exactly the redundant entries are removable, and they alone have no problem. */
  lemma RemovableIsRedundant(event: Item, raw: Value, scope: Scope)
    ensures var entry := AnalyzeEntry(event, raw, scope);
      && entry.raw == raw
      && (entry.removable <==> Redundant(event, raw, scope))
      && (entry.removable <==> entry.problem == NoProblem)
  {
    hide Selected, SelectionMissing, DefinitionFrom, ReadName;
  }

  /** Resolution of a path that does not start at the observables does not read them. */
  lemma ResolveIgnoresObservables(a: Item, b: Item, segments: seq<Segment>)
    requires forall key | key != OBSERVABLES :: Slot(a, key) == Slot(b, key)
    requires segments != [] && segments[0].attribute != OBSERVABLES
    ensures Selected(Obj(a), segments) == Selected(Obj(b), segments)
    ensures SelectionMissing(Obj(a), segments) == SelectionMissing(Obj(b), segments)
  {
    var segment := segments[0];
    assert Slot(a, segment.attribute) == Slot(b, segment.attribute);
    assert Entered(Obj(a), segment) == Entered(Obj(b), segment);
    assert LeafMissing(Obj(a), segment) == LeafMissing(Obj(b), segment);
    hide Picked, PickMissing, Entered, LeafMissing;
    assert Stepped(Obj(a), segment) == Stepped(Obj(b), segment);
    assert StepMissing(Obj(a), segment) == StepMissing(Obj(b), segment);
  }

  /** The verdict on an entry is the same for two events that differ only in their observables. */
  lemma VerdictIgnoresObservables(a: Item, b: Item, raw: Value, scope: Scope)
    requires forall key | key != OBSERVABLES :: Slot(a, key) == Slot(b, key)
    ensures AnalyzeEntry(a, raw, scope) == AnalyzeEntry(b, raw, scope)
  {
    hide Selected, SelectionMissing, ReadName;
    if raw.Obj? && Slot(raw.fields, "name").Some? && raw.fields["name"].Str? && ReadName(raw.fields["name"].text).Ok? {
      var path := ReadName(raw.fields["name"].text).value;
      if path.segments != [] && path.segments[0].attribute != OBSERVABLES {
        ResolveIgnoresObservables(a, b, path.segments);
      }
    }
  }

  // ----- The analyzer -----

  /** Every entry of an event's observables, in order. */
  function EntriesOf(event: Item, observables: Value, scope: Scope): seq<Entry> {
    if !observables.Arr? then [Rejected(observables, ArrayWrongType)]
    else seq(|observables.elems|, i requires 0 <= i < |observables.elems| => AnalyzeEntry(event, observables.elems[i], scope))
  }

  class Analyzer {
    const event: Item
    const scope: Scope
    const observables: Value
    const wrongType: bool
    var index: nat
    var limit: nat

    ghost predicate Valid()
      reads this
    {
      && wrongType == !observables.Arr?
      && limit <= (if wrongType then 0 else |observables.elems|)
    }

    /** The entries still to come. */
    ghost function Pending(): seq<Entry>
      requires Valid()
      reads this
    {
      var entries := EntriesOf(event, observables, scope);
      if wrongType then (if index == 0 then entries else [])
      else if index < limit then entries[index..limit]
      else []
    }

    constructor (event: Item, observables: Value, scope: Scope)
      ensures Valid() && this.event == event && this.observables == observables && this.scope == scope && index == 0
      ensures Pending() == EntriesOf(event, observables, scope)
    {
      this.event := event;
      this.scope := scope;
      this.observables := observables;
      wrongType := !observables.Arr?;
      index := 0;
      limit := if observables.Arr? then |observables.elems| else 0;
    }

    /** Leaves out the entries from `count` on; a value that is no array is still reported. */
    method LimitEntries(count: int)
      requires Valid() && index == 0
      modifies `limit
      ensures Valid()
      ensures Pending() ==
        if 0 <= count < |old(Pending())| && observables.Arr? then old(Pending())[..count] else old(Pending())
    {
      if count < 0 || count >= limit {
        return;
      }
      limit := count;
    }

    method Next() returns (at: nat, entry: Entry, ok: bool)
      requires Valid()
      modifies `index
      ensures Valid()
      ensures ok <==> old(Pending()) != []
      ensures ok ==> entry == old(Pending())[0] && Pending() == old(Pending())[1..]
      ensures !ok ==> Pending() == []
      ensures ok && !wrongType ==> at == old(index) && index == at + 1
      ensures ok && wrongType ==> at == 0
    {
      entry := Rejected(observables, ArrayWrongType);
      at := 0;
      if wrongType {
        if index != 0 {
          return 0, entry, false;
        }
        index := index + 1;
        return 0, entry, true;
      }
      if index >= limit {
        return 0, entry, false;
      }
      at := index;
      index := index + 1;
      entry := AnalyzeEntry(event, observables.elems[at], scope);
      ok := true;
    }
  }

  /** All entries of one event state, or None without observables. */
  method Analyze(event: Item, scope: Scope) returns (entries: Option<seq<Entry>>)
    ensures entries == match Attribute(event, OBSERVABLES)
      case None => None
      case Some(observables) => Some(EntriesOf(event, observables, scope))
  {
    hide EntriesOf, AnalyzeEntry, Analyzer.Pending;
    if Attribute(event, OBSERVABLES) == None {
      return None;
    }
    var analyzer := new Analyzer(event, event[OBSERVABLES], scope);
    var collected: seq<Entry> := [];
    ghost var whole := analyzer.Pending();
    var more := true;
    while more
      invariant fresh(analyzer) && analyzer.Valid()
      invariant collected + analyzer.Pending() == whole
      invariant !more ==> analyzer.Pending() == []
      decreases more, |analyzer.Pending()|
    {
      ghost var pending := analyzer.Pending();
      var at, entry;
      at, entry, more := analyzer.Next();
      if more {
        HeadAndTail(pending);
        assert collected + pending == (collected + [entry]) + analyzer.Pending();
        collected := collected + [entry];
      }
    }
    assert collected + [] == collected;
    return Some(collected);
  }
}
