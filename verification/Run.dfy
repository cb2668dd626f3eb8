/** One whole run over an event: class resolution, the walk, the changes to the observables array and validation's
    reading of it, as functions of the event. */
module Run {
  import opened Text
  import opened Values
  import opened Observability
  import opened Walk
  import opened ObservablePath
  import opened Definedness
  import opened Analysis
  import opened Collection
  import EP = EventPath

  // Validation codes the run itself reports.
  const CLASS_UID_UNKNOWN: Code := 1
  const OBSERVABLE_NAME_INVALID_SYNTAX: Code := 29
  const OBSERVABLE_NAME_INVALID_REFERENCE: Code := 30
  const OBSERVABLE_PATH_NOT_FOUND: Code := 31
  const OBSERVABLE_PATH_NOT_OBJECT: Code := 32
  const OBSERVABLE_VALUE_NOT_FOUND: Code := 33
  const OBSERVABLE_NAME_PATH_NOTATION: Code := 48
  const CLASS_UID_MISSING: Code := 49
  const CLASS_UID_WRONG_TYPE: Code := 50

  /** The configured pipeline over a compiled schema. `preferred` is validation's configured notation, `typeNames` the
      captions of observable types. */
  datatype Pipeline = Pipeline(
    cat: Catalog,
    classes: map<int64, ClassDef>,
    typeNames: map<int64, string>,
    enums: Action,
    observables: Action,
    style: EP.Style,
    allowed: TypeSelector,
    validating: bool,
    preferred: Option<EP.Style>,
    decimal: Decimal,
    judge: Judging)

  function ContextOf(p: Pipeline, cls: ClassDef, profiles: set<string>): Ctx {
    Ctx(p.cat, cls, profiles, p.enums, p.observables, p.style, p.allowed, p.validating, p.decimal, p.judge)
  }

  function ScopeOf(c: Ctx): Scope {
    Scope(c.cls.item, c.cat.objects, c.profiles)
  }

  // ----- Before the walk -----

  datatype ClassResolution = Resolved(cls: ClassDef) | Unresolved(issue: IssueCode, code: Code)

  function ResolveClass(p: Pipeline, event: Item): ClassResolution {
    match Attribute(event, "class_uid")
    case None => Unresolved(ClassUIDMissing, CLASS_UID_MISSING)
    case Some(v) =>
      match AsInteger(p.decimal, v)
      case None => Unresolved(ClassUIDWrongType, CLASS_UID_WRONG_TYPE)
      case Some(uid) =>
        if uid in p.classes then Resolved(p.classes[uid]) else Unresolved(ClassUIDUnknown, CLASS_UID_UNKNOWN)
  }

  /** The string entries of metadata.profiles. */
  function EventProfiles(event: Item): set<string> {
    if "metadata" in event && event["metadata"].Obj? && "profiles" in event["metadata"].fields
       && event["metadata"].fields["profiles"].Arr? then
      set v | v in event["metadata"].fields["profiles"].elems && v.Str? :: v.text
    else {}
  }

  // ----- Removing observables -----

  function IssueOf(problem: Problem): Option<IssueCode> {
    match problem
    case ArrayWrongType => Some(ObservableArrayWrongType)
    case ElementWrongType => Some(ObservableElementWrongType)
    case NameMissing => Some(ObservableNameMissing)
    case NameWrongType => Some(ObservableNameWrongType)
    case NameInvalidSyntax => Some(ObservableNameInvalidSyntax)
    case NameInvalidReference => Some(ObservableNameInvalidReference)
    case PathNotFound => Some(ObservablePathNotFound)
    case PathNotObject => Some(ObservablePathNotObject)
    case ValueWrongType => Some(ObservableValueWrongType)
    case ValueNotFound => Some(ObservableValueNotFound)
    case _ => None
  }

  function EntryIssues(entry: Entry): seq<Effect> {
    if entry.problem == BoundaryReached then [ReachLimit]
    else if IssueOf(entry.problem).Some? then [Raise(IssueOf(entry.problem).value)] else []
  }

  function AllIssues(entries: seq<Entry>): seq<Effect> {
    if entries == [] then [] else AllIssues(entries[..|entries| - 1]) + EntryIssues(entries[|entries| - 1])
  }

  /** Takes the redundant entries out, and the attribute with the last of them. */
  function RemoveSafely(c: Ctx, item: Item): Outcome {
    match Slot(item, OBSERVABLES)
    case None => Outcome(item, [])
    case Some(v) =>
      var entries := EntriesOf(item, v, ScopeOf(c));
      if v == Null then Outcome(Without(item, OBSERVABLES), [])
      else if !v.Arr? then Outcome(item, AllIssues(entries) + [ObservablesRetained(1)])
      else
        var removed, retained := Keep(v.elems, Flags(entries)), Keep(v.elems, Not(Flags(entries)));
        Outcome(if retained == [] then Without(item, OBSERVABLES) else item[OBSERVABLES := Arr(retained)],
                AllIssues(entries) + [ObservablesRemoved(|removed|), ObservablesRetained(|retained|)])
  }

  function RemoveForcibly(item: Item): Outcome {
    match Slot(item, OBSERVABLES)
    case None => Outcome(item, [])
    case Some(v) =>
      Outcome(Without(item, OBSERVABLES), if v.Arr? then [ObservablesRemoved(|v.elems|)] else [])
  }

  function RemoveObservables(c: Ctx, item: Item): Outcome {
    match c.observables
    case Remove => RemoveSafely(c, item)
    case ForceRemove => RemoveForcibly(item)
    case _ => Outcome(item, [])
  }

  /** Removal waits for the walk whenever the walk changes enum siblings. */
  predicate Deferred(c: Ctx) {
    c.enums != NoAction
  }

  predicate RequiresWalk(c: Ctx) {
    c.enums != NoAction || c.observables == Add || c.validating
  }

  // ----- Adding observables -----

  /** The entry written for one observation. */
  function EntryFor(p: Pipeline, e: Effect): Value
    requires e.Observe?
  {
    var described := map["name" := Str(EP.Render(e.path, p.style)), "type_id" := Int(e.typeID)];
    var valued := if e.text.Some? then described["value" := Str(e.text.value)] else described;
    Obj(if p.enums == Add && e.typeID in p.typeNames then valued["type" := Str(p.typeNames[e.typeID])] else valued)
  }

  function Observations(trace: seq<Effect>): (r: seq<Effect>)
    ensures forall e | e in r :: e.Observe? && e in trace
  {
    if trace == [] then []
    else Observations(trace[..|trace| - 1]) + if trace[|trace| - 1].Observe? then [trace[|trace| - 1]] else []
  }

  function EntriesFor(p: Pipeline, observed: seq<Effect>): (r: seq<Value>)
    requires forall e | e in observed :: e.Observe?
    ensures |r| == |observed|
  {
    seq(|observed|, i requires 0 <= i < |observed| => EntryFor(p, observed[i]))
  }

  /** `start` is where the entries of this run begin, when validation may rely on it. */
  datatype Added = Added(item: Item, trace: seq<Effect>, start: Option<nat>)

  function AddTo(decimal: Decimal, item: Item, existing: Option<seq<Value>>, generated: seq<Value>): Added {
    if generated == [] then Added(item, [], None)
    else if existing == None && |generated| == 1 then
      Added(item[OBSERVABLES := Arr(generated)], [ObservablesAdded(1)], Some(0))
    else
      var prior := if existing.Some? then existing.value else [];
      var accepted := Keep(generated, Fresh(decimal, prior, generated));
      var skipped := seq(|generated| - |accepted|, _ => Raise(ObservableDuplicateSkipped));
      if accepted == [] then Added(item, skipped, None)
      else Added(item[OBSERVABLES := Arr(prior + accepted)], skipped + [ObservablesAdded(|accepted|)],
                 if existing.Some? then Some(|prior|) else None)
  }

  function AddObservables(decimal: Decimal, item: Item, generated: seq<Value>): Added {
    match Slot(item, OBSERVABLES)
    case None => AddTo(decimal, item, None, generated)
    case Some(Null) => AddTo(decimal, Without(item, OBSERVABLES), None, generated)
    case Some(Arr(elems)) =>
      if elems == [] then AddTo(decimal, Without(item, OBSERVABLES), None, generated)
      else AddTo(decimal, item, Some(elems), generated)
    case Some(_) => Added(item, if generated != [] then [Raise(ObservablesNotAddedWrongType)] else [], None)
  }

  /** The entries an event already holds. */
  function Prior(item: Item): seq<Value> {
    if Slot(item, OBSERVABLES).Some? && item[OBSERVABLES].Arr? then item[OBSERVABLES].elems else []
  }

  /** The event's observables are neither absent, null nor an array: entries can neither be added nor removed. */
  predicate WrongType(item: Item) {
    Slot(item, OBSERVABLES).Some? && item[OBSERVABLES] != Null && !item[OBSERVABLES].Arr?
  }

  /** The generated entries that reach the event. */
  function Appended(decimal: Decimal, item: Item, generated: seq<Value>): seq<Value> {
    if WrongType(item) then [] else Keep(generated, Fresh(decimal, Prior(item), generated))
  }

  /** In all cases of the event's observables the appended entries follow the prior ones, and trust starts at them. */
  lemma AddedAfterPrior(decimal: Decimal, item: Item, generated: seq<Value>)
    ensures var added, all := AddObservables(decimal, item, generated), Prior(item) + Appended(decimal, item, generated);
      && (WrongType(item) ==> added.item == item && added.start == None)
      && (!WrongType(item) ==> Slot(added.item, OBSERVABLES) == if all == [] then None else Some(Arr(all)))
      && (added.start.Some? ==> added.start.value == |Prior(item)|)
      && (added.start.Some? <==>
            Appended(decimal, item, generated) != [] && (Prior(item) != [] || |generated| == 1))
  {
    hide Keep, Fresh, AddTo;
    if !WrongType(item) {
      var appended := Appended(decimal, item, generated);
      if Prior(item) == [] {
        assert [] + appended == appended;
        if Slot(item, OBSERVABLES) == None {
          AddedToNothing(decimal, item, generated);
        }
        AddedToNothing(decimal, Without(item, OBSERVABLES), generated);
      } else {
        AddedToSome(decimal, item, Prior(item), generated);
      }
    }
  }

  lemma AddedToNothing(decimal: Decimal, item: Item, generated: seq<Value>)
    requires Slot(item, OBSERVABLES) == None
    ensures var added, kept := AddTo(decimal, item, None, generated), Keep(generated, Fresh(decimal, [], generated));
      && Slot(added.item, OBSERVABLES) == (if kept == [] then None else Some(Arr(kept)))
      && (added.start.Some? ==> added.start.value == 0)
      && (added.start.Some? <==> kept != [] && |generated| == 1)
  {
    FirstIsFresh(decimal, generated);
    var kept := Keep(generated, Fresh(decimal, [], generated));
    assert generated == [] ==> kept == [];
    hide Fresh, Keep;
    assert [] + kept == kept;
  }

  lemma AddedToSome(decimal: Decimal, item: Item, prior: seq<Value>, generated: seq<Value>)
    requires Slot(item, OBSERVABLES) == Some(Arr(prior)) && prior != []
    ensures var added, kept := AddTo(decimal, item, Some(prior), generated), Keep(generated, Fresh(decimal, prior, generated));
      && Slot(added.item, OBSERVABLES) == Some(Arr(prior + kept))
      && (added.start.Some? ==> added.start.value == |prior|)
      && (added.start.Some? <==> kept != [])
  {
    if generated != [] {
      hide Fresh, Keep;
    }
    assert prior + [] == prior;
  }

  /** Into no prior entries the first generated one always goes; a lone one goes in as it is. */
  lemma FirstIsFresh(decimal: Decimal, generated: seq<Value>)
    ensures |generated| == 1 ==> Keep(generated, Fresh(decimal, [], generated)) == generated
    ensures generated != [] ==> Keep(generated, Fresh(decimal, [], generated)) != []
  {
    hide Identify, Keep, Fresh;
    if generated != [] {
      var flags := Fresh(decimal, [], generated);
      FirstFlag(decimal, generated);
      KeepMember(generated, flags, generated[0]);
      if |generated| == 1 {
        KeepAll(generated, flags);
      }
    }
  }

  lemma FirstFlag(decimal: Decimal, generated: seq<Value>)
    requires generated != []
    ensures Fresh(decimal, [], generated)[0]
  {
    hide Identify;
    assert [] + generated[..0] == [];
  }

  // ----- Validating observables -----

  function CodeOf(problem: Problem): Option<Code> {
    match problem
    case NameInvalidSyntax => Some(OBSERVABLE_NAME_INVALID_SYNTAX)
    case NameInvalidReference => Some(OBSERVABLE_NAME_INVALID_REFERENCE)
    case PathNotFound => Some(OBSERVABLE_PATH_NOT_FOUND)
    case PathNotObject => Some(OBSERVABLE_PATH_NOT_OBJECT)
    case ValueNotFound => Some(OBSERVABLE_VALUE_NOT_FOUND)
    case _ => None
  }

  function NotationFinding(c: Ctx, preferred: EP.Style, path: Name): seq<Effect> {
    if UsesNotation(path, preferred, c.cat.objects, c.cls.item) then [] else [Find(OBSERVABLE_NAME_PATH_NOTATION)]
  }

  function EntryFindings(c: Ctx, preferred: Option<EP.Style>, entry: Entry): seq<Effect> {
    if entry.problem == BoundaryReached then [ReachLimit]
    else
      (if preferred.Some? && entry.path.Some? then NotationFinding(c, preferred.value, entry.path.value) else [])
      + if CodeOf(entry.problem).Some? then [Find(CodeOf(entry.problem).value)] else []
  }

  function AllFindings(c: Ctx, preferred: Option<EP.Style>, entries: seq<Entry>): seq<Effect> {
    if entries == [] then []
    else AllFindings(c, preferred, entries[..|entries| - 1]) + EntryFindings(c, preferred, entries[|entries| - 1])
  }

  /** The notation check of the trusted entries, made only when the notations differ. */
  function SuffixNotation(c: Ctx, preferred: EP.Style, raws: seq<Value>): seq<Effect> {
    if raws == [] then []
    else SuffixNotation(c, preferred, raws[..|raws| - 1]) + RawNotation(c, preferred, raws[|raws| - 1])
  }

  function RawNotation(c: Ctx, preferred: EP.Style, raw: Value): seq<Effect> {
    if !raw.Obj? || Slot(raw.fields, "name") == None || !raw.fields["name"].Str? then []
    else
      match ReadName(raw.fields["name"].text)
      case Err(_) => []
      case Ok(path) => NotationFinding(c, preferred, path)
  }

  function ValidateObservables(c: Ctx, preferred: Option<EP.Style>, event: Item, start: Option<nat>): seq<Effect> {
    match Attribute(event, OBSERVABLES)
    case None => []
    case Some(v) =>
      var entries := EntriesOf(event, v, ScopeOf(c));
      if start.Some? && v.Arr? && start.value < |v.elems| then
        AllFindings(c, preferred, entries[..start.value])
        + if preferred.Some? && preferred.value != c.style then SuffixNotation(c, preferred.value, v.elems[start.value..]) else []
      else AllFindings(c, preferred, entries)
  }

  // ----- The run -----

  ghost function WalkEvent(c: Ctx, item: Item): Outcome
    requires Ready(c)
  {
    if RequiresWalk(c) then VisitItem(c, item, c.cls.item, []) else Outcome(item, [])
  }

  ghost predicate Usable(p: Pipeline) {
    forall uid, profiles | uid in p.classes :: Ready(ContextOf(p, p.classes[uid], profiles))
  }

  // The stages of a run after class resolution.

  function Begun(c: Ctx, event: Item): Outcome {
    if Deferred(c) then Outcome(event, []) else RemoveObservables(c, event)
  }

  ghost function Walked(c: Ctx, event: Item): Outcome
    requires Ready(c)
  {
    WalkEvent(c, Begun(c, event).item)
  }

  ghost function Closed(c: Ctx, event: Item): Outcome
    requires Ready(c)
  {
    var walked := Walked(c, event).item;
    if Deferred(c) then RemoveObservables(c, walked) else Outcome(walked, [])
  }

  ghost function Generated(p: Pipeline, c: Ctx, event: Item): seq<Value>
    requires Ready(c)
  {
    EntriesFor(p, Observations(Walked(c, event).trace))
  }

  ghost function Finished(p: Pipeline, c: Ctx, event: Item): Added
    requires Ready(c)
  {
    var closed := Closed(c, event).item;
    if c.observables == Add then AddObservables(c.decimal, closed, Generated(p, c, event)) else Added(closed, [], None)
  }

  ghost function Process(p: Pipeline, c: Ctx, event: Item): Outcome
    requires Ready(c)
  {
    var begun, walked, closed, finished := Begun(c, event), Walked(c, event), Closed(c, event), Finished(p, c, event);
    Outcome(finished.item,
      begun.trace + Judged(c, OnClass, [], begun.item, Null)
      + walked.trace + closed.trace + Judged(c, OnClassDone, [], closed.item, Null)
      + finished.trace + Judged(c, OnEventDone, [], finished.item, Null)
      + if c.validating then ValidateObservables(c, p.preferred, finished.item, finished.start) else [])
  }

  ghost function ProcessEvent(p: Pipeline, event: Item): Outcome
    requires Usable(p)
  {
    match ResolveClass(p, event)
    case Unresolved(issue, code) => Outcome(event, (if p.validating then [Find(code)] else []) + [Raise(issue)])
    case Resolved(cls) => Process(p, ContextOf(p, cls, EventProfiles(event)), event)
  }

  // ----- What a run never touches -----

  ghost predicate SameOutsideObservables(a: Item, b: Item) {
    forall key | key != OBSERVABLES :: Slot(a, key) == Slot(b, key)
  }

  lemma RemovalOnlyObservables(c: Ctx, item: Item)
    ensures SameOutsideObservables(item, RemoveObservables(c, item).item)
  {
    hide Keep, AllIssues, EntriesOf;
  }

  lemma AdditionOnlyObservables(decimal: Decimal, item: Item, generated: seq<Value>)
    ensures SameOutsideObservables(item, AddObservables(decimal, item, generated).item)
  {
    hide Keep, Fresh;
  }
}
