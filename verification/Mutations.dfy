/** Which mutation dispatchers a pipeline runs, and in what order. */
module Mutations {
  import opened Text
  import opened Walk

  /** One family member and the components it handles. */
  datatype Dispatcher = Dispatcher(action: Action, siblings: bool, observables: bool, deferred: bool)

  /** A dispatcher list realises two component actions: each component with an action is handled once, by that action;
      enum siblings never after observables; and an observables removal waits for the walk exactly when the walk
      changes enum siblings. */
  ghost predicate Serves(ds: seq<Dispatcher>, enums: Action, observables: Action) {
    && (forall d | d in ds ::
          && d.action != NoAction
          && (d.siblings ==> d.action == enums) && (d.observables ==> d.action == observables)
          && (d.observables && d.action != Add ==> (d.deferred <==> enums != NoAction)))
    && (enums != NoAction ==> exists d :: d in ds && d.siblings)
    && (observables != NoAction ==> exists d :: d in ds && d.observables)
    && (forall i, j | 0 <= i < j < |ds| :: !(ds[i].siblings && ds[j].siblings) && !(ds[i].observables && ds[j].observables))
    && (forall i, j | 0 <= i < j < |ds| :: !(ds[i].observables && ds[j].siblings))
  }

  datatype Built = Ok(dispatcher: Dispatcher) | UnsupportedAction

  method NewMutationDispatcher(action: Action, siblings: bool, observables: bool, deferred: bool) returns (r: Built)
    ensures r == if action == NoAction then UnsupportedAction
                 else Ok(Dispatcher(action, siblings, observables, action != Add && (deferred || (siblings && observables))))
  {
    match action
    case Add => return Ok(Dispatcher(Add, siblings, observables, false));
    case Remove => return Ok(Dispatcher(Remove, siblings, observables, deferred || (siblings && observables)));
    case ForceRemove => return Ok(Dispatcher(ForceRemove, siblings, observables, deferred || (siblings && observables)));
    case NoAction => return UnsupportedAction;
  }

  method OrderedMutationDispatchers(enumDispatcher: Option<Dispatcher>, observablesDispatcher: Option<Dispatcher>)
    returns (ds: seq<Dispatcher>)
    ensures ds == (if enumDispatcher.Some? then [enumDispatcher.value] else [])
                  + (if observablesDispatcher.Some? then [observablesDispatcher.value] else [])
  {
    ds := [];
    if enumDispatcher.Some? {
      ds := ds + [enumDispatcher.value];
    }
    if observablesDispatcher.Some? {
      ds := ds + [observablesDispatcher.value];
    }
  }

  /** For any two component actions the list built serves them; the walk is skipped only when nothing needs it. */
  method NewPipeline(enums: Action, observables: Action, validating: bool)
    returns (ds: seq<Dispatcher>, requiresEventWalk: bool)
    ensures Serves(ds, enums, observables)
    ensures requiresEventWalk <==> enums != NoAction || observables == Add || validating
  {
    requiresEventWalk := enums != NoAction || observables == Add || validating;
    var deferObservablesRemoval := enums != NoAction;
    ds := [];
    if enums == observables {
      if enums != NoAction {
        var built := NewMutationDispatcher(enums, true, true, false);
        ds := [built.dispatcher];
        assert built.dispatcher in ds;
      }
    } else {
      var enumDispatcher, observablesDispatcher: Option<Dispatcher> := None, None;
      if enums != NoAction {
        var built := NewMutationDispatcher(enums, true, false, false);
        enumDispatcher := Some(built.dispatcher);
      }
      if observables != NoAction {
        var built := NewMutationDispatcher(observables, false, true, deferObservablesRemoval);
        observablesDispatcher := Some(built.dispatcher);
      }
      ds := OrderedMutationDispatchers(enumDispatcher, observablesDispatcher);
      assert enumDispatcher.Some? ==> ds[0] == enumDispatcher.value && ds[0] in ds;
      assert observablesDispatcher.Some? ==> ds[|ds| - 1] == observablesDispatcher.value && ds[|ds| - 1] in ds;
    }
  }

  // ----- What some first dispatchers handle -----

  predicate HandlesSiblings(ds: seq<Dispatcher>) {
    exists d | d in ds :: d.siblings
  }

  predicate HandlesObservables(ds: seq<Dispatcher>) {
    exists d | d in ds :: d.observables
  }

  /** One more dispatcher of a serving list. */
  lemma OneMore(ds: seq<Dispatcher>, i: nat, enums: Action, observables: Action)
    requires Serves(ds, enums, observables) && i < |ds|
    ensures HandlesSiblings(ds[..i + 1]) == (HandlesSiblings(ds[..i]) || ds[i].siblings)
    ensures HandlesObservables(ds[..i + 1]) == (HandlesObservables(ds[..i]) || ds[i].observables)
    ensures ds[i].siblings ==> !HandlesSiblings(ds[..i]) && !HandlesObservables(ds[..i]) && ds[i].action == enums
    ensures ds[i].observables ==> !HandlesObservables(ds[..i]) && ds[i].action == observables
    ensures ds[i].observables ==> (enums != NoAction <==> HandlesSiblings(ds[..i + 1]))
    ensures ds[i].observables && ds[i].action != Add ==> (ds[i].deferred <==> enums != NoAction)
    ensures ds[i] in ds && ds[i].action != NoAction
  {
    assert ds[..i + 1] == ds[..i] + [ds[i]];
    assert ds[i] in ds;
    if ds[i].observables {
      if HandlesSiblings(ds[..i + 1]) {
        var d :| d in ds[..i + 1] && d.siblings;
        assert d in ds;
      }
      if enums != NoAction {
        var d :| d in ds && d.siblings;
        var j :| 0 <= j < |ds| && ds[j] == d;
        assert j <= i;
        assert ds[j] == ds[..i + 1][j];
      }
    }
  }

  lemma AllOfThem(ds: seq<Dispatcher>, enums: Action, observables: Action)
    requires Serves(ds, enums, observables)
    ensures ds[..|ds|] == ds && ds[..0] == []
    ensures !HandlesSiblings([]) && !HandlesObservables([])
    ensures HandlesSiblings(ds) <==> enums != NoAction
    ensures HandlesObservables(ds) <==> observables != NoAction
  {
  }
}
