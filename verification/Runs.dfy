/** What whole runs find and remove: the stages of a run, told from what each of them asks or takes away. */
module Runs {
  import opened Text
  import opened Values
  import opened Walk
  import opened Analysis
  import opened Collection
  import opened Run
  import opened Judgements
  import opened Configured

  // ----- Findings -----

  /** A run that validates asks of the event before the walk, all along it, after it and at the very end, and looks at the
      observables last; what it finds are these answers, and one that does not validate finds nothing. */
  lemma RunFinds(p: Pipeline, c: Ctx, event: Item, code: Code)
    requires Ready(c)
    ensures Known(c, c.cls.item)
    ensures var begun, closed, finished := Begun(c, event).item, Closed(c, event).item, Finished(p, c, event);
      var found := Find(code) in Process(p, c, event).trace;
      var asked := || code in c.judge(OnClass, [], begun, Null) || code in c.judge(OnClassDone, [], closed, Null)
                   || code in c.judge(OnEventDone, [], finished.item, Null)
                   || Find(code) in ValidateObservables(c, p.preferred, finished.item, finished.start);
      && (found ==> c.validating && (asked || Answered(c, c.cls.item, begun, [], code, false)))
      && (c.validating && (asked || Answered(c, c.cls.item, begun, [], code, true)) ==> found)
  {
    hide Ready, Known, RemoveObservables, AddObservables, ValidateObservables, Judged, Answered, Generated, VisitItem;
    ClassKnown(c);
    var begun, closed, finished := Begun(c, event), Closed(c, event), Finished(p, c, event);
    FoundExactly(c, begun.item, c.cls.item, [], code);
    JudgedFinds(c, OnClass, [], begun.item, code);
    JudgedFinds(c, OnClassDone, [], closed.item, code);
    JudgedFinds(c, OnEventDone, [], finished.item, code);
    RemovalFindless(c, event);
    RemovalFindless(c, Walked(c, event).item);
    AdditionFindless(c, closed.item, Generated(p, c, event));
  }

  lemma JudgedFinds(c: Ctx, hook: Hook, at: Elems, item: Item, code: Code)
    ensures Find(code) in Judged(c, hook, at, item, Null) <==> c.validating && code in c.judge(hook, at, item, Null)
  {
    var codes := c.judge(hook, at, item, Null);
    if c.validating && code in codes {
      var i: nat :| i < |codes| && codes[i] == code;
      assert Judged(c, hook, at, item, Null)[i] == Find(code);
    }
  }

  predicate Findless(trace: seq<Effect>) {
    forall e | e in trace :: !e.Find?
  }

  lemma {:induction false} IssuesFindless(entries: seq<Entry>)
    ensures Findless(AllIssues(entries))
  {
    if entries != [] {
      IssuesFindless(entries[..|entries| - 1]);
    }
  }

  lemma RemovalFindless(c: Ctx, item: Item)
    ensures Findless(RemoveObservables(c, item).trace)
  {
    hide AllIssues, EntriesOf, Keep, Flags;
    if Slot(item, OBSERVABLES).Some? {
      IssuesFindless(EntriesOf(item, item[OBSERVABLES], ScopeOf(c)));
    }
  }

  lemma AdditionFindless(c: Ctx, item: Item, generated: seq<Value>)
    ensures Findless(AddObservables(c.decimal, item, generated).trace)
  {
    hide Keep, Fresh;
  }

  // ----- Removal -----

  /** The effects of a run that come from neither the walk, the hooks nor the validation of observables. */
  function OnItsOwn(trace: seq<Effect>): seq<Effect> {
    if trace == [] then []
    else OnItsOwn(trace[..|trace| - 1]) + if OfRun(trace[|trace| - 1]) then [trace[|trace| - 1]] else []
  }

  lemma {:induction false} OwnAppend(a: seq<Effect>, b: seq<Effect>)
    ensures OnItsOwn(a + b) == OnItsOwn(a) + OnItsOwn(b)
  {
    hide OfRun;
    if b == [] {
      assert a + b == a;
    } else {
      var n := |b| - 1;
      assert (a + b)[..|a| + n] == a + b[..n];
      OwnAppend(a, b[..n]);
    }
  }

  lemma {:induction false} NoneOwn(trace: seq<Effect>)
    requires forall e | e in trace :: !OfRun(e)
    ensures OnItsOwn(trace) == []
  {
    hide OfRun;
    if trace != [] {
      NoneOwn(trace[..|trace| - 1]);
    }
  }

  /** A run that removes observables tells of one removal: of the event as it came when enum siblings are left alone, and
      of the event as the walk leaves it when they are not. */
  lemma RemovedOnce(p: Pipeline, c: Ctx, event: Item)
    requires Ready(c) && c.observables in {Remove, ForceRemove}
    ensures Known(c, c.cls.item)
    ensures var at := if c.enums == NoAction then event else VisitItem(c, event, c.cls.item, []).item;
      OnItsOwn(Process(p, c, event).trace) == OnItsOwn(RemoveObservables(c, at).trace)
  {
    hide Ready, Known, RemoveObservables, VisitItem, OnItsOwn, Process;
    ClassKnown(c);
    StagesOwn(p, c, event);
    NoneOwn([]);
  }

  /** A run that adds them tells of one addition, and one that does neither of nothing. */
  lemma AddedOnce(p: Pipeline, c: Ctx, event: Item)
    requires Ready(c) && c.observables in {Add, NoAction}
    ensures OnItsOwn(Process(p, c, event).trace) == if c.observables == Add then Finished(p, c, event).trace else []
  {
    hide Ready, AddObservables, Walked, OnItsOwn, Process, Generated, OfRun;
    StagesOwn(p, c, event);
    NoneOwn([]);
    if c.observables == Add {
      AdditionOwn(c, Closed(c, event).item, Generated(p, c, event));
    }
  }

  lemma {:induction false} AllOwn(trace: seq<Effect>)
    requires forall e | e in trace :: OfRun(e)
    ensures OnItsOwn(trace) == trace
  {
    hide OfRun;
    if trace != [] {
      AllOwn(trace[..|trace| - 1]);
      InitAndLast(trace);
    }
  }

  lemma AdditionOwn(c: Ctx, item: Item, generated: seq<Value>)
    ensures OnItsOwn(AddObservables(c.decimal, item, generated).trace) == AddObservables(c.decimal, item, generated).trace
  {
    hide Keep, Fresh, OnItsOwn;
    AllOwn(AddObservables(c.decimal, item, generated).trace);
  }

  lemma StagesOwn(p: Pipeline, c: Ctx, event: Item)
    requires Ready(c)
    ensures OnItsOwn(Process(p, c, event).trace)
      == OnItsOwn(Begun(c, event).trace) + OnItsOwn(Closed(c, event).trace) + OnItsOwn(Finished(p, c, event).trace)
  {
    hide Ready, Known, RemoveObservables, AddObservables, ValidateObservables, Judged, VisitFrom, OnItsOwn, OfRun, ByWalk;
    hide Generated;
    ClassKnown(c);
    KnownOrder(c, c.cls.item);
    var begun, walked, closed, finished := Begun(c, event), Walked(c, event), Closed(c, event), Finished(p, c, event);
    if RequiresWalk(c) {
      WalkAsked(c, begun.item, c.cls.item, c.cls.item.ordered, []);
    }
    NotByWalk(c, walked.trace);
    JudgedOwn(c, OnClass, begun.item);
    JudgedOwn(c, OnClassDone, closed.item);
    JudgedOwn(c, OnEventDone, finished.item);
    var rest := if c.validating then ValidateObservables(c, p.preferred, finished.item, finished.start) else [];
    if c.validating {
      ValidationAsked(c, p.preferred, finished.item, finished.start);
    }
    NotByWalk(c, rest);
    EightOwn(begun.trace, Judged(c, OnClass, [], begun.item, Null), walked.trace, closed.trace,
             Judged(c, OnClassDone, [], closed.item, Null), finished.trace, Judged(c, OnEventDone, [], finished.item, Null),
             rest);
  }

  lemma NotByWalk(c: Ctx, trace: seq<Effect>)
    requires AllByWalk(c, trace)
    ensures OnItsOwn(trace) == []
  {
    hide AskedFor, OfRun, OnItsOwn;
    NoneOwn(trace);
  }

  lemma JudgedOwn(c: Ctx, hook: Hook, item: Item)
    ensures OnItsOwn(Judged(c, hook, [], item, Null)) == []
  {
    hide Judged, OnItsOwn, ByWalk;
    JudgedAsked(c, hook, [], item, Null);
    NotByWalk(c, Judged(c, hook, [], item, Null));
  }

  lemma EightOwn(begun: seq<Effect>, a: seq<Effect>, walked: seq<Effect>, closed: seq<Effect>, b: seq<Effect>,
                 finished: seq<Effect>, d: seq<Effect>, rest: seq<Effect>)
    requires OnItsOwn(a) == [] && OnItsOwn(walked) == [] && OnItsOwn(b) == [] && OnItsOwn(d) == [] && OnItsOwn(rest) == []
    ensures OnItsOwn(begun + a + walked + closed + b + finished + d + rest)
      == OnItsOwn(begun) + OnItsOwn(closed) + OnItsOwn(finished)
  {
    hide OnItsOwn;
    OwnAppend(begun, a);
    OwnAppend(begun + a, walked);
    OwnAppend(begun + a + walked, closed);
    OwnAppend(begun + a + walked + closed, b);
    OwnAppend(begun + a + walked + closed + b, finished);
    OwnAppend(begun + a + walked + closed + b + finished, d);
    OwnAppend(begun + a + walked + closed + b + finished + d, rest);
  }
}
