/** The whole engine: class resolution, the mutations, the walk and validation over one event. */
module Engine {
  import opened Text
  import opened Values
  import opened Observability
  import opened Walk
  import opened Run
  import opened Mutations
  import opened Reporting
  import opened Context
  import opened Dispatch
  import opened EventDone
  import Process
  import CT = ClassTrie

  /** The entries accumulated by some effects. */
  lemma {:induction false} ObservedEntries(p: Pipeline, r: Reporter, s: Report, trace: seq<Effect>)
    ensures Apply(p, r, s, trace).observables == s.observables + EntriesFor(p, Observations(trace))
  {
    hide EntryFor, Step, EntriesFor;
    if trace == [] {
      NoEntries(p);
      assert s.observables + [] == s.observables;
    } else {
      var n := |trace| - 1;
      ObservedEntries(p, r, s, trace[..n]);
      StepObserves(p, r, Apply(p, r, s, trace[..n]), trace[n]);
      var before := Observations(trace[..n]);
      if trace[n].Observe? {
        EntriesAppend(p, before, trace[n]);
        Associative(s.observables, EntriesFor(p, before), [EntryFor(p, trace[n])]);
      } else {
        assert before + [] == before;
      }
    }
  }

  lemma NoEntries(p: Pipeline)
    ensures EntriesFor(p, []) == []
  {
  }

  lemma EntriesAppend(p: Pipeline, observed: seq<Effect>, e: Effect)
    requires e.Observe? && forall x | x in observed :: x.Observe?
    ensures EntriesFor(p, observed + [e]) == EntriesFor(p, observed) + [EntryFor(p, e)]
  {
    hide EntryFor;
  }

  lemma StepObserves(p: Pipeline, r: Reporter, s: Report, e: Effect)
    ensures Step(p, r, s, e).observables == if e.Observe? then s.observables + [EntryFor(p, e)] else s.observables
  {
    hide EntryFor, Suppresses;
  }

  lemma {:induction false} ObservationsAppend(a: seq<Effect>, b: seq<Effect>)
    ensures Observations(a + b) == Observations(a) + Observations(b)
  {
    if b == [] {
      assert a + b == a;
    } else {
      var n := |b| - 1;
      assert (a + b)[..|a + b| - 1] == a + b[..n];
      ObservationsAppend(a, b[..n]);
    }
  }

  lemma {:induction false} NothingObserved(trace: seq<Effect>)
    requires forall e | e in trace :: !e.Observe?
    ensures Observations(trace) == []
  {
    if trace != [] {
      NothingObserved(trace[..|trace| - 1]);
    }
  }

  lemma JudgedObservesNothing(c: Ctx, hook: Hook, path: Elems, item: Item, v: Value)
    ensures Observations(Judged(c, hook, path, item, v)) == []
  {
    NothingObserved(Judged(c, hook, path, item, v));
  }

  /** When observables are added, everything before the event is done and outside the walk observes nothing. */
  lemma OnlyWalkObserves(p: Pipeline, c: Ctx, event: Item)
    requires Ready(c) && c.observables == Add
    ensures Observations(BeforeDone(c, event)) == Observations(Walked(c, event).trace)
  {
    hide Ready, WalkEvent, Judged, Observations;
    var begun, walked, closed := Begun(c, event), Walked(c, event), Closed(c, event);
    var judged, done := Judged(c, OnClass, [], begun.item, Null), Judged(c, OnClassDone, [], closed.item, Null);
    JudgedObservesNothing(c, OnClass, [], begun.item, Null);
    JudgedObservesNothing(c, OnClassDone, [], closed.item, Null);
    NothingObserved([]);
    ObservationsAppend(begun.trace, judged);
    ObservationsAppend(begun.trace + judged, walked.trace);
    ObservationsAppend(begun.trace + judged + walked.trace, closed.trace);
    ObservationsAppend(begun.trace + judged + walked.trace + closed.trace, done);
  }

  ghost function BeforeDone(c: Ctx, event: Item): seq<Effect>
    requires Ready(c)
  {
    var begun, walked, closed := Begun(c, event), Walked(c, event), Closed(c, event);
    begun.trace + Judged(c, OnClass, [], begun.item, Null)
    + walked.trace + closed.trace + Judged(c, OnClassDone, [], closed.item, Null)
  }

  /** Up to the completed class. */
  method ProcessClass(ctx: ProcessContext, event: Item, requiresEventWalk: bool) returns (r: Item)
    requires ctx.Valid() && Ready(ctx.c) && ctx.At() == []
    requires requiresEventWalk <==> RequiresWalk(ctx.c)
    modifies ctx.Repr()
    ensures ctx.Valid() && ctx.At() == [] && r == Closed(ctx.c, event).item
    ensures ctx.State() == ctx.After(old(ctx.State()), BeforeDone(ctx.c, event))
  {
    hide ProcessContext.After, Ready, RemoveObservables, Walk.VisitItem, Known;
    ghost var before, c := ctx.State(), ctx.c;
    ghost var begun, walked, closed := Begun(c, event), Walked(c, event), Closed(c, event);
    ghost var judged, done := Judged(c, OnClass, [], begun.item, Null), Judged(c, OnClassDone, [], closed.item, Null);
    Onward(ctx, before, begun.trace, judged);
    Onward(ctx, before, begun.trace + judged, walked.trace);
    Onward(ctx, before, begun.trace + judged + walked.trace, closed.trace);
    Onward(ctx, before, begun.trace + judged + walked.trace + closed.trace, done);
    r := DispatchClass(ctx, event, false);
    ctx.Judge(OnClass, r, Null);
    hide Judged;
    if requiresEventWalk {
      ClassKnown(c);
      r := Process.VisitItem(ctx, r, ctx.c.cls.item);
      r := DispatchClass(ctx, r, true);
      ctx.Judge(OnClassDone, r, Null);
    } else {
      Onward(ctx, ctx.State(), [], []);
      NotJudged(c, OnClassDone, [], r, Null);
    }
  }

  lemma NotJudged(c: Ctx, hook: Hook, path: Elems, item: Item, v: Value)
    ensures !c.validating ==> Judged(c, hook, path, item, v) == []
  {
  }

  /** The event-done hook of every dispatcher. */
  method DispatchEventDone(ctx: ProcessContext, event: Item) returns (r: Item, start: Option<nat>)
    requires ctx.Valid()
    modifies ctx.result
    ensures ctx.Valid()
    ensures var added := AddObservables(ctx.c.decimal, event, ctx.observables);
      if ctx.c.observables == Add
      then Added(r, added.trace, start) == added && ctx.State() == ctx.After(old(ctx.State()), added.trace)
      else r == event && start == None && ctx.State() == old(ctx.State())
  {
    hide ProcessContext.After, HandlesSiblings, HandlesObservables, Serves, AddObservables;
    var ds := ctx.mutations;
    ghost var before, added := ctx.State(), AddObservables(ctx.c.decimal, event, ctx.observables);
    AllOfThem(ds, ctx.c.enums, ctx.c.observables);
    r, start := event, None;
    for i := 0 to |ds|
      invariant ctx.Valid()
      invariant if HandlesObservables(ds[..i]) && ctx.c.observables == Add
        then Added(r, added.trace, start) == added && ctx.State() == ctx.After(before, added.trace)
        else r == event && start == None && ctx.State() == before
    {
      OneMore(ds, i, ctx.c.enums, ctx.c.observables);
      if ds[i].action == Add && ds[i].observables {
        r, start := EventDone.OnEventDone(ctx, r);
      }
    }
  }

  /** A resolved event, through to its validation. */
  method ProcessResolved(ctx: ProcessContext, event: Item, requiresEventWalk: bool) returns (r: Item)
    requires ctx.Valid() && Ready(ctx.c) && ctx.At() == [] && ctx.State() == EMPTY
    requires requiresEventWalk <==> RequiresWalk(ctx.c)
    modifies ctx.Repr()
    ensures ctx.Valid() && r == Run.Process(ctx.p, ctx.c, event).item
    ensures ctx.State() == ctx.After(EMPTY, Run.Process(ctx.p, ctx.c, event).trace)
  {
    hide ProcessContext.After, Ready, BeforeDone, Walked, Begun, Closed, AddObservables, ValidateObservables, Judged;
    ghost var c := ctx.c;
    ghost var before, finished := BeforeDone(c, event), Finished(ctx.p, c, event);
    ghost var judged := Judged(c, OnEventDone, [], finished.item, Null);
    ghost var checked := if c.validating then ValidateObservables(c, ctx.p.preferred, finished.item, finished.start) else [];
    Onward(ctx, EMPTY, before, finished.trace);
    Onward(ctx, EMPTY, before + finished.trace, judged);
    Onward(ctx, EMPTY, before + finished.trace + judged, checked);
    assert Run.Process(ctx.p, c, event).trace == before + finished.trace + judged + checked by { hide *; ProcessTrace(ctx.p, c, event); }
    var closed := ProcessClass(ctx, event, requiresEventWalk);
    if c.observables == Add {
      OnlyWalkObserves(ctx.p, c, event);
      StateEntries(ctx, before);
    }
    Onward(ctx, ctx.State(), [], []);
    var start;
    r, start := DispatchEventDone(ctx, closed);
    ctx.Judge(OnEventDone, r, Null);
    if ctx.c.validating {
      ValidateEventObservables(ctx, r, start);
    } else {
      Onward(ctx, ctx.State(), [], []);
    }
  }

  lemma ProcessTrace(p: Pipeline, c: Ctx, event: Item)
    requires Ready(c)
    ensures var finished := Finished(p, c, event);
      && Run.Process(p, c, event).item == finished.item
      && Run.Process(p, c, event).trace == BeforeDone(c, event) + finished.trace
           + Judged(c, OnEventDone, [], finished.item, Null)
           + if c.validating then ValidateObservables(c, p.preferred, finished.item, finished.start) else []
  {
    hide Ready, Walked, Begun, Closed, AddObservables, ValidateObservables, Judged, Finished;
  }

  lemma StateEntries(ctx: ProcessContext, trace: seq<Effect>)
    requires ctx.State() == ctx.After(EMPTY, trace)
    ensures ctx.observables == EntriesFor(ctx.p, Observations(trace))
  {
    hide Apply;
    ObservedEntries(ctx.p, ctx.result.reporter, EMPTY, trace);
    var entries := EntriesFor(ctx.p, Observations(trace));
    assert [] + entries == entries;
  }

  /** Processes one event: the event it leaves and everything it reports are those of the run, whatever the dispatchers'
      order of work inside it, and however issues and findings are reported. */
  method ProcessEvent(p: Pipeline, mutations: seq<Dispatcher>, requiresEventWalk: bool, reporter: Reporter, event: Item)
    returns (r: Item, report: Report)
    requires Usable(p) && Serves(mutations, p.enums, p.observables)
    requires requiresEventWalk <==> p.enums != NoAction || p.observables == Add || p.validating
    ensures r == Run.ProcessEvent(p, event).item
    ensures report == Apply(p, reporter, EMPTY, Run.ProcessEvent(p, event).trace)
  {
    hide Usable, Serves, Run.Process, Apply;
    var result := new Result(reporter);
    var resolution := ResolveClass(p, event);
    match resolution
    case Unresolved(issue, code) =>
      r := event;
      report := Stop(p, result, issue, code);
    case Resolved(cls) =>
      var c := ContextOf(p, cls, EventProfiles(event));
      ContextReady(p, event);
      var trie; ghost var decls;
      trie, decls := CT.CompileClassObservableTrie(cls.observables, p.allowed);
      var generating := CompileObjectObservability(p.cat, p.allowed);
      var ctx := new ProcessContext(p, mutations, c, result, trie, decls, Some(generating));
      r := ProcessResolved(ctx, event, requiresEventWalk);
      report := ctx.Snapshot();
  }

  lemma ContextReady(p: Pipeline, event: Item)
    requires Usable(p) && ResolveClass(p, event).Resolved?
    ensures Ready(ContextOf(p, ResolveClass(p, event).cls, EventProfiles(event)))
  {
    hide Ready;
  }

  /** An event without a resolved class: a finding when validating, and a mandatory issue. */
  method Stop(p: Pipeline, result: Result, issue: IssueCode, code: Code) returns (report: Report)
    requires result.With([], false) == EMPTY && Mandatory(issue)
    modifies result
    ensures report == Apply(p, result.reporter, EMPTY, (if p.validating then [Find(code)] else []) + [Raise(issue)])
  {
    ghost var found := if p.validating then [Find(code)] else [];
    ApplyOne(p, result.reporter, EMPTY, Find(code));
    ApplyOne(p, result.reporter, Apply(p, result.reporter, EMPTY, found), Raise(issue));
    ApplyAppend(p, result.reporter, EMPTY, found, [Raise(issue)]);
    if p.validating {
      result.AddFinding(code);
    }
    result.AddProcessorIssue(issue);
    return Report([], false, result.counts, result.issues, result.suppressedIssues,
                  result.findings, result.suppressedErrors, result.suppressedWarnings);
  }

  /** One event processed twice, under any two suppressions and policies: the same event, the same observables and
      counts, as many issues and findings shown or withheld, and the same codes found but for those withheld. */
  method ProcessTwice(p: Pipeline, mutations: seq<Dispatcher>, requiresEventWalk: bool, a: Reporter, b: Reporter,
                      event: Item)
    returns (x: Item, rx: Report, y: Item, ry: Report)
    requires Usable(p) && Serves(mutations, p.enums, p.observables)
    requires requiresEventWalk <==> p.enums != NoAction || p.observables == Add || p.validating
    ensures x == y && rx.observables == ry.observables && rx.counts == ry.counts
    ensures |rx.issues| + rx.suppressedIssues == |ry.issues| + ry.suppressedIssues
    ensures |rx.findings| + rx.suppressedErrors + rx.suppressedWarnings
      == |ry.findings| + ry.suppressedErrors + ry.suppressedWarnings
    ensures a.table == b.table && a.policy == b.policy ==> rx.findings == ry.findings
    ensures Visible(CodesOf(rx.findings), b) == Visible(CodesOf(ry.findings), a)
    ensures a.suppression == CollectAll ==> ry.issues == Reporting.Unsuppressed(rx.issues, b.suppression)
  {
    hide Usable, Serves, Run.ProcessEvent, Apply, Raised;
    x, rx := ProcessEvent(p, mutations, requiresEventWalk, a, event);
    y, ry := ProcessEvent(p, mutations, requiresEventWalk, b, event);
    NonInterference(p, a, b, event);
    ghost var trace := Run.ProcessEvent(p, event).trace;
    IssuesReported(p, a, trace);
    IssuesReported(p, b, trace);
    if a.suppression == CollectAll {
      NothingWithheld(Raised(trace));
    }
  }

  lemma {:induction false} NothingWithheld(issues: seq<IssueCode>)
    ensures Reporting.Unsuppressed(issues, CollectAll) == issues
  {
    if issues != [] {
      NothingWithheld(issues[..|issues| - 1]);
      InitAndLast(issues);
    }
  }
}
