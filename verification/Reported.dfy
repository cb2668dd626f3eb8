/** What a caller is told of a run, counted kind by kind. */
module Reported {
  import opened Text
  import opened Walk
  import opened Run
  import opened Reporting
  import Policy

  /** How often the effects raise an issue; reaching the traversal limit raises its issue, once however often it is
      reached. */
  function TimesRaised(trace: seq<Effect>, issue: IssueCode): nat {
    multiset(trace)[Raise(issue)] + if issue == EventTraversalLimited && ReachLimit in trace then 1 else 0
  }

  /** A caller sees an issue as often as it is raised, or not at all: the four that tell of events that were not fully
      processed always, the others unless all or they are withheld. */
  lemma IssueSeen(p: Pipeline, r: Reporter, trace: seq<Effect>, issue: IssueCode)
    ensures var seen, raised := multiset(Apply(p, r, EMPTY, trace).issues)[issue], TimesRaised(trace, issue);
      && (issue in {EventTraversalLimited, ClassUIDMissing, ClassUIDWrongType, ClassUIDUnknown} ==> seen == raised)
      && (r.suppression == CollectAll ==> seen == raised)
      && (issue !in {EventTraversalLimited, ClassUIDMissing, ClassUIDWrongType, ClassUIDUnknown} ==>
            && (r.suppression == SuppressAll ==> seen == 0)
            && (r.suppression.SuppressOnly? ==> seen == if issue in r.suppression.codes then 0 else raised))
  {
    hide Apply, Raised, Unsuppressed;
    IssuesReported(p, r, trace);
    RaisedTimes(trace, issue);
    SeenTimes(Raised(trace), r.suppression, issue);
  }

  lemma {:induction false} RaisedTimes(trace: seq<Effect>, issue: IssueCode)
    ensures multiset(Raised(trace))[issue] == TimesRaised(trace, issue)
  {
    if trace != [] {
      var n := |trace| - 1;
      RaisedTimes(trace[..n], issue);
      InitAndLast(trace);
      assert multiset(trace) == multiset(trace[..n]) + multiset{trace[n]};
    }
  }

  lemma {:induction false} SeenTimes(issues: seq<IssueCode>, s: IssueSuppression, issue: IssueCode)
    ensures multiset(Unsuppressed(issues, s))[issue] == if Suppresses(s, issue) then 0 else multiset(issues)[issue]
  {
    if issues != [] {
      var n := |issues| - 1;
      SeenTimes(issues[..n], s, issue);
      InitAndLast(issues);
      assert multiset(issues) == multiset(issues[..n]) + multiset{issues[n]};
    }
  }

  datatype Changed = OfAdded | OfRemoved | OfRetained

  /** The entries that the effects say were added, removed or retained, together. */
  function Entries(trace: seq<Effect>, kind: Changed): nat {
    if trace == [] then 0
    else
      Entries(trace[..|trace| - 1], kind)
      + match trace[|trace| - 1]
        case ObservablesAdded(n) => if kind == OfAdded then n else 0
        case ObservablesRemoved(n) => if kind == OfRemoved then n else 0
        case ObservablesRetained(n) => if kind == OfRetained then n else 0
        case _ => 0
  }

  function CountsOf(trace: seq<Effect>): Counts {
    Counts(multiset(trace)[SiblingAdded], multiset(trace)[SiblingRemoved], multiset(trace)[SiblingRetained],
           Entries(trace, OfAdded), Entries(trace, OfRemoved), Entries(trace, OfRetained))
  }

  /** The counters say how often siblings were added, removed and retained, and how many observables; and the collected
      observables are the entries of the observations, in order. */
  lemma {:induction false} Counted(p: Pipeline, r: Reporter, trace: seq<Effect>)
    ensures var s := Apply(p, r, EMPTY, trace);
      s.counts == CountsOf(trace) && s.observables == EntriesFor(p, Observations(trace))
  {
    hide CountsOf, EntryFor, Suppresses, Policy.FindingLevel, Count;
    if trace == [] {
      NothingCounted();
    } else {
      var n := |trace| - 1;
      Counted(p, r, trace[..n]);
      CountedStep(trace);
      if trace[n].Observe? {
        EntriesAppend(p, Observations(trace[..n]), trace[n]);
      }
    }
  }

  /** How many findings the policy withholds at a level. */
  function TimesWithheld(r: Reporter, trace: seq<Effect>, level: Policy.Level): nat {
    if trace == [] then 0
    else
      TimesWithheld(r, trace[..|trace| - 1], level)
      + match trace[|trace| - 1]
        case Find(code) => if Policy.FindingLevel(r.table, r.policy, code) == Policy.Withheld(level) then 1 else 0
        case _ => 0
  }

  /** Withheld errors and warnings are counted apart. */
  lemma {:induction false} WithheldCounted(p: Pipeline, r: Reporter, trace: seq<Effect>)
    ensures var s := Apply(p, r, EMPTY, trace);
      && s.suppressedErrors == TimesWithheld(r, trace, Policy.Error)
      && s.suppressedWarnings == TimesWithheld(r, trace, Policy.Warning)
  {
    hide EntryFor, Suppresses, Policy.FindingLevel, Count;
    if trace != [] {
      WithheldCounted(p, r, trace[..|trace| - 1]);
    }
  }

  lemma NothingCounted()
    ensures CountsOf([]) == Counts(0, 0, 0, 0, 0, 0)
  {
  }

  lemma CountedStep(trace: seq<Effect>)
    requires trace != []
    ensures var n := |trace| - 1;
      CountsOf(trace) == Count(CountsOf(trace[..n]), trace[n])
    ensures trace[|trace| - 1].Observe? || trace[|trace| - 1].Raise? || trace[|trace| - 1].ReachLimit? || trace[|trace| - 1].Find?
      ==> CountsOf(trace) == CountsOf(trace[..|trace| - 1])
  {
    var n := |trace| - 1;
    InitAndLast(trace);
    assert multiset(trace) == multiset(trace[..n]) + multiset{trace[n]};
  }

  lemma EntriesAppend(p: Pipeline, observed: seq<Effect>, e: Effect)
    requires e.Observe? && forall x | x in observed :: x.Observe?
    ensures EntriesFor(p, observed + [e]) == EntriesFor(p, observed) + [EntryFor(p, e)]
  {
    hide EntryFor;
  }
}
