/** What a run's effects amount to for its caller: issues, findings and counts under a suppression and a policy. */
module Reporting {
  import opened Text
  import opened Values
  import opened Walk
  import opened Run
  import Policy

  /** Collects every issue, or withholds every issue that may be, or only the listed ones. */
  datatype IssueSuppression = CollectAll | SuppressAll | SuppressOnly(codes: set<IssueCode>)

  /** Issues that report incomplete processing are never withheld. */
  predicate Mandatory(issue: IssueCode) {
    issue in {EventTraversalLimited, ClassUIDMissing, ClassUIDWrongType, ClassUIDUnknown}
  }

  predicate Suppresses(s: IssueSuppression, issue: IssueCode) {
    !Mandatory(issue) && (match s case CollectAll => false case SuppressAll => true case SuppressOnly(codes) => issue in codes)
  }

  /** How the pipeline reports: none of it is read by the run itself. */
  datatype Reporter = Reporter(suppression: IssueSuppression, table: Policy.CodeTable, policy: Policy.ValidationPolicy)

  datatype Finding = Finding(level: Policy.Level, code: Code)

  datatype Counts = Counts(
    siblingsAdded: nat, siblingsRemoved: nat, siblingsRetained: nat,
    observablesAdded: nat, observablesRemoved: nat, observablesRetained: nat)

  /** Everything a processing context has accumulated. */
  datatype Report = Report(
    observables: seq<Value>,
    limitReported: bool,
    counts: Counts,
    issues: seq<IssueCode>,
    suppressedIssues: nat,
    findings: seq<Finding>,
    suppressedErrors: nat,
    suppressedWarnings: nat)

  const EMPTY := Report([], false, Counts(0, 0, 0, 0, 0, 0), [], 0, [], 0, 0)

  function Count(n: Counts, e: Effect): Counts {
    match e
    case SiblingAdded => n.(siblingsAdded := n.siblingsAdded + 1)
    case SiblingRemoved => n.(siblingsRemoved := n.siblingsRemoved + 1)
    case SiblingRetained => n.(siblingsRetained := n.siblingsRetained + 1)
    case ObservablesAdded(count) => n.(observablesAdded := n.observablesAdded + count)
    case ObservablesRemoved(count) => n.(observablesRemoved := n.observablesRemoved + count)
    case ObservablesRetained(count) => n.(observablesRetained := n.observablesRetained + count)
    case _ => n
  }

  function Issue(r: Reporter, s: Report, issue: IssueCode): Report {
    if Suppresses(r.suppression, issue) then s.(suppressedIssues := s.suppressedIssues + 1)
    else s.(issues := s.issues + [issue])
  }

  function Record(r: Reporter, s: Report, code: Code): Report {
    match Policy.FindingLevel(r.table, r.policy, code)
    case Reported(level) => s.(findings := s.findings + [Finding(level, code)])
    case Withheld(Error) => s.(suppressedErrors := s.suppressedErrors + 1)
    case Withheld(Warning) => s.(suppressedWarnings := s.suppressedWarnings + 1)
  }

  function Step(p: Pipeline, r: Reporter, s: Report, e: Effect): Report {
    match e
    case Observe(_, _, _) => s.(observables := s.observables + [EntryFor(p, e)])
    case Raise(issue) => Issue(r, s, issue)
    case ReachLimit => if s.limitReported then s else Issue(r, s.(limitReported := true), EventTraversalLimited)
    case Find(code) => Record(r, s, code)
    case _ => s.(counts := Count(s.counts, e))
  }

  function Apply(p: Pipeline, r: Reporter, s: Report, trace: seq<Effect>): Report {
    if trace == [] then s
    else Step(p, r, Apply(p, r, s, trace[..|trace| - 1]), trace[|trace| - 1])
  }

  lemma {:induction false} ApplyAppend(p: Pipeline, r: Reporter, s: Report, a: seq<Effect>, b: seq<Effect>)
    ensures Apply(p, r, s, a + b) == Apply(p, r, Apply(p, r, s, a), b)
  {
    if b == [] {
      assert a + b == a;
    } else {
      ApplyAppend(p, r, s, a, b[..|b| - 1]);
      assert (a + b)[..|a + b| - 1] == a + b[..|b| - 1];
    }
  }

  lemma ApplyOne(p: Pipeline, r: Reporter, s: Report, e: Effect)
    ensures Apply(p, r, s, [e]) == Step(p, r, s, e)
    ensures Apply(p, r, s, []) == s
  {
    assert [e][..0] == [];
  }

  // ----- Reporting never feeds back -----

  /** The issues a trace raises, the traversal limit at most once. */
  function Raised(trace: seq<Effect>): seq<IssueCode> {
    if trace == [] then []
    else
      var before := Raised(trace[..|trace| - 1]);
      match trace[|trace| - 1]
      case Raise(issue) => before + [issue]
      case ReachLimit => if ReachLimit in trace[..|trace| - 1] then before else before + [EventTraversalLimited]
      case _ => before
  }

  function Unsuppressed(issues: seq<IssueCode>, s: IssueSuppression): (r: seq<IssueCode>)
    ensures |r| <= |issues|
  {
    if issues == [] then []
    else
      var before := Unsuppressed(issues[..|issues| - 1], s);
      if Suppresses(s, issues[|issues| - 1]) then before else before + [issues[|issues| - 1]]
  }

  function FoundCodes(trace: seq<Effect>): seq<Code> {
    if trace == [] then []
    else FoundCodes(trace[..|trace| - 1]) + match trace[|trace| - 1] case Find(code) => [code] case _ => []
  }

  predicate Shows(r: Reporter, code: Code) {
    Policy.FindingLevel(r.table, r.policy, code).Reported?
  }

  /** The codes a reporter shows, in order. */
  function Visible(codes: seq<Code>, r: Reporter): seq<Code> {
    if codes == [] then []
    else
      var before := Visible(codes[..|codes| - 1], r);
      if Shows(r, codes[|codes| - 1]) then before + [codes[|codes| - 1]] else before
  }

  /** The findings a reporter makes of codes: the shown ones, each at its level. */
  function Shown(codes: seq<Code>, r: Reporter): seq<Finding> {
    if codes == [] then []
    else
      var before := Shown(codes[..|codes| - 1], r);
      match Policy.FindingLevel(r.table, r.policy, codes[|codes| - 1])
      case Reported(level) => before + [Finding(level, codes[|codes| - 1])]
      case Withheld(_) => before
  }

  function CodesOf(findings: seq<Finding>): (codes: seq<Code>)
    ensures |codes| == |findings|
  {
    seq(|findings|, i requires 0 <= i < |findings| => findings[i].code)
  }

  lemma {:induction false} ShownCodes(codes: seq<Code>, r: Reporter)
    ensures CodesOf(Shown(codes, r)) == Visible(codes, r)
  {
    hide Policy.FindingLevel;
    if codes != [] {
      var n := |codes| - 1;
      ShownCodes(codes[..n], r);
      var before := CodesOf(Shown(codes[..n], r));
      assert CodesOf(Shown(codes, r)) == if Shows(r, codes[n]) then before + [codes[n]] else before;
    }
  }

  lemma VisibleLast(codes: seq<Code>, code: Code, r: Reporter)
    ensures Visible(codes + [code], r) == if Shows(r, code) then Visible(codes, r) + [code] else Visible(codes, r)
  {
    assert (codes + [code])[..|codes|] == codes;
  }

  lemma {:induction false} VisibleCommutes(codes: seq<Code>, a: Reporter, b: Reporter)
    ensures Visible(Visible(codes, a), b) == Visible(Visible(codes, b), a)
  {
    hide Shows;
    if codes != [] {
      var n := |codes| - 1;
      VisibleCommutes(codes[..n], a, b);
      VisibleLast(Visible(codes[..n], a), codes[n], b);
      VisibleLast(Visible(codes[..n], b), codes[n], a);
    }
  }

  lemma WithoutLast(issues: seq<IssueCode>, issue: IssueCode, s: IssueSuppression)
    ensures Unsuppressed(issues + [issue], s) == if Suppresses(s, issue) then Unsuppressed(issues, s) else Unsuppressed(issues, s) + [issue]
  {
    assert (issues + [issue])[..|issues|] == issues;
  }

  /** The reported issues are the raised ones without the suppressed, in order, and the suppressed ones are counted. */
  lemma {:induction false} IssuesReported(p: Pipeline, r: Reporter, trace: seq<Effect>)
    ensures var s := Apply(p, r, EMPTY, trace);
      && s.issues == Unsuppressed(Raised(trace), r.suppression)
      && |s.issues| + s.suppressedIssues == |Raised(trace)|
      && (s.limitReported <==> ReachLimit in trace)
  {
    if trace != [] {
      hide Step, Unsuppressed;
      var n := |trace| - 1;
      IssuesReported(p, r, trace[..n]);
      InitAndLast(trace);
      IssueStep(p, r, Apply(p, r, EMPTY, trace[..n]), trace[n], Raised(trace[..n]));
    }
  }

  lemma IssueStep(p: Pipeline, r: Reporter, s: Report, e: Effect, raised: seq<IssueCode>)
    requires s.issues == Unsuppressed(raised, r.suppression) && |s.issues| + s.suppressedIssues == |raised|
    ensures var next := Step(p, r, s, e);
      var all := match e
        case Raise(issue) => raised + [issue]
        case ReachLimit => if s.limitReported then raised else raised + [EventTraversalLimited]
        case _ => raised;
      && next.issues == Unsuppressed(all, r.suppression) && |next.issues| + next.suppressedIssues == |all|
      && (next.limitReported <==> s.limitReported || e == ReachLimit)
  {
    hide EntryFor, Suppresses, Policy.FindingLevel, Count, Unsuppressed;
    match e
    case Raise(issue) => WithoutLast(raised, issue, r.suppression);
    case ReachLimit => WithoutLast(raised, EventTraversalLimited, r.suppression);
    case _ =>
  }

  /** The findings are those the policy makes of the found codes, and the withheld ones are counted. */
  lemma {:induction false} FindingsReported(p: Pipeline, r: Reporter, trace: seq<Effect>)
    ensures var s := Apply(p, r, EMPTY, trace);
      && s.findings == Shown(FoundCodes(trace), r)
      && |s.findings| + s.suppressedErrors + s.suppressedWarnings == |FoundCodes(trace)|
  {
    if trace != [] {
      hide Step, Shown;
      var n := |trace| - 1;
      FindingsReported(p, r, trace[..n]);
      FindingStep(p, r, Apply(p, r, EMPTY, trace[..n]), trace[n], FoundCodes(trace[..n]));
    }
  }

  lemma FindingStep(p: Pipeline, r: Reporter, s: Report, e: Effect, codes: seq<Code>)
    requires s.findings == Shown(codes, r) && |s.findings| + s.suppressedErrors + s.suppressedWarnings == |codes|
    ensures var next, all := Step(p, r, s, e), codes + match e case Find(code) => [code] case _ => [];
      && next.findings == Shown(all, r)
      && |next.findings| + next.suppressedErrors + next.suppressedWarnings == |all|
  {
    hide EntryFor, Suppresses, Policy.FindingLevel, Count;
    if e.Find? {
      assert (codes + [e.code])[..|codes|] == codes;
    } else {
      assert codes + [] == codes;
    }
  }

  /** Two reporters see the same observables and counts; with the same policy the same findings; and mandatory issues
      are reported by both. */
  lemma {:induction false} SameButReporting(p: Pipeline, a: Reporter, b: Reporter, trace: seq<Effect>)
    ensures Alike(a, b, Apply(p, a, EMPTY, trace), Apply(p, b, EMPTY, trace))
  {
    if trace != [] {
      var n := |trace| - 1;
      SameButReporting(p, a, b, trace[..n]);
      AlikeStep(p, a, b, Apply(p, a, EMPTY, trace[..n]), Apply(p, b, EMPTY, trace[..n]), trace[n]);
      hide Alike, Step;
    }
  }

  predicate Alike(a: Reporter, b: Reporter, x: Report, y: Report) {
    && x.observables == y.observables && x.counts == y.counts && x.limitReported == y.limitReported
    && (a.table == b.table && a.policy == b.policy ==>
          && x.findings == y.findings
          && x.suppressedErrors == y.suppressedErrors && x.suppressedWarnings == y.suppressedWarnings)
    && (a.suppression == b.suppression ==> x.issues == y.issues && x.suppressedIssues == y.suppressedIssues)
  }

  lemma AlikeStep(p: Pipeline, a: Reporter, b: Reporter, x: Report, y: Report, e: Effect)
    requires Alike(a, b, x, y)
    ensures Alike(a, b, Step(p, a, x, e), Step(p, b, y, e))
  {
    hide EntryFor, Suppresses, Policy.FindingLevel;
  }

  /** Suppression decides only what is shown: two runs on one event under any two suppressions and policies leave the
      same event, the same observables and counts; issues and withheld issues, and findings and withheld findings, come
      to the same totals. The findings are those each policy makes of one and the same list of codes: what one shows
      and the other's policy would not withhold, the other shows too, code by code and in order, as for issues. */
  lemma NonInterference(p: Pipeline, a: Reporter, b: Reporter, event: Item)
    requires Usable(p)
    ensures var trace := ProcessEvent(p, event).trace;
      var x, y := Apply(p, a, EMPTY, trace), Apply(p, b, EMPTY, trace);
      && x.observables == y.observables && x.counts == y.counts
      && |x.issues| + x.suppressedIssues == |y.issues| + y.suppressedIssues
      && |x.findings| + x.suppressedErrors + x.suppressedWarnings == |y.findings| + y.suppressedErrors + y.suppressedWarnings
      && Unsuppressed(x.issues, b.suppression) == Unsuppressed(y.issues, a.suppression)
      && x.findings == Shown(FoundCodes(trace), a) && y.findings == Shown(FoundCodes(trace), b)
      && Visible(CodesOf(x.findings), b) == Visible(CodesOf(y.findings), a)
      && (a.table == b.table && a.policy == b.policy ==> x.findings == y.findings)
  {
    var trace := ProcessEvent(p, event).trace;
    hide ProcessEvent, Usable, Apply, Raised, FoundCodes, Unsuppressed, Shown, Visible, CodesOf;
    IssuesReported(p, a, trace);
    IssuesReported(p, b, trace);
    FindingsReported(p, a, trace);
    FindingsReported(p, b, trace);
    SameButReporting(p, a, b, trace);
    WithoutCommutes(Raised(trace), a.suppression, b.suppression);
    ShownCodes(FoundCodes(trace), a);
    ShownCodes(FoundCodes(trace), b);
    VisibleCommutes(FoundCodes(trace), a, b);
  }

  lemma {:induction false} WithoutCommutes(issues: seq<IssueCode>, a: IssueSuppression, b: IssueSuppression)
    ensures Unsuppressed(Unsuppressed(issues, a), b) == Unsuppressed(Unsuppressed(issues, b), a)
  {
    if issues != [] {
      var n := |issues| - 1;
      WithoutCommutes(issues[..n], a, b);
      WithoutLast(Unsuppressed(issues[..n], a), issues[n], b);
      WithoutLast(Unsuppressed(issues[..n], b), issues[n], a);
    }
  }
}
