/** The mutable state of one event's processing: the result, the current path and the remembered number style. */
module Context {
  import opened Text
  import opened Values
  import opened NumericEnum
  import opened Schema
  import opened Observability
  import opened Walk
  import opened Run
  import opened Reporting
  import opened Mutations
  import Policy
  import CT = ClassTrie
  import EP = EventPath

  /** The accumulated diagnostics and counts. */
  class Result {
    const reporter: Reporter
    var counts: Counts
    var issues: seq<IssueCode>
    var suppressedIssues: nat
    var findings: seq<Finding>
    var suppressedErrors: nat
    var suppressedWarnings: nat

    ghost function With(observables: seq<Value>, limitReported: bool): Report
      reads this
    {
      Report(observables, limitReported, counts, issues, suppressedIssues, findings, suppressedErrors, suppressedWarnings)
    }

    constructor (reporter: Reporter)
      ensures this.reporter == reporter && With([], false) == EMPTY
    {
      this.reporter := reporter;
      counts := Counts(0, 0, 0, 0, 0, 0);
      issues, suppressedIssues := [], 0;
      findings, suppressedErrors, suppressedWarnings := [], 0, 0;
    }

    method AddProcessorIssue(issue: IssueCode)
      modifies `issues
      ensures issues == old(issues) + [issue]
    {
      issues := issues + [issue];
    }

    /** Whether an issue is withheld; a withheld one is counted here. */
    method SuppressesIssue(issue: IssueCode) returns (suppressed: bool)
      modifies `suppressedIssues
      ensures suppressed <==> Suppresses(reporter.suppression, issue)
      ensures suppressedIssues == old(suppressedIssues) + if suppressed then 1 else 0
    {
      if !Suppresses(reporter.suppression, issue) {
        return false;
      }
      suppressedIssues := suppressedIssues + 1;
      return true;
    }

    method RaiseIssue(issue: IssueCode)
      modifies `issues, `suppressedIssues
      ensures forall o, l :: With(o, l) == Issue(reporter, old(With(o, l)), issue)
    {
      var suppressed := SuppressesIssue(issue);
      if !suppressed {
        AddProcessorIssue(issue);
      }
    }

    method AddFinding(code: Code)
      modifies this
      ensures forall o, l :: With(o, l) == Record(reporter, old(With(o, l)), code)
    {
      match Policy.FindingLevel(reporter.table, reporter.policy, code)
      case Reported(level) => findings := findings + [Finding(level, code)];
      case Withheld(Error) => suppressedErrors := suppressedErrors + 1;
      case Withheld(Warning) => suppressedWarnings := suppressedWarnings + 1;
    }

    method Tally(e: Effect)
      modifies `counts
      ensures counts == Count(old(counts), e)
    {
      counts := Count(counts, e);
    }
  }

  class ProcessContext {
    const p: Pipeline
    const mutations: seq<Dispatcher>
    const c: Ctx
    const result: Result
    const path: EP.Path
    const trie: Option<CT.Trie>
    ghost const decls: CT.Declarations
    const generating: Option<set<string>>
    var observables: seq<Value>
    var limitReported: bool
    var numberStyleKnown: bool
    var numberUsesFloatSyntax: bool

    ghost function Repr(): set<object> {
      {this, result} + path.Repr()
    }

    ghost predicate Valid()
      reads this, result, path.Repr(), if trie.Some? then {trie.value} else {}
    {
      && path.Valid() && p.style == c.style && p.enums == c.enums && Serves(mutations, c.enums, c.observables)
      && CT.Answers(trie, decls) && CT.Gathered(c.cls.observables, c.allowed, c.cls.observables.Keys, decls)
      && (generating.Some? ==> forall o :: o in generating.value <==> MayGenerate(c.cat, c.allowed, o))
    }

    ghost function At(): Elems
      requires path.Valid()
      reads path.elements, path.elements.inline
    {
      path.Contents()
    }

    ghost function State(): Report
      reads this, result
    {
      result.With(observables, limitReported)
    }

    /** A state after some more effects. */
    ghost function After(s: Report, trace: seq<Effect>): Report {
      Apply(p, result.reporter, s, trace)
    }

    constructor (p: Pipeline, mutations: seq<Dispatcher>, c: Ctx, result: Result, trie: Option<CT.Trie>, ghost decls: CT.Declarations,
                 generating: Option<set<string>>)
      requires p.style == c.style && p.enums == c.enums && Serves(mutations, c.enums, c.observables)
      requires CT.Answers(trie, decls) && CT.Gathered(c.cls.observables, c.allowed, c.cls.observables.Keys, decls)
      requires generating.Some? ==> forall o :: o in generating.value <==> MayGenerate(c.cat, c.allowed, o)
      ensures Valid() && At() == [] && State() == result.With([], false)
      ensures this.p == p && this.c == c && this.result == result && this.trie == trie
      ensures fresh(this) && fresh(path.Repr())
    {
      this.p, this.mutations, this.c, this.result := p, mutations, c, result;
      this.trie, this.decls, this.generating := trie, decls, generating;
      path := new EP.Path();
      observables, limitReported := [], false;
      numberStyleKnown, numberUsesFloatSyntax := false, false;
    }

    /** Everything accumulated so far. */
    method Snapshot() returns (s: Report)
      ensures s == State()
    {
      return Report(observables, limitReported, result.counts, result.issues, result.suppressedIssues,
                    result.findings, result.suppressedErrors, result.suppressedWarnings);
    }

    method PushAttribute(name: string)
      requires Valid()
      modifies path.Repr()
      ensures Valid() && State() == old(State()) && At() == old(At()) + [EP.Attribute(name)]
    {
      path.PushAttribute(name);
    }

    method PushArrayIndex(index: nat)
      requires Valid()
      modifies path.Repr()
      ensures Valid() && State() == old(State()) && At() == old(At()) + [EP.ArrayIndex(index)]
    {
      path.PushArrayIndex(index);
    }

    method Pop(ghost outer: Elems, ghost last: EP.Elem)
      requires Valid() && At() == outer + [last]
      modifies path.Repr()
      ensures Valid() && State() == old(State()) && At() == outer
    {
      path.Pop();
    }

    method Raise(issue: IssueCode)
      requires Valid()
      modifies result
      ensures Valid() && State() == After(old(State()), [Effect.Raise(issue)])
    {
      result.RaiseIssue(issue);
      ApplyOne(p, result.reporter, old(State()), Effect.Raise(issue));
    }

    /** Reports the traversal limit, once per event. */
    method ReachTheLimit()
      requires Valid()
      modifies this`limitReported, result
      ensures Valid() && State() == After(old(State()), [ReachLimit])
    {
      ApplyOne(p, result.reporter, State(), ReachLimit);
      if limitReported {
        return;
      }
      limitReported := true;
      result.AddProcessorIssue(EventTraversalLimited);
    }

    method Tally(e: Effect)
      requires Valid() && !e.Observe? && !e.Raise? && !e.ReachLimit? && !e.Find?
      modifies result
      ensures Valid() && State() == After(old(State()), [e])
    {
      result.Tally(e);
      ApplyOne(p, result.reporter, old(State()), e);
    }

    /** A read-only validation hook at the current path. */
    method Judge(hook: Hook, item: Item, value: Value)
      requires Valid()
      modifies result
      ensures Valid() && State() == After(old(State()), Judged(c, hook, At(), item, value))
    {
      ghost var before := State();
      ApplyOne(p, result.reporter, before, ReachLimit);
      if !c.validating {
        return;
      }
      hide After;
      var at := path.Elements();
      var codes := c.judge(hook, at, item, value);
      ghost var trace := Judged(c, hook, at, item, value);
      assert trace[..0] == [];
      for i := 0 to |codes|
        invariant Valid() && State() == After(before, trace[..i])
      {
        AddFinding(codes[i]);
        AfterOneMore(before, trace, i);
      }
      assert trace[..|trace|] == trace;
    }

    method AddFinding(code: Code)
      requires Valid()
      modifies result
      ensures Valid() && State() == After(old(State()), [Find(code)])
    {
      result.AddFinding(code);
      ApplyOne(p, result.reporter, old(State()), Find(code));
    }

    lemma AfterOneMore(before: Report, trace: seq<Effect>, i: nat)
      requires Valid() && i < |trace|
      ensures After(before, trace[..i + 1]) == After(After(before, trace[..i]), [trace[i]])
    {
      ApplyAppend(p, result.reporter, before, trace[..i], [trace[i]]);
      assert trace[..i + 1] == trace[..i] + [trace[i]];
    }

    /** Appends the entry for an object, or for a scalar's text. */
    method AddObservable(typeID: int64, text: Option<string>)
      requires Valid()
      modifies this`observables
      ensures Valid() && State() == After(old(State()), [Observe(At(), typeID, text)])
    {
      ghost var e := Observe(At(), typeID, text);
      ApplyOne(p, result.reporter, State(), e);
      var name := path.String(p.style);
      var entry := map["name" := Str(name), "type_id" := Int(typeID)];
      if text.Some? {
        entry := entry["value" := Str(text.value)];
      }
      if p.enums == Add && typeID in p.typeNames {
        entry := entry["type" := Str(p.typeNames[typeID])];
      }
      observables := observables + [Obj(entry)];
    }

    // ----- Enum lookups -----

    /** The definition of an integral enum value. The remembered style only decides whether an exact spelling is tried
        first, which never changes the answer. */
    method LookupNumericEnumDefinition(attr: AttrDef, index: Index, value: Value) returns (l: Lookup)
      requires Integral(attr) && attr.enum.Some? && Compiled(attr.enum.value, index)
      modifies this`numberStyleKnown, this`numberUsesFloatSyntax
      ensures l == LookupEnum(c, attr, value)
    {
      hide Compiled, FormatInt, ParseInt64;
      if value.Number? {
        var text := value.spelling;
        if !numberStyleKnown {
          numberStyleKnown := true;
          numberUsesFloatSyntax := FloatSyntax(text);
        }
        if !numberUsesFloatSyntax && index.keysCanonical {
          if text in attr.enum.value {
            CanonicalShortcut(attr.enum.value, index, text);
            return Found(attr.enum.value[text]);
          }
        }
      }
      var integer := AsInteger(c.decimal, value);
      if integer == None {
        return Unusable;
      }
      var definition := NumericEnumDefinition(attr.enum.value, index, integer.value);
      if definition == None {
        return Missing;
      }
      return Found(definition.value);
    }

    method LookupEnumDefinition(attr: AttrDef, index: Option<Index>, value: Value) returns (l: Lookup)
      requires attr.enum.Some?
      requires NeedsIndex(attr) ==> index.Some? && Compiled(attr.enum.value, index.value)
      modifies this`numberStyleKnown, this`numberUsesFloatSyntax
      ensures l == LookupEnum(c, attr, value)
    {
      hide Compiled;
      if attr.primitive == "string_t" {
        var text := AsString(value);
        if text == None {
          return Unusable;
        }
        return LookupKey(attr.enum.value, text.value);
      }
      if attr.primitive == "integer_t" || attr.primitive == "long_t" {
        l := LookupNumericEnumDefinition(attr, index.value, value);
        return;
      }
      var text := FormatScalar(value);
      if text == None {
        return Unusable;
      }
      return LookupKey(attr.enum.value, text.value);
    }
  }

  /** Effects in sequence. */
  lemma Onward(ctx: ProcessContext, s: Report, a: seq<Effect>, b: seq<Effect>)
    ensures ctx.After(ctx.After(s, a), b) == ctx.After(s, a + b)
    ensures ctx.After(s, []) == s
  {
    ApplyAppend(ctx.p, ctx.result.reporter, s, a, b);
  }
}
