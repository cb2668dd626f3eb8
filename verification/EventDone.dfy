/** The last step of a run: generated observables join the event, and validation reads the observables it ends with. */
module EventDone {
  import opened Text
  import opened Values
  import opened Walk
  import opened ObservablePath
  import opened Definedness
  import opened Analysis
  import opened Collection
  import opened Run
  import opened Reporting
  import opened Context
  import EP = EventPath

  // ----- Adding -----

  method AddGeneratedObservables(ctx: ProcessContext, event: Item, existing: Option<seq<Value>>)
    returns (r: Item, start: Option<nat>)
    requires ctx.Valid()
    modifies ctx.result
    ensures ctx.Valid()
    ensures Added(r, AddTo(ctx.c.decimal, event, existing, ctx.observables).trace, start)
      == AddTo(ctx.c.decimal, event, existing, ctx.observables)
    ensures ctx.State() == ctx.After(old(ctx.State()), AddTo(ctx.c.decimal, event, existing, ctx.observables).trace)
  {
    hide ProcessContext.After, Keep, Fresh, AllDuplicates;
    ghost var before := ctx.State();
    Onward(ctx, before, [], []);
    var generated := ctx.observables;
    r, start := event, None;
    if |generated| == 0 {
      return;
    }
    if existing == None && |generated| == 1 {
      ctx.Tally(ObservablesAdded(1));
      return event[OBSERVABLES := Arr(generated)], Some(0);
    }
    var prior := if existing.Some? then existing.value else [];
    var accepted, duplicates := DeduplicateGenerated(ctx.c.decimal, prior, generated);
    AcceptedDistinct(ctx.c.decimal, prior, generated);
    ghost var skipped := seq(|duplicates|, _ => Effect.Raise(ObservableDuplicateSkipped));
    assert skipped[..0] == [];
    for i := 0 to |duplicates|
      invariant ctx.Valid() && ctx.State() == ctx.After(before, skipped[..i]) && ctx.observables == generated
    {
      Onward(ctx, before, skipped[..i], [skipped[i]]);
      assert skipped[..i + 1] == skipped[..i] + [skipped[i]];
      ctx.Raise(ObservableDuplicateSkipped);
    }
    assert skipped[..|skipped|] == skipped;
    if |accepted| == 0 {
      return;
    }
    Onward(ctx, before, skipped, [ObservablesAdded(|accepted|)]);
    ctx.Tally(ObservablesAdded(|accepted|));
    r := event[OBSERVABLES := Arr(prior + accepted)];
    if existing.Some? {
      start := Some(|existing.value|);
    }
  }

  method OnEventDone(ctx: ProcessContext, event: Item) returns (r: Item, start: Option<nat>)
    requires ctx.Valid()
    modifies ctx.result
    ensures ctx.Valid()
    ensures Added(r, AddObservables(ctx.c.decimal, event, ctx.observables).trace, start)
      == AddObservables(ctx.c.decimal, event, ctx.observables)
    ensures ctx.State() == ctx.After(old(ctx.State()), AddObservables(ctx.c.decimal, event, ctx.observables).trace)
  {
    hide ProcessContext.After, AddTo;
    Onward(ctx, ctx.State(), [], []);
    var current := event;
    if OBSERVABLES in event && event[OBSERVABLES] == Null {
      current := map k | k in event && k != OBSERVABLES :: event[k];
      r, start := AddGeneratedObservables(ctx, current, None);
      return;
    }
    if OBSERVABLES !in event {
      r, start := AddGeneratedObservables(ctx, event, None);
      return;
    }
    if !event[OBSERVABLES].Arr? {
      if |ctx.observables| > 0 {
        ctx.Raise(ObservablesNotAddedWrongType);
      }
      return event, None;
    }
    if |event[OBSERVABLES].elems| == 0 {
      current := map k | k in event && k != OBSERVABLES :: event[k];
      r, start := AddGeneratedObservables(ctx, current, None);
      return;
    }
    r, start := AddGeneratedObservables(ctx, event, Some(event[OBSERVABLES].elems));
  }

  // ----- Validating -----

  method CheckNotation(ctx: ProcessContext, preferred: EP.Style, path: Name)
    requires ctx.Valid()
    modifies ctx.result
    ensures ctx.Valid() && ctx.State() == ctx.After(old(ctx.State()), NotationFinding(ctx.c, preferred, path))
  {
    hide ProcessContext.After, UsesNotation;
    Onward(ctx, ctx.State(), [], []);
    var uses := UsesNotationOf(path, preferred, ctx.c.cat.objects, ctx.c.cls.item);
    if !uses {
      ctx.AddFinding(OBSERVABLE_NAME_PATH_NOTATION);
    }
  }

  method ReportEntry(ctx: ProcessContext, preferred: Option<EP.Style>, entry: Entry)
    requires ctx.Valid()
    modifies ctx`limitReported, ctx.result
    ensures ctx.Valid() && ctx.State() == ctx.After(old(ctx.State()), EntryFindings(ctx.c, preferred, entry))
  {
    hide ProcessContext.After, NotationFinding;
    ghost var before := ctx.State();
    Onward(ctx, before, [], []);
    if entry.problem == BoundaryReached {
      ctx.ReachTheLimit();
      return;
    }
    ghost var notation :=
      if preferred.Some? && entry.path.Some? then NotationFinding(ctx.c, preferred.value, entry.path.value) else [];
    if preferred.Some? && entry.path.Some? {
      CheckNotation(ctx, preferred.value, entry.path.value);
    }
    var code := CodeOf(entry.problem);
    Onward(ctx, before, notation, if code.Some? then [Find(code.value)] else []);
    Onward(ctx, ctx.State(), [], []);
    if code.Some? {
      ctx.AddFinding(code.value);
    }
  }

  lemma {:induction false} FindingsFirst(c: Ctx, preferred: Option<EP.Style>, entries: seq<Entry>)
    requires entries != []
    ensures AllFindings(c, preferred, entries) == EntryFindings(c, preferred, entries[0]) + AllFindings(c, preferred, entries[1..])
  {
    hide EntryFindings;
    if |entries| == 1 {
      assert entries[..0] == [];
    } else {
      var n := |entries| - 1;
      FindingsFirst(c, preferred, entries[..n]);
      assert entries[..n][1..] == entries[1..][..n - 1];
      Associative(EntryFindings(c, preferred, entries[0]), AllFindings(c, preferred, entries[..n][1..]),
                  EntryFindings(c, preferred, entries[n]));
    }
  }

  /** Takes the analyzer's entries one by one. */
  method ReportAnalysis(ctx: ProcessContext, preferred: Option<EP.Style>, analyzer: Analyzer)
    requires ctx.Valid() && analyzer.Valid()
    modifies ctx`limitReported, ctx.result, analyzer
    ensures ctx.Valid()
    ensures ctx.State() == ctx.After(old(ctx.State()), AllFindings(ctx.c, preferred, old(analyzer.Pending())))
  {
    hide ProcessContext.After, EntryFindings, Analyzer.Pending, EntriesOf;
    ghost var before, whole := ctx.State(), AllFindings(ctx.c, preferred, analyzer.Pending());
    var more := true;
    while more
      invariant ctx.Valid() && analyzer.Valid()
      invariant ctx.After(before, whole) == ctx.After(ctx.State(), AllFindings(ctx.c, preferred, analyzer.Pending()))
      invariant !more ==> analyzer.Pending() == []
      decreases more, |analyzer.Pending()|
    {
      ghost var pending := analyzer.Pending();
      var at, entry;
      at, entry, more := analyzer.Next();
      if more {
        FindingsFirst(ctx.c, preferred, pending);
        Onward(ctx, ctx.State(), EntryFindings(ctx.c, preferred, entry), AllFindings(ctx.c, preferred, analyzer.Pending()));
        ReportEntry(ctx, preferred, entry);
      }
    }
    Onward(ctx, ctx.State(), [], []);
  }

  /** The notation of the generated entries, when it is not the one validation prefers. */
  method ValidateGeneratedNotation(ctx: ProcessContext, preferred: EP.Style, elems: seq<Value>, start: nat)
    requires ctx.Valid() && start <= |elems|
    modifies ctx.result
    ensures ctx.Valid() && ctx.State() == ctx.After(old(ctx.State()), SuffixNotation(ctx.c, preferred, elems[start..]))
  {
    hide ProcessContext.After, NotationFinding, RawNotation;
    ghost var before, raws := ctx.State(), elems[start..];
    Onward(ctx, before, [], []);
    for i := start to |elems|
      invariant ctx.Valid() && ctx.State() == ctx.After(before, SuffixNotation(ctx.c, preferred, raws[..i - start]))
    {
      var raw := elems[i];
      ghost var k := i - start;
      assert raws[..k + 1][..k] == raws[..k] && raws[k] == raw;
      Onward(ctx, before, SuffixNotation(ctx.c, preferred, raws[..k]), RawNotation(ctx.c, preferred, raw));
      CheckRawNotation(ctx, preferred, raw);
    }
    assert raws[..|raws|] == raws;
  }

  method CheckRawNotation(ctx: ProcessContext, preferred: EP.Style, raw: Value)
    requires ctx.Valid()
    modifies ctx.result
    ensures ctx.Valid() && ctx.State() == ctx.After(old(ctx.State()), RawNotation(ctx.c, preferred, raw))
  {
    hide ProcessContext.After, NotationFinding, ReadName;
    Onward(ctx, ctx.State(), [], []);
    if !raw.Obj? || "name" !in raw.fields || !raw.fields["name"].Str? {
      return;
    }
    var parsed := Parse(raw.fields["name"].text);
    if parsed.Err? {
      return;
    }
    CheckNotation(ctx, preferred, parsed.value);
  }

  /** Analyses the entries before the generated ones, if the run knows where those begin, else all of them. */
  method ValidateEventObservables(ctx: ProcessContext, event: Item, start: Option<nat>)
    requires ctx.Valid()
    modifies ctx`limitReported, ctx.result
    ensures ctx.Valid()
    ensures ctx.State() == ctx.After(old(ctx.State()), ValidateObservables(ctx.c, ctx.p.preferred, event, start))
  {
    hide ProcessContext.After, AllFindings, SuffixNotation, AnalyzeEntry;
    ghost var before := ctx.State();
    Onward(ctx, before, [], []);
    if Attribute(event, OBSERVABLES) == None {
      return;
    }
    var value := event[OBSERVABLES];
    var analyzer := new Analyzer(event, value, ScopeOf(ctx.c));
    if start.Some? {
      analyzer.LimitEntries(start.value);
    }
    ReportAnalysis(ctx, ctx.p.preferred, analyzer);
    if start.Some? && ctx.p.preferred.Some? && ctx.p.preferred.value != ctx.c.style {
      if value.Arr? && start.value < |value.elems| {
        Onward(ctx, before, AllFindings(ctx.c, ctx.p.preferred, EntriesOf(event, value, ScopeOf(ctx.c))[..start.value]),
               SuffixNotation(ctx.c, ctx.p.preferred.value, value.elems[start.value..]));
        ValidateGeneratedNotation(ctx, ctx.p.preferred.value, value.elems, start.value);
      }
    } else {
      Onward(ctx, ctx.State(), [], []);
      NothingMore(ctx, before, event, value, start);
    }
  }

  lemma NothingMore(ctx: ProcessContext, s: Report, event: Item, value: Value, start: Option<nat>)
    ensures start.Some? && value.Arr? && start.value < |value.elems| ==>
      var findings := AllFindings(ctx.c, ctx.p.preferred, EntriesOf(event, value, ScopeOf(ctx.c))[..start.value]);
      findings + [] == findings
  {
  }
}
