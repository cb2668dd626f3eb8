/** Validation skips the entries a run appended; this is exactly as good as analysing them. */
module TrustedSuffix {
  import opened Text
  import opened Values
  import opened Walk
  import opened ObservablePath
  import opened Definedness
  import opened Analysis
  import opened Run
  import opened Trust
  import opened GeneratedEntries
  import EP = EventPath

  // ----- Findings, with and without the shortcut -----

  lemma {:induction false} AllFindingsAppend(c: Ctx, preferred: Option<EP.Style>, a: seq<Entry>, b: seq<Entry>)
    ensures AllFindings(c, preferred, a + b) == AllFindings(c, preferred, a) + AllFindings(c, preferred, b)
  {
    hide EntryFindings;
    if b == [] {
      assert a + b == a;
    } else {
      var n := |b| - 1;
      assert (a + b)[..|a + b| - 1] == a + b[..n];
      AllFindingsAppend(c, preferred, a, b[..n]);
      Associative(AllFindings(c, preferred, a), AllFindings(c, preferred, b[..n]), EntryFindings(c, preferred, b[n]));
    }
  }

  /** What the shortcut reports for the trusted entries. */
  function Skipped(c: Ctx, preferred: Option<EP.Style>, raws: seq<Value>): seq<Effect> {
    if preferred.Some? && preferred.value != c.style then SuffixNotation(c, preferred.value, raws) else []
  }

  function SkippedOne(c: Ctx, preferred: Option<EP.Style>, raw: Value): seq<Effect> {
    if preferred.Some? && preferred.value != c.style then RawNotation(c, preferred.value, raw) else []
  }

  lemma LastSteps(c: Ctx, preferred: Option<EP.Style>, event: Item, raws: seq<Value>)
    requires raws != []
    ensures var n := |raws| - 1;
      && AllFindings(c, preferred, EntriesOf(event, Arr(raws), ScopeOf(c)))
        == AllFindings(c, preferred, EntriesOf(event, Arr(raws[..n]), ScopeOf(c)))
           + EntryFindings(c, preferred, AnalyzeEntry(event, raws[n], ScopeOf(c)))
      && Skipped(c, preferred, raws) == Skipped(c, preferred, raws[..n]) + SkippedOne(c, preferred, raws[n])
  {
    hide AnalyzeEntry, EntryFindings, RawNotation;
    var n := |raws| - 1;
    var entries := EntriesOf(event, Arr(raws), ScopeOf(c));
    assert entries[..n] == EntriesOf(event, Arr(raws[..n]), ScopeOf(c));
  }

  /** Analysing trusted entries reports what the shortcut reports, unless one leads back into the observables: then it
      reports an invalid reference, which the shortcut never does. */
  lemma {:induction false} TrustedFindings(c: Ctx, preferred: Option<EP.Style>, event: Item, raws: seq<Value>)
    requires AllTrusted(c, event, raws)
    ensures var full := AllFindings(c, preferred, EntriesOf(event, Arr(raws), ScopeOf(c)));
      && (NoneLeadsBack(raws) ==> full == Skipped(c, preferred, raws))
      && (!NoneLeadsBack(raws) ==> Find(OBSERVABLE_NAME_INVALID_REFERENCE) in full)
      && Find(OBSERVABLE_NAME_INVALID_REFERENCE) !in Skipped(c, preferred, raws)
  {
    if raws == [] {
      hide AnalyzeEntry;
    } else {
      hide *;
      var n := |raws| - 1;
      ButLast(c, event, raws);
      TrustedFindings(c, preferred, event, raws[..n]);
      OneFinding(c, preferred, event, raws[n]);
      LastSteps(c, preferred, event, raws);
    }
  }

  lemma ButLast(c: Ctx, event: Item, raws: seq<Value>)
    requires raws != []
    ensures var n := |raws| - 1;
      && (AllTrusted(c, event, raws) <==> AllTrusted(c, event, raws[..n]) && Trusted(c, event, raws[n]))
      && (NoneLeadsBack(raws) <==> NoneLeadsBack(raws[..n]) && !LeadsBack(raws[n]))
  {
    hide Trusted, LeadsBack;
    InitAndLast(raws);
  }

  lemma OneFinding(c: Ctx, preferred: Option<EP.Style>, event: Item, raw: Value)
    requires Trusted(c, event, raw)
    ensures var found := EntryFindings(c, preferred, AnalyzeEntry(event, raw, ScopeOf(c)));
      && (LeadsBack(raw) ==> Find(OBSERVABLE_NAME_INVALID_REFERENCE) in found)
      && (LeadsBack(raw) || found == SkippedOne(c, preferred, raw))
      && Find(OBSERVABLE_NAME_INVALID_REFERENCE) !in SkippedOne(c, preferred, raw)
  {
    hide AnalyzeEntry, UsesNotation, ReadName;
  }

  /** Skipping the appended entries reports exactly what analysing every entry would report, if and only if no appended
      entry leads back into the observables: if and only if the settled event does not call for a new observation in its
      own observables. */
  lemma ShortcutAgrees(p: Pipeline, c: Ctx, event: Item)
    requires Ready(c) && Expressible(c) && Sized(Obj(event)) && c.style == p.style && c.observables == Add
    ensures var finished, settled := Finished(p, c, event), SettledEvent(c, event);
      var agrees := ValidateObservables(c, p.preferred, finished.item, finished.start)
                      == ValidateObservables(c, p.preferred, finished.item, None);
      && (agrees <==> !DescribesItself(p, c, settled))
      && (agrees <==> NoneLeadsBack(Appended(c.decimal, settled, Generated(p, c, event))))
  {
    hide *;
    var finished, settled, generated := Finished(p, c, event), SettledEvent(c, event), Generated(p, c, event);
    var appended := Appended(c.decimal, settled, generated);
    AddingStages(p, c, event);
    WalkedIsSettled(c, event);
    LeadsBackExactly(p, c, event);
    AdditionOnlyObservables(c.decimal, settled, generated);
    GeneratedTrusted(p, c, event, finished.item);
    AppendedGenerated(c.decimal, settled, generated);
    AddedAfterPrior(c.decimal, settled, generated);
    if finished.start.Some? {
      SuffixIs(Prior(settled), appended);
      AllTrustedOf(c, finished.item, generated, appended);
      SuffixAgrees(c, p.preferred, finished.item, Prior(settled) + appended, |Prior(settled)|);
    } else if appended == [] {
      NoneOfNone();
    }
  }

  lemma SuffixIs<T>(prior: seq<T>, appended: seq<T>)
    ensures (prior + appended)[|prior|..] == appended
  {
  }

  lemma AllTrustedOf(c: Ctx, event: Item, generated: seq<Value>, appended: seq<Value>)
    requires forall raw | raw in generated :: Trusted(c, event, raw)
    requires forall raw | raw in appended :: raw in generated
    ensures AllTrusted(c, event, appended)
  {
    hide Trusted;
  }

  lemma SuffixAgrees(c: Ctx, preferred: Option<EP.Style>, event: Item, elems: seq<Value>, start: nat)
    requires Slot(event, OBSERVABLES) == Some(Arr(elems)) && start < |elems|
    requires AllTrusted(c, event, elems[start..])
    ensures ValidateObservables(c, preferred, event, Some(start)) == ValidateObservables(c, preferred, event, None)
      <==> NoneLeadsBack(elems[start..])
  {
    hide Trusted, NoneLeadsBack, AllTrusted, LeadsBack, AllFindings, SuffixNotation, AnalyzeEntry;
    var entries := EntriesOf(event, Arr(elems), ScopeOf(c));
    var suffix := EntriesOf(event, Arr(elems[start..]), ScopeOf(c));
    assert entries == entries[..start] + suffix;
    AllFindingsAppend(c, preferred, entries[..start], suffix);
    TrustedFindings(c, preferred, event, elems[start..]);
    var before, full, short :=
      AllFindings(c, preferred, entries[..start]), AllFindings(c, preferred, suffix), Skipped(c, preferred, elems[start..]);
    assert ValidateObservables(c, preferred, event, Some(start)) == before + short;
    assert ValidateObservables(c, preferred, event, None) == before + full;
    SameSuffix(before, full, short);
  }

  lemma SameSuffix<T>(a: seq<T>, x: seq<T>, y: seq<T>)
    ensures a + x == a + y <==> x == y
  {
    if a + x == a + y {
      assert (a + x)[|a|..] == x && (a + y)[|a|..] == y;
    }
  }
}
