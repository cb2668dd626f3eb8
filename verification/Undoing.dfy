/** Safe removal undoes addition: it takes out of a finished event exactly what the run appended. */
module Undoing {
  import opened Text
  import opened Values
  import opened Walk
  import opened Settling
  import opened Analysis
  import opened Collection
  import opened Run
  import opened Trust
  import opened GeneratedEntries

  function WithRemoval(c: Ctx): Ctx {
    c.(observables := Remove)
  }

  /** Adding observables to an event and then safely removing gives what removal from the settled event alone would give,
      exactly when no appended entry leads back into the observables: exactly when the settled event, which may hold
      observables of its own, of any form, does not call for a new observation in them. */
  lemma RemovalUndoesAddition(p: Pipeline, c: Ctx, event: Item)
    requires Ready(c) && Expressible(c) && Sized(Obj(event)) && c.style == p.style && c.observables == Add
    ensures var settled := SettledEvent(c, event);
      var undone := RemoveObservables(WithRemoval(c), Finished(p, c, event).item).item
                      == RemoveObservables(WithRemoval(c), settled).item;
      && (undone <==> !DescribesItself(p, c, settled))
      && (undone <==> NoneLeadsBack(Appended(c.decimal, settled, Generated(p, c, event))))
  {
    hide *;
    var settled, generated, final := SettledEvent(c, event), Generated(p, c, event), Finished(p, c, event).item;
    AddingStages(p, c, event);
    WalkedIsSettled(c, event);
    LeadsBackExactly(p, c, event);
    AdditionOnlyObservables(c.decimal, settled, generated);
    GeneratedTrusted(p, c, event, final);
    AppendedGenerated(c.decimal, settled, generated);
    AddedAfterPrior(c.decimal, settled, generated);
    RemovesAppended(c, settled, final, Appended(c.decimal, settled, generated));
  }

  // ----- What removal leaves of an array -----

  /** The entries of an event that removal leaves. */
  function Retained(c: Ctx, item: Item): seq<Value> {
    Keep(Prior(item), RetainedFlags(c, item, Prior(item)))
  }

  function RetainedFlags(c: Ctx, item: Item, raws: seq<Value>): (flags: seq<bool>)
    ensures |flags| == |raws|
  {
    Not(Flags(EntriesOf(item, Arr(raws), ScopeOf(c))))
  }

  lemma RemovalLeaves(c: Ctx, item: Item)
    ensures SameOutsideObservables(item, RemoveObservables(WithRemoval(c), item).item)
    ensures WrongType(item) ==> RemoveObservables(WithRemoval(c), item).item == item
    ensures !WrongType(item) ==>
      Slot(RemoveObservables(WithRemoval(c), item).item, OBSERVABLES)
        == if Retained(c, item) == [] then None else Some(Arr(Retained(c, item)))
  {
    assert Prior(item) == [] ==> Retained(c, item) == [];
    hide AnalyzeEntry, Keep, AllIssues;
    assert ScopeOf(WithRemoval(c)) == ScopeOf(c);
    RemovalOnlyObservables(WithRemoval(c), item);
  }

  lemma {:induction false} KeepConcat<T>(a: seq<T>, fa: seq<bool>, b: seq<T>, fb: seq<bool>)
    requires |a| == |fa| && |b| == |fb|
    ensures Keep(a + b, fa + fb) == Keep(a, fa) + Keep(b, fb)
  {
    if b == [] {
      assert a + b == a && fa + fb == fa;
    } else {
      var n := |b| - 1;
      assert (a + b)[..|a + b| - 1] == a + b[..n] && (fa + fb)[..|a + b| - 1] == fa + fb[..n];
      KeepConcat(a, fa, b[..n], fb[..n]);
    }
  }

  /** Removal treats prior entries as if nothing had been appended, and of trusted entries keeps those that lead back. */
  lemma RemovesAppended(c: Ctx, walked: Item, final: Item, appended: seq<Value>)
    requires SameOutsideObservables(walked, final)
    requires WrongType(walked) ==> appended == [] && final == walked
    requires !WrongType(walked) ==>
      Slot(final, OBSERVABLES) == if Prior(walked) + appended == [] then None else Some(Arr(Prior(walked) + appended))
    requires forall raw | raw in appended :: Trusted(c, final, raw)
    ensures RemoveObservables(WithRemoval(c), final).item == RemoveObservables(WithRemoval(c), walked).item
      <==> NoneLeadsBack(appended)
  {
    hide *;
    if !WrongType(walked) {
      var a, b := RemoveObservables(WithRemoval(c), final).item, RemoveObservables(WithRemoval(c), walked).item;
      RemovalLeaves(c, walked);
      RemovalLeaves(c, final);
      PriorOf(final, Prior(walked) + appended);
      SamePriorFlags(c, walked, final);
      RetainedSplits(c, final, Prior(walked), appended);
      TrustedFlags(c, final, appended);
      var left := Keep(appended, RetainedFlags(c, final, appended));
      LeadingLeft(appended, RetainedFlags(c, final, appended));
      RetainedIs(c, walked);
      SameOutside(walked, final, a, b);
      OnlyWhenEmpty(Retained(c, walked), left);
    } else {
      NoneOfNone();
    }
  }

  lemma RetainedIs(c: Ctx, item: Item)
    ensures Retained(c, item) == Keep(Prior(item), RetainedFlags(c, item, Prior(item)))
  {
  }

  lemma OnlyWhenEmpty<T>(a: seq<T>, b: seq<T>)
    ensures a + b == a <==> b == []
  {
    assert b == [] ==> a + b == a;
  }

  lemma PriorOf(item: Item, all: seq<Value>)
    requires Slot(item, OBSERVABLES) == if all == [] then None else Some(Arr(all))
    ensures Prior(item) == all && !WrongType(item)
  {
  }

  lemma SamePriorFlags(c: Ctx, walked: Item, final: Item)
    requires SameOutsideObservables(walked, final)
    ensures RetainedFlags(c, walked, Prior(walked)) == RetainedFlags(c, final, Prior(walked))
  {
    hide AnalyzeEntry;
    forall raw ensures AnalyzeEntry(walked, raw, ScopeOf(c)) == AnalyzeEntry(final, raw, ScopeOf(c)) {
      VerdictIgnoresObservables(walked, final, raw, ScopeOf(c));
    }
  }

  lemma RetainedSplits(c: Ctx, item: Item, prior: seq<Value>, appended: seq<Value>)
    requires Prior(item) == prior + appended
    ensures Retained(c, item)
      == Keep(prior, RetainedFlags(c, item, prior)) + Keep(appended, RetainedFlags(c, item, appended))
  {
    hide AnalyzeEntry, Keep, Prior;
    assert RetainedFlags(c, item, prior + appended) == RetainedFlags(c, item, prior) + RetainedFlags(c, item, appended);
    KeepConcat(prior, RetainedFlags(c, item, prior), appended, RetainedFlags(c, item, appended));
  }

  lemma TrustedFlags(c: Ctx, event: Item, raws: seq<Value>)
    requires forall raw | raw in raws :: Trusted(c, event, raw)
    ensures forall i | 0 <= i < |raws| :: RetainedFlags(c, event, raws)[i] <==> LeadsBack(raws[i])
  {
    hide AnalyzeEntry, LeadsBack;
    forall i | 0 <= i < |raws| ensures RetainedFlags(c, event, raws)[i] <==> LeadsBack(raws[i]) {
      assert raws[i] in raws;
    }
  }

  lemma LeadingLeft(raws: seq<Value>, flags: seq<bool>)
    requires |flags| == |raws| && forall i | 0 <= i < |raws| :: flags[i] <==> LeadsBack(raws[i])
    ensures Keep(raws, flags) == [] <==> NoneLeadsBack(raws)
  {
    hide LeadsBack, Keep;
    if NoneLeadsBack(raws) {
      KeepNone(raws, flags);
    } else {
      var raw :| raw in raws && LeadsBack(raw);
      var i :| 0 <= i < |raws| && raws[i] == raw;
      KeepMember(raws, flags, raw);
    }
  }

  /** Two events cut out of two that agree outside the observables are equal as soon as their observables are. */
  lemma SameOutside(walked: Item, final: Item, a: Item, b: Item)
    requires SameOutsideObservables(walked, final) && SameOutsideObservables(final, a) && SameOutsideObservables(walked, b)
    ensures a == b <==> Slot(a, OBSERVABLES) == Slot(b, OBSERVABLES)
  {
    if Slot(a, OBSERVABLES) == Slot(b, OBSERVABLES) {
      forall key ensures Slot(a, key) == Slot(b, key) {
      }
      SameSlots(a, b);
    }
  }
}
