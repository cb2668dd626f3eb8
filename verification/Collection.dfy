/** Changing an observables array: appending generated entries without duplicates, and taking removable ones out. */
module Collection {
  import opened Text
  import opened Values
  import opened Analysis

  // ----- Exact subsequences -----

  /** The elements whose flag is set, in order. */
  function Keep<T>(s: seq<T>, flags: seq<bool>): (r: seq<T>)
    requires |flags| == |s|
    ensures |r| <= |s|
  {
    if s == [] then []
    else
      var n := |s| - 1;
      Keep(s[..n], flags[..n]) + if flags[n] then [s[n]] else []
  }

  function Not(flags: seq<bool>): (r: seq<bool>)
    ensures |r| == |flags|
  {
    seq(|flags|, i requires 0 <= i < |flags| => !flags[i])
  }

  /** Taking one more element. */
  lemma KeepStep<T>(s: seq<T>, flags: seq<bool>, i: nat)
    requires i < |s| == |flags|
    ensures Keep(s[..i + 1], flags[..i + 1]) == Keep(s[..i], flags[..i]) + if flags[i] then [s[i]] else []
  {
    assert s[..i + 1][..i] == s[..i] && flags[..i + 1][..i] == flags[..i];
  }

  /** A kept element stands at its rank among the kept ones. */
  lemma {:induction false} KeepRank<T>(s: seq<T>, flags: seq<bool>, i: nat)
    requires i < |s| == |flags| && flags[i]
    ensures |Keep(s[..i], flags[..i])| < |Keep(s, flags)|
    ensures Keep(s, flags)[|Keep(s[..i], flags[..i])|] == s[i]
  {
    var n := |s| - 1;
    if i < n {
      KeepRank(s[..n], flags[..n], i);
      assert s[..n][..i] == s[..i] && flags[..n][..i] == flags[..i];
    }
  }

  /** Every kept element comes from a flagged position. */
  lemma {:induction false} KeepMember<T>(s: seq<T>, flags: seq<bool>, x: T)
    requires |s| == |flags|
    ensures x in Keep(s, flags) <==> exists i :: 0 <= i < |s| && flags[i] && s[i] == x
  {
    if s != [] {
      var n := |s| - 1;
      KeepMember(s[..n], flags[..n], x);
      if i :| 0 <= i < |s| && flags[i] && s[i] == x {
        if i < n {
          assert s[..n][i] == x && flags[..n][i];
        }
      }
    }
  }

  /** The kept and the left-out elements together number all of them. */
  lemma {:induction false} KeepPartition<T>(s: seq<T>, flags: seq<bool>)
    requires |s| == |flags|
    ensures |Keep(s, flags)| + |Keep(s, Not(flags))| == |s|
  {
    if s != [] {
      var n := |s| - 1;
      KeepPartition(s[..n], flags[..n]);
      assert Not(flags)[..n] == Not(flags[..n]);
    }
  }

  lemma {:induction false} KeepNone<T>(s: seq<T>, flags: seq<bool>)
    requires |s| == |flags| && forall i | 0 <= i < |s| :: !flags[i]
    ensures Keep(s, flags) == []
  {
    if s != [] {
      var n := |s| - 1;
      assert forall i | 0 <= i < n :: flags[..n][i] == flags[i];
      KeepNone(s[..n], flags[..n]);
    }
  }

  lemma {:induction false} KeepAll<T>(s: seq<T>, flags: seq<bool>)
    requires |s| == |flags| && forall i | 0 <= i < |s| :: flags[i]
    ensures Keep(s, flags) == s
  {
    if s != [] {
      var n := |s| - 1;
      assert forall i | 0 <= i < n :: flags[..n][i] == flags[i];
      KeepAll(s[..n], flags[..n]);
      InitAndLast(s);
    }
  }

  // ----- Deduplication -----

  datatype Kind = OfObject | OfNull | OfText(text: string)

  datatype Identity = Identity(name: string, typeID: int64, kind: Kind)

  /** What two entries must share to be duplicates; malformed entries have none. */
  function Identify(decimal: Decimal, raw: Value): Option<Identity> {
    if !raw.Obj? || Slot(raw.fields, "name") == None || !raw.fields["name"].Str?
       || Slot(raw.fields, "type_id") == None || AsInteger(decimal, raw.fields["type_id"]) == None then None
    else
      var name, id := raw.fields["name"].text, AsInteger(decimal, raw.fields["type_id"]).value;
      match Slot(raw.fields, "value")
      case None => Some(Identity(name, id, OfObject))
      case Some(Null) => Some(Identity(name, id, OfNull))
      case Some(Str(text)) => Some(Identity(name, id, OfText(text)))
      case Some(_) => None
  }

  function Identities(decimal: Decimal, entries: seq<Value>): set<Identity> {
    set raw | raw in entries && Identify(decimal, raw).Some? :: Identify(decimal, raw).value
  }

  /** A generated entry repeats an existing one or an earlier generated one. */
  predicate Repeats(decimal: Decimal, existing: seq<Value>, generated: seq<Value>, i: nat)
    requires i < |generated|
  {
    var id := Identify(decimal, generated[i]);
    id.Some? && id.value in Identities(decimal, existing + generated[..i])
  }

  function Fresh(decimal: Decimal, existing: seq<Value>, generated: seq<Value>): (flags: seq<bool>)
    ensures |flags| == |generated|
  {
    seq(|generated|, i requires 0 <= i < |generated| => !Repeats(decimal, existing, generated, i))
  }

  datatype DuplicateSource = FromExisting | FromGenerated

  datatype Duplicate = Duplicate(raw: Value, source: DuplicateSource, index: nat)

  function SourceOf(decimal: Decimal, existing: seq<Value>, raw: Value): DuplicateSource {
    var id := Identify(decimal, raw);
    if id.Some? && id.value in Identities(decimal, existing) then FromExisting else FromGenerated
  }

  function DuplicateAt(decimal: Decimal, existing: seq<Value>, generated: seq<Value>, i: nat): Duplicate
    requires i < |generated|
  {
    Duplicate(generated[i], SourceOf(decimal, existing, generated[i]), i)
  }

  function AllDuplicates(decimal: Decimal, existing: seq<Value>, generated: seq<Value>): (r: seq<Duplicate>)
    ensures |r| == |generated|
  {
    seq(|generated|, i requires 0 <= i < |generated| => DuplicateAt(decimal, existing, generated, i))
  }

  /** What the map of seen identities holds after some generated entries. */
  ghost predicate Seen(decimal: Decimal, existing: seq<Value>, generated: seq<Value>, n: nat, seen: map<Identity,
                       DuplicateSource>)
    requires n <= |generated|
  {
    && seen.Keys == Identities(decimal, existing + generated[..n])
    && forall id | id in seen :: seen[id] == if id in Identities(decimal, existing) then FromExisting else FromGenerated
  }

  lemma IdentitiesGrow(decimal: Decimal, entries: seq<Value>, raw: Value)
    ensures Identities(decimal, entries + [raw]) ==
      Identities(decimal, entries) + (if Identify(decimal, raw).Some? then {Identify(decimal, raw).value} else {})
  {
    hide Identify;
    forall x | x in entries + [raw] ensures x in entries || x == raw {
    }
    assert raw in entries + [raw];
  }

  method SeenExisting(decimal: Decimal, existing: seq<Value>) returns (seen: map<Identity, DuplicateSource>)
    ensures seen.Keys == Identities(decimal, existing)
    ensures forall id | id in seen :: seen[id] == FromExisting
  {
    hide Identify;
    seen := map[];
    for i := 0 to |existing|
      invariant seen.Keys == Identities(decimal, existing[..i])
      invariant forall id | id in seen :: seen[id] == FromExisting
    {
      IdentitiesGrow(decimal, existing[..i], existing[i]);
      assert existing[..i + 1] == existing[..i] + [existing[i]];
      var id := Identify(decimal, existing[i]);
      if id.Some? {
        seen := seen[id.value := FromExisting];
      }
    }
    assert existing[..|existing|] == existing;
  }

  /** Splits the generated entries, in order, into the accepted and the duplicates. */
  method DeduplicateGenerated(decimal: Decimal, existing: seq<Value>, generated: seq<Value>)
    returns (accepted: seq<Value>, duplicates: seq<Duplicate>)
    ensures accepted == Keep(generated, Fresh(decimal, existing, generated))
    ensures duplicates == Keep(AllDuplicates(decimal, existing, generated), Not(Fresh(decimal, existing, generated)))
  {
    hide Identify, Identities, Keep;
    ghost var flags := Fresh(decimal, existing, generated);
    ghost var all := AllDuplicates(decimal, existing, generated);
    var seen := SeenExisting(decimal, existing);
    assert existing + generated[..0] == existing;
    KeepEmpty(generated, flags, all);
    accepted, duplicates := [], [];
    for i := 0 to |generated|
      invariant Seen(decimal, existing, generated, i, seen)
      invariant accepted == Keep(generated[..i], flags[..i])
      invariant duplicates == Keep(all[..i], Not(flags)[..i])
    {
      var raw := generated[i];
      var id := Identify(decimal, raw);
      KeepStep(generated, flags, i);
      KeepStep(all, Not(flags), i);
      IdentitiesGrow(decimal, existing + generated[..i], raw);
      assert existing + generated[..i + 1] == existing + generated[..i] + [raw];
      assert flags[i] == !(id.Some? && id.value in seen);
      if id.Some? {
        if id.value in seen {
          duplicates := duplicates + [Duplicate(raw, seen[id.value], i)];
          continue;
        }
        KnownStays(decimal, existing, generated[..i], id.value);
        seen := seen[id.value := FromGenerated];
      }
      accepted := accepted + [raw];
    }
    assert generated[..|generated|] == generated && flags[..|flags|] == flags;
    assert all[..|all|] == all && Not(flags)[..|flags|] == Not(flags);
  }

  lemma KeepEmpty<T, U>(s: seq<T>, flags: seq<bool>, t: seq<U>)
    requires |s| == |flags| == |t|
    ensures Keep(s[..0], flags[..0]) == [] && Keep(t[..0], Not(flags)[..0]) == []
  {
  }

  lemma KnownStays(decimal: Decimal, existing: seq<Value>, more: seq<Value>, id: Identity)
    ensures id in Identities(decimal, existing) ==> id in Identities(decimal, existing + more)
  {
    hide Identify;
    if id in Identities(decimal, existing) {
      var raw :| raw in existing && Identify(decimal, raw) == Some(id);
      assert raw in existing + more;
    }
  }

  /** Accepted and duplicate entries partition the generated list; the accepted keep their order, and an accepted
      identity is no existing one and no other accepted one's. */
  lemma AcceptedDistinct(decimal: Decimal, existing: seq<Value>, generated: seq<Value>)
    ensures var flags := Fresh(decimal, existing, generated);
      var accepted := Keep(generated, flags);
      && |accepted| + |Keep(AllDuplicates(decimal, existing, generated), Not(flags))| == |generated|
      && (forall a | a in accepted && Identify(decimal, a).Some? ::
            Identify(decimal, a).value !in Identities(decimal, existing))
      && (forall i, j | 0 <= i < j < |accepted| && Identify(decimal, accepted[i]).Some? ::
            Identify(decimal, accepted[i]) != Identify(decimal, accepted[j]))
  {
    hide Identify, Keep;
    var flags := Fresh(decimal, existing, generated);
    var accepted := Keep(generated, flags);
    KeepPartition(generated, flags);
    SameCount(generated, AllDuplicates(decimal, existing, generated), Not(flags));
    forall a | a in accepted && Identify(decimal, a).Some?
      ensures Identify(decimal, a).value !in Identities(decimal, existing)
    {
      KeepMember(generated, flags, a);
      var i :| 0 <= i < |generated| && flags[i] && generated[i] == a;
      KnownStays(decimal, existing, generated[..i], Identify(decimal, a).value);
    }
    forall i, j | 0 <= i < j < |accepted| && Identify(decimal, accepted[i]).Some?
      ensures Identify(decimal, accepted[i]) != Identify(decimal, accepted[j])
    {
      EarlierIsSeen(decimal, existing, generated, i, j);
    }
  }

  lemma {:induction false} SameCount<T, U>(s: seq<T>, t: seq<U>, flags: seq<bool>)
    requires |s| == |t| == |flags|
    ensures |Keep(s, flags)| == |Keep(t, flags)|
  {
    if s != [] {
      var n := |s| - 1;
      SameCount(s[..n], t[..n], flags[..n]);
    }
  }

  /** Two kept positions come from two positions in the same order. */
  lemma {:induction false} KeepOrder<T>(s: seq<T>, flags: seq<bool>, i: nat, j: nat) returns (a: nat, b: nat)
    requires |s| == |flags| && i < j < |Keep(s, flags)|
    ensures a < b < |s| && flags[a] && flags[b] && s[a] == Keep(s, flags)[i] && s[b] == Keep(s, flags)[j]
  {
    var n := |s| - 1;
    var front := Keep(s[..n], flags[..n]);
    if j < |front| {
      a, b := KeepOrder(s[..n], flags[..n], i, j);
    } else {
      b := n;
      KeepMember(s[..n], flags[..n], front[i]);
      a :| 0 <= a < n && flags[..n][a] && s[..n][a] == front[i];
    }
  }

  lemma EarlierIsSeen(decimal: Decimal, existing: seq<Value>, generated: seq<Value>, i: nat, j: nat)
    requires var accepted := Keep(generated, Fresh(decimal, existing, generated));
      i < j < |accepted| && Identify(decimal, accepted[i]).Some?
    ensures var accepted := Keep(generated, Fresh(decimal, existing, generated));
      Identify(decimal, accepted[i]) != Identify(decimal, accepted[j])
  {
    hide Identify, Keep;
    var a, b := KeepOrder(generated, Fresh(decimal, existing, generated), i, j);
    assert generated[a] == generated[..b][a];
    assert generated[a] in existing + generated[..b];
  }

  /** A pass accepts nothing of what is present already, in whatever order and however often it is generated. */
  lemma KnownAddsNothing(decimal: Decimal, existing: seq<Value>, again: seq<Value>)
    requires forall raw | raw in again ::
      Identify(decimal, raw).Some? && Identify(decimal, raw).value in Identities(decimal, existing)
    ensures Keep(again, Fresh(decimal, existing, again)) == []
  {
    hide Identify, Keep;
    forall i | 0 <= i < |again| ensures !Fresh(decimal, existing, again)[i] {
      assert again[i] in again;
      KnownStays(decimal, existing, again[..i], Identify(decimal, again[i]).value);
    }
    KeepNone(again, Fresh(decimal, existing, again));
  }

  /** After a pass every generated identity is present. */
  lemma {:induction false} PassCovers(decimal: Decimal, existing: seq<Value>, generated: seq<Value>, i: nat)
    requires i < |generated| && Identify(decimal, generated[i]).Some?
    ensures var combined := existing + Keep(generated, Fresh(decimal, existing, generated));
      Identify(decimal, generated[i]).value in Identities(decimal, combined)
    decreases i
  {
    hide Identify, Keep;
    var flags := Fresh(decimal, existing, generated);
    var combined := existing + Keep(generated, flags);
    var id := Identify(decimal, generated[i]).value;
    if flags[i] {
      KeepMember(generated, flags, generated[i]);
      assert generated[i] in combined;
    } else {
      var raw :| raw in existing + generated[..i] && Identify(decimal, raw) == Some(id);
      if raw in existing {
        assert raw in combined;
      } else {
        var j :| 0 <= j < i && generated[j] == raw;
        PassCovers(decimal, existing, generated, j);
      }
    }
  }

  // ----- Removal -----

  function Flags(entries: seq<Entry>): (flags: seq<bool>)
    ensures |flags| == |entries|
  {
    seq(|entries|, i requires 0 <= i < |entries| => entries[i].removable)
  }

  method RemovableCount(entries: seq<Entry>) returns (count: nat)
    ensures count == |Keep(entries, Flags(entries))|
  {
    count := 0;
    for i := 0 to |entries|
      invariant count == |Keep(entries[..i], Flags(entries)[..i])|
    {
      KeepStep(entries, Flags(entries), i);
      if entries[i].removable {
        count := count + 1;
      }
    }
    assert entries[..|entries|] == entries && Flags(entries)[..|entries|] == Flags(entries);
  }

  datatype FilterError = EntryCount | CountOutside | CountMismatch

  datatype Filtered = Rest(values: seq<Value>) | Refused(error: FilterError)

  /** The exact subsequence of non-removable entries, if the announced count is right. */
  method FilterRemovable(values: seq<Value>, entries: seq<Entry>, removeCount: int) returns (r: Filtered)
    ensures |entries| != |values| ==> r == Refused(EntryCount)
    ensures |entries| == |values| ==>
      var removed := |Keep(values, Flags(entries))|;
      r == if removeCount == removed then Rest(Keep(values, Not(Flags(entries))))
           else if removeCount < 0 || removeCount > |values| then Refused(CountOutside) else Refused(CountMismatch)
  {
    hide Keep;
    if |entries| != |values| {
      return Refused(EntryCount);
    }
    ghost var keep := Not(Flags(entries));
    KeepPartition(values, Flags(entries));
    if removeCount < 0 || removeCount > |values| {
      return Refused(CountOutside);
    }
    var filtered: seq<Value> := [];
    KeepEmpty(values, Flags(entries), values);
    for i := 0 to |values|
      invariant filtered == Keep(values[..i], keep[..i])
    {
      KeepStep(values, keep, i);
      if !entries[i].removable {
        filtered := filtered + [values[i]];
      }
    }
    assert values[..|values|] == values && keep[..|values|] == keep;
    if removeCount != |values| - |filtered| {
      return Refused(CountMismatch);
    }
    return Rest(filtered);
  }
}
