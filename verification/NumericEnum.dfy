/** The compiled index of an integral enum: dense, scanned or mapped, with the value 99 held apart. */
module NumericEnum {
  import opened Text

  datatype EnumDef = EnumDef(caption: string)

  const OTHER: int64 := 99
  const SCAN_THRESHOLD := 16

  datatype Entry = Entry(value: int64, definition: EnumDef)

  /** At most one of the three layouts is used; `minimum` and `maximum` bound the dense one. */
  datatype Index = Index(
    minimum: int64,
    maximum: int64,
    dense: seq<EnumDef>,
    scan: seq<Entry>,
    sparse: map<int64, EnumDef>,
    other: Option<EnumDef>,
    keysCanonical: bool)

  /** What the index stands for: the definition under the value's canonical decimal key. */
  function ByKey(enum: map<string, EnumDef>, value: int64): Option<EnumDef> {
    var key := FormatInt(value);
    if key in enum then Some(enum[key]) else None
  }

  predicate CanonicalKey(key: string) {
    var v := ParseInt64(key);
    v.Some? && FormatInt(v.value) == key
  }

  predicate EntriesOf(enum: map<string, EnumDef>, entries: seq<Entry>) {
    && (forall e | e in entries :: e.value != OTHER && ByKey(enum, e.value) == Some(e.definition))
    && (forall key | key in enum && CanonicalKey(key) && key != FormatInt(OTHER) ::
          exists i :: 0 <= i < |entries| && FormatInt(entries[i].value) == key)
  }

  predicate Increasing(entries: seq<Entry>) {
    forall i, j | 0 <= i < j < |entries| :: entries[i].value < entries[j].value
  }

  lemma EntriesComplete(enum: map<string, EnumDef>, entries: seq<Entry>, value: int64)
    requires EntriesOf(enum, entries) && value != OTHER && ByKey(enum, value).Some?
    ensures exists i :: 0 <= i < |entries| && entries[i].value == value
  {
    FormatIntParses(value);
    if FormatInt(value) == FormatInt(OTHER) {
      FormatIntInjective(value, OTHER);
      assert false;
    }
    var i :| 0 <= i < |entries| && FormatInt(entries[i].value) == FormatInt(value);
    FormatIntInjective(entries[i].value, value);
  }

  /** Inserts an entry in value order, as the sort of the collected entries leaves it. */
  method InsertEntry(entries: seq<Entry>, e: Entry) returns (r: seq<Entry>)
    requires Increasing(entries) && forall x | x in entries :: x.value != e.value
    ensures Increasing(r) && |r| == |entries| + 1
    ensures forall x :: x in r <==> x in entries || x == e
  {
    var at := 0;
    while at < |entries| && entries[at].value < e.value
      invariant 0 <= at <= |entries|
      invariant forall i | 0 <= i < at :: entries[i].value < e.value
    {
      at := at + 1;
    }
    forall i | at <= i < |entries| ensures e.value < entries[i].value {
      assert entries[i] in entries && entries[at] in entries;
      assert at < i ==> entries[at].value < entries[i].value;
    }
    r := Insert(entries, at, e);
    InsertMembers(entries, at, e);
  }

  /** What the entries hold after some of the keys. */
  ghost predicate Collected(enum: map<string, EnumDef>, done: set<string>, entries: seq<Entry>) {
    && (forall e | e in entries ::
          e.value != OTHER && FormatInt(e.value) in done && ByKey(enum, e.value) == Some(e.definition))
    && (forall key | key in done && CanonicalKey(key) && key != FormatInt(OTHER) ::
          exists e :: e in entries && FormatInt(e.value) == key)
  }

  lemma KeySkipped(enum: map<string, EnumDef>, done: set<string>, entries: seq<Entry>, text: string)
    requires Collected(enum, done, entries) && (!CanonicalKey(text) || text == FormatInt(OTHER))
    ensures Collected(enum, done + {text}, entries)
  {
    hide CanonicalKey, ByKey;
  }

  lemma KeyTaken(enum: map<string, EnumDef>, done: set<string>, entries: seq<Entry>, e: Entry, after: seq<Entry>)
    requires Collected(enum, done, entries) && e.value != OTHER && ByKey(enum, e.value) == Some(e.definition)
    requires forall x :: x in after <==> x in entries || x == e
    ensures Collected(enum, done + {FormatInt(e.value)}, after)
  {
    hide CanonicalKey, ByKey;
    assert e in after;
  }

  lemma AllCollected(enum: map<string, EnumDef>, entries: seq<Entry>)
    requires Collected(enum, enum.Keys, entries)
    ensures EntriesOf(enum, entries)
  {
    hide CanonicalKey, ByKey;
    forall key | key in enum && CanonicalKey(key) && key != FormatInt(OTHER)
      ensures exists i :: 0 <= i < |entries| && FormatInt(entries[i].value) == key
    {
      var e :| e in entries && FormatInt(e.value) == key;
      var i :| 0 <= i < |entries| && entries[i] == e;
    }
  }

  lemma CanonicalMeans(text: string)
    ensures CanonicalKey(text) <==> ParseInt64(text).Some? && FormatInt(ParseInt64(text).value) == text
    ensures CanonicalKey(FormatInt(OTHER)) && ParseInt64(FormatInt(OTHER)) == Some(OTHER)
  {
    FormatIntParses(OTHER);
  }

  /** Splits the keys into sorted entries, the 99 slot and whether every key was canonical. */
  method CollectEntries(enum: map<string, EnumDef>)
    returns (entries: seq<Entry>, other: Option<EnumDef>, keysCanonical: bool)
    ensures EntriesOf(enum, entries) && Increasing(entries) && |entries| <= |enum|
    ensures other == ByKey(enum, OTHER)
    ensures keysCanonical <==> forall key | key in enum :: CanonicalKey(key)
  {
    hide Collected, CanonicalKey, EntriesOf, Increasing, FormatInt, ParseInt64;
    entries, other, keysCanonical := [], None, true;
    ghost var done: set<string> := {};
    var pending := enum.Keys;
    NoneCollected(enum);
    while pending != {}
      invariant pending <= enum.Keys && |entries| + |pending| <= |enum| && done == enum.Keys - pending
      invariant Increasing(entries) && Collected(enum, done, entries)
      invariant other == if FormatInt(OTHER) in done then ByKey(enum, OTHER) else None
      invariant keysCanonical <==> forall key | key in done :: CanonicalKey(key)
      decreases pending
    {
      var text :| text in pending;
      ghost var before := done;
      pending := pending - {text};
      done := done + {text};
      CanonicalMeans(text);
      var value := ParseInt64(text);
      if value == None || FormatInt(value.value) != text {
        KeySkipped(enum, before, entries, text);
        keysCanonical := false;
        continue;
      }
      if value.value == OTHER {
        KeySkipped(enum, before, entries, text);
        other := Some(enum[text]);
      } else {
        var e := Entry(value.value, enum[text]);
        NewEntry(enum, before, entries, e);
        ghost var earlier := entries;
        entries := InsertEntry(entries, e);
        KeyTaken(enum, before, earlier, e, entries);
      }
    }
    assert done == enum.Keys;
    AllCollected(enum, entries);
  }

  lemma NoneCollected(enum: map<string, EnumDef>)
    ensures Collected(enum, {}, []) && Increasing([])
  {
  }

  lemma NewEntry(enum: map<string, EnumDef>, done: set<string>, entries: seq<Entry>, e: Entry)
    requires Collected(enum, done, entries) && FormatInt(e.value) !in done
    ensures forall x | x in entries :: x.value != e.value
  {
    hide CanonicalKey, ByKey;
  }

  /** The contiguity test never computes past the largest integer. */
  method Contiguous(entries: seq<Entry>) returns (contiguous: bool)
    requires |entries| > 0 && Increasing(entries)
    ensures contiguous <==> forall i | 0 <= i < |entries| :: entries[i].value as int == entries[0].value + i
  {
    contiguous := true;
    for position := 1 to |entries|
      invariant forall i | 0 <= i < position :: entries[i].value as int == entries[0].value + i
    {
      assert entries[position - 1].value < entries[position].value;
      if entries[position - 1].value == MAX_INT64 {
        return false;
      }
      var next: int64 := entries[position - 1].value + 1;
      if entries[position].value != next {
        return false;
      }
    }
  }

  predicate DenseLaid(entries: seq<Entry>, index: Index) {
    && |index.dense| == |entries| > 0
    && index.minimum == entries[0].value && index.maximum == entries[|entries| - 1].value
    && (forall i | 0 <= i < |entries| ::
          entries[i].value as int == entries[0].value + i && index.dense[i] == entries[i].definition)
  }

  predicate ScanLaid(entries: seq<Entry>, index: Index) {
    index.dense == [] && index.sparse == map[] && index.scan == entries
  }

  predicate SparseLaid(entries: seq<Entry>, index: Index) {
    && index.dense == [] && index.scan == []
    && MapOf(entries, index.sparse)
  }

  predicate MapOf(entries: seq<Entry>, sparse: map<int64, EnumDef>) {
    && (forall e | e in entries :: e.value in sparse && sparse[e.value] == e.definition)
    && (forall v | v in sparse :: exists i :: 0 <= i < |entries| && entries[i].value == v)
  }

  /** An index compiled from an enum, in any of the three layouts. */
  ghost predicate Compiled(enum: map<string, EnumDef>, index: Index) {
    && index.other == ByKey(enum, OTHER)
    && (index.keysCanonical <==> forall key | key in enum :: CanonicalKey(key))
    && |index.dense| <= MAX_INT64
    && exists entries :: Laid(enum, entries, index)
  }

  predicate Laid(enum: map<string, EnumDef>, entries: seq<Entry>, index: Index) {
    && EntriesOf(enum, entries) && Increasing(entries)
    && (DenseLaid(entries, index) || ScanLaid(entries, index) || SparseLaid(entries, index))
  }

  method DenseDefinitions(entries: seq<Entry>) returns (dense: seq<EnumDef>)
    ensures |dense| == |entries| && forall i | 0 <= i < |entries| :: dense[i] == entries[i].definition
  {
    dense := [];
    for position := 0 to |entries|
      invariant |dense| == position
      invariant forall i | 0 <= i < position :: dense[i] == entries[i].definition
    {
      dense := dense + [entries[position].definition];
    }
  }

  method SparseDefinitions(entries: seq<Entry>) returns (sparse: map<int64, EnumDef>)
    requires Increasing(entries)
    ensures MapOf(entries, sparse)
  {
    sparse := map[];
    for position := 0 to |entries|
      invariant forall i | 0 <= i < position ::
        entries[i].value in sparse && sparse[entries[i].value] == entries[i].definition
      invariant forall v | v in sparse :: exists i :: 0 <= i < position && entries[i].value == v
    {
      sparse := sparse[entries[position].value := entries[position].definition];
    }
  }

  method BuildIndex(enum: map<string, EnumDef>) returns (index: Index)
    requires |enum| <= MAX_INT64  // the size of a Go map
    ensures Compiled(enum, index)
  {
    var entries, other, keysCanonical := CollectEntries(enum);
    hide EntriesOf, CanonicalKey, ByKey, MapOf, Increasing;
    index := Index(0, 0, [], [], map[], other, keysCanonical);
    if |entries| > 0 {
      var contiguous := Contiguous(entries);
      if contiguous {
        var dense := DenseDefinitions(entries);
        index := index.(minimum := entries[0].value, maximum := entries[|entries| - 1].value, dense := dense);
        assert DenseLaid(entries, index);
      } else if |entries| <= SCAN_THRESHOLD {
        index := index.(scan := entries);
        assert ScanLaid(entries, index);
      } else {
        var sparse := SparseDefinitions(entries);
        index := index.(sparse := sparse);
        assert SparseLaid(entries, index);
      }
    } else {
      assert ScanLaid(entries, index);
    }
    assert Laid(enum, entries, index);
  }

  /** Reads the index. The dense offset is taken only inside its bounds, so it cannot overflow. */
  method NumericEnumDefinition(ghost enum: map<string, EnumDef>, index: Index,
                               value: int64) returns (r: Option<EnumDef>)
    requires Compiled(enum, index)
    ensures r == ByKey(enum, value)
  {
    hide Compiled, ByKey;
    LayoutsAnswer(enum, index, value);
    if value == OTHER {
      return index.other;
    }
    if index.dense != [] {
      if value < index.minimum || value > index.maximum {
        return None;
      }
      var offset: int64 := value - index.minimum;
      return Some(index.dense[offset]);
    }
    var scanned := Scan(index.scan, value);
    if scanned.Some? {
      return Some(index.scan[scanned.value].definition);
    }
    if value in index.sparse {
      return Some(index.sparse[value]);
    }
    return None;
  }

  /** The first entry with the value. */
  method Scan(entries: seq<Entry>, value: int64) returns (at: Option<nat>)
    ensures at.Some? ==> at.value < |entries| && entries[at.value].value == value
    ensures at == None ==> forall j | 0 <= j < |entries| :: entries[j].value != value
  {
    for i := 0 to |entries|
      invariant forall j | 0 <= j < i :: entries[j].value != value
    {
      if entries[i].value == value {
        return Some(i);
      }
    }
    return None;
  }

  /** What each layout holds at a value. */
  lemma LayoutsAnswer(enum: map<string, EnumDef>, index: Index, value: int64)
    requires Compiled(enum, index)
    ensures value == OTHER ==> ByKey(enum, value) == index.other
    ensures value != OTHER && index.dense != [] ==>
      if index.minimum <= value <= index.maximum then
        && value - index.minimum < |index.dense| <= MAX_INT64
        && ByKey(enum, value) == Some(index.dense[value - index.minimum])
      else ByKey(enum, value) == None
    ensures value != OTHER && index.dense == [] ==>
      && (forall j | 0 <= j < |index.scan| && index.scan[j].value == value ::
            ByKey(enum, value) == Some(index.scan[j].definition))
      && (value in index.sparse ==> ByKey(enum, value) == Some(index.sparse[value]))
      && (ByKey(enum, value).Some? ==>
            value in index.sparse || exists j :: 0 <= j < |index.scan| && index.scan[j].value == value)
  {
    var entries: seq<Entry> :| Laid(enum, entries, index);
    if value != OTHER {
      FoundAmongEntries(enum, entries, value);
      hide EntriesOf, ByKey;
      if index.dense != [] && index.minimum <= value <= index.maximum {
        assert entries[value - index.minimum].value == value;
      }
    }
  }

  lemma FoundAmongEntries(enum: map<string, EnumDef>, entries: seq<Entry>, value: int64)
    requires EntriesOf(enum, entries) && value != OTHER
    ensures forall i | 0 <= i < |entries| && entries[i].value == value :: ByKey(enum, value) == Some(entries[i].definition)
    ensures ByKey(enum, value).Some? ==> exists i :: 0 <= i < |entries| && entries[i].value == value
  {
    if ByKey(enum, value).Some? {
      EntriesComplete(enum, entries, value);
    }
    assert forall i | 0 <= i < |entries| :: entries[i] in entries;
  }

  /** The exact-spelling shortcut taken when every key is canonical: it only ever finds what the index finds. */
  lemma CanonicalShortcut(enum: map<string, EnumDef>, index: Index, text: string)
    requires Compiled(enum, index) && index.keysCanonical && text in enum
    ensures ParseInt64(text).Some? && ByKey(enum, ParseInt64(text).value) == Some(enum[text])
  {
    assert CanonicalKey(text);
  }
}
