/** Dictionary type inheritance: three cycle detectors, the memoised constraint resolver and the bounded
    ancestry test, each against the plain ancestor relation. */
module TypeInheritance {
  import opened Text
  import opened GoValues
  import opened TypeValues

  /** A dictionary type: its parent ("" for none) and the constraints it declares itself. */
  datatype TypeDef = TypeDef(
    parent: string,
    observable: Option<int64>,
    regex: Option<string>,
    values: seq<GoValue>,
    range: seq<int64>,
    maxLen: Option<int64>)

  type Types = map<string, TypeDef>

  predicate IsPrimitiveName(name: string) {
    name in {"boolean_t", "float_t", "integer_t", "long_t", "string_t", "json_t"}
  }

  /** The type a name inherits from; primitive names inherit from nothing. */
  function Next(types: Types, name: string): Option<string> {
    if IsPrimitiveName(name) || name !in types || types[name].parent == "" then None
    else Some(types[name].parent)
  }

  /** The k-th ancestor, when the chain is that long. */
  function Ancestor(types: Types, name: string, k: nat): Option<string>
    decreases k
  {
    if k == 0 then Some(name)
    else match Next(types, name)
      case None => None
      case Some(parent) => Ancestor(types, parent, k - 1)
  }

  ghost predicate Terminates(types: Types, name: string) {
    exists k: nat :: Ancestor(types, name, k) == None
  }

  lemma {:induction false} AncestorCompose(types: Types, name: string, i: nat, j: nat)
    requires Ancestor(types, name, i).Some?
    ensures Ancestor(types, name, i + j) == Ancestor(types, Ancestor(types, name, i).value, j)
    decreases i
  {
    if i > 0 {
      AncestorCompose(types, Next(types, name).value, i - 1, j);
    }
  }

  lemma {:induction false} AncestorEnds(types: Types, name: string, i: nat, j: nat)
    requires Ancestor(types, name, i) == None && i <= j
    ensures Ancestor(types, name, j) == None
    decreases i
  {
    if Next(types, name).Some? {
      AncestorEnds(types, Next(types, name).value, i - 1, j - 1);
    }
  }

  /** A name that is its own proper ancestor never ends. */
  lemma {:induction false} CycleNeverEnds(types: Types, name: string, period: nat, k: nat)
    requires period > 0 && Ancestor(types, name, period) == Some(name)
    ensures Ancestor(types, name, k).Some?
    decreases k
  {
    if k >= period {
      AncestorCompose(types, name, period, k - period);
      CycleNeverEnds(types, name, period, k - period);
    } else if Ancestor(types, name, k) == None {
      AncestorEnds(types, name, k, period);
    }
  }

  lemma TerminatesStep(types: Types, name: string, i: nat)
    requires Ancestor(types, name, i).Some?
    ensures Terminates(types, name) <==> Terminates(types, Ancestor(types, name, i).value)
  {
    var m := Ancestor(types, name, i).value;
    if Terminates(types, name) {
      var k :| Ancestor(types, name, k) == None;
      AncestorEnds(types, name, k, i + k);
      AncestorCompose(types, name, i, k);
    }
    if Terminates(types, m) {
      var k :| Ancestor(types, m, k) == None;
      AncestorCompose(types, name, i, k);
    }
  }

  /** `trail` climbs from its first name to just below `current`. */
  ghost predicate Trail(types: Types, trail: seq<string>, current: string) {
    forall i | 0 <= i < |trail| :: Next(types, trail[i]) == Some(Above(trail, current, i))
  }

  ghost function Above(trail: seq<string>, current: string, i: nat): string {
    if i + 1 < |trail| then trail[i + 1] else current
  }

  lemma {:induction false} TrailAncestor(types: Types, trail: seq<string>, current: string, i: nat)
    requires Trail(types, trail, current) && i < |trail|
    ensures Ancestor(types, trail[i], |trail| - i) == Some(current)
    decreases |trail| - i
  {
    if i + 1 < |trail| {
      TrailAncestor(types, trail, current, i + 1);
    } else {
      assert Next(types, trail[i]) == Some(current);
      assert Ancestor(types, current, 0) == Some(current);
      assert Ancestor(types, trail[i], 1) == Ancestor(types, current, 0);
    }
  }

  ghost function OnTrail(trail: seq<string>): set<string> {
    set n | n in trail
  }

  lemma TrailPush(types: Types, trail: seq<string>, current: string)
    requires Trail(types, trail, current) && Next(types, current).Some?
    ensures Trail(types, trail + [current], Next(types, current).value)
  {
  }

  lemma TrailCycle(types: Types, trail: seq<string>, current: string)
    requires Trail(types, trail, current) && current in trail
    ensures !Terminates(types, current)
    ensures forall n | n in trail :: !Terminates(types, n)
  {
    var i :| 0 <= i < |trail| && trail[i] == current;
    TrailAncestor(types, trail, current, i);
    forall k: nat ensures Ancestor(types, current, k).Some? {
      CycleNeverEnds(types, current, |trail| - i, k);
    }
    forall n | n in trail ensures !Terminates(types, n) {
      var j :| 0 <= j < |trail| && trail[j] == n;
      TrailAncestor(types, trail, current, j);
      TerminatesStep(types, n, |trail| - j);
    }
  }

  lemma TrailEnd(types: Types, trail: seq<string>, current: string)
    requires Trail(types, trail, current) && Terminates(types, current)
    ensures forall n | n in trail :: Terminates(types, n)
  {
    forall n | n in trail ensures Terminates(types, n) {
      var j :| 0 <= j < |trail| && trail[j] == n;
      TrailAncestor(types, trail, current, j);
      TerminatesStep(types, n, |trail| - j);
    }
  }

  // ----- Resolving the primitive type -----

  /** The ancestor where the chain ends. */
  ghost function Terminal(types: Types, name: string): (t: string)
    requires Terminates(types, name)
    ensures Next(types, t) == None
    ensures exists k: nat :: Ancestor(types, name, k) == Some(t)
  {
    LastAncestor(types, name);
    var k: nat :| Ancestor(types, name, k).Some? && Next(types, Ancestor(types, name, k).value) == None;
    Ancestor(types, name, k).value
  }

  lemma LastAncestor(types: Types, name: string)
    requires Terminates(types, name)
    ensures exists k: nat :: Ancestor(types, name, k).Some? && Next(types, Ancestor(types, name, k).value) == None
  {
    var end: nat :| Ancestor(types, name, end) == None;
    var k := 0;
    while Next(types, Ancestor(types, name, k).value).Some?
      invariant k < end
      invariant Ancestor(types, name, k).Some?
      decreases end - k
    {
      AncestorCompose(types, name, k, 1);
      assert Ancestor(types, Next(types, Ancestor(types, name, k).value).value, 0).Some?;
      k := k + 1;
    }
  }

  /** The end of the chain is the same from every name on it. */
  lemma TerminalIs(types: Types, name: string, k: nat, t: string)
    requires Ancestor(types, name, k) == Some(t) && Next(types, t) == None
    ensures Terminates(types, name) && Terminal(types, name) == t
  {
    assert Ancestor(types, t, 1) == None;
    AncestorCompose(types, name, k, 1);
    var u := Terminal(types, name);
    var j: nat :| Ancestor(types, name, j) == Some(u);
    assert Ancestor(types, u, 1) == None;
    AncestorCompose(types, name, j, 1);
    if k < j {
      AncestorEnds(types, name, k + 1, j);
    } else if j < k {
      AncestorEnds(types, name, j + 1, k);
    }
  }

  method ResolvePrimitiveType(types: Types, typeName: string) returns (r: Option<string>)
    ensures r.Some? <==> Terminates(types, typeName)
    ensures r.Some? ==> r.value == Terminal(types, typeName)
  {
    var currentName := typeName;
    var seen: set<string> := {};
    ghost var trail: seq<string> := [];
    while true
      invariant seen <= types.Keys
      invariant seen == set n | n in trail
      invariant Trail(types, trail, currentName)
      invariant if trail == [] then currentName == typeName else trail[0] == typeName
      decreases types.Keys - seen
    {
      if trail != [] {
        TrailAncestor(types, trail, currentName, 0);
      } else {
        assert Ancestor(types, currentName, 0) == Some(currentName);
      }
      if IsPrimitiveName(currentName) {
        TerminalIs(types, typeName, |trail|, currentName);
        return Some(currentName);
      }
      if currentName in seen {
        TrailCycle(types, trail, currentName);
        return None;
      }
      if currentName !in types || types[currentName].parent == "" {
        TerminalIs(types, typeName, |trail|, currentName);
        return Some(currentName);
      }
      TrailPush(types, trail, currentName);
      seen := seen + {currentName};
      trail := trail + [currentName];
      currentName := types[currentName].parent;
    }
  }

  // ----- The three-colour schema check -----

  datatype Colour = Visiting | Visited

  /** One climb of the check: colours the names met as Visiting until the chain ends, reaches a finished name
      or meets a name of this climb again. */
  method ClimbColouring(types: Types, before: map<string, Colour>, typeName: string)
    returns (states: map<string, Colour>, path: seq<string>, cycle: Option<string>)
    requires forall n | n in before :: before[n] == Visited && Terminates(types, n)
    ensures cycle.Some? ==> !Terminates(types, cycle.value) && !Terminates(types, typeName)
    ensures cycle == None ==> Terminates(types, typeName) && forall n | n in path :: Terminates(types, n)
    ensures forall n :: n in states <==> n in before || n in path
    ensures forall n | n in states && n !in path :: states[n] == Visited
  {
    states := before;
    path := [];
    var currentName := typeName;
    ghost var trail: seq<string> := [];
    var ended := false;
    while !ended && !IsPrimitiveName(currentName)
      invariant Trail(types, trail, currentName)
      invariant path == trail || (ended && path == trail + [currentName])
      invariant if trail == [] then currentName == typeName else trail[0] == typeName
      invariant ended ==> Terminates(types, currentName)
      invariant forall n :: n in states <==> n in before || n in path
      invariant forall n | n in states :: states[n] == if n in path then Visiting else Visited
      invariant forall n | n in trail :: n in types
      decreases !ended, types.Keys - OnTrail(trail)
    {
      if currentName in states {
        if states[currentName] == Visiting {
          TrailCycle(types, trail, currentName);
          return states, path, Some(currentName);
        }
        ended := true;
      } else {
        states := states[currentName := Visiting];
        path := path + [currentName];
        if currentName !in types || types[currentName].parent == "" {
          assert Ancestor(types, currentName, 1) == None;
          ended := true;
        } else {
          TrailPush(types, trail, currentName);
          assert currentName in types.Keys - OnTrail(trail);
          trail := trail + [currentName];
          assert currentName in OnTrail(trail);
          currentName := types[currentName].parent;
        }
      }
    }
    if !ended {
      assert Ancestor(types, currentName, 1) == None;
    }
    TrailEnd(types, trail, currentName);
    return states, path, None;
  }

  /** Colours every type once; `order` is the sorted key list. Answers the name a cycle was met at. */
  method ValidateTypeInheritance(types: Types, order: seq<string>) returns (cycle: Option<string>)
    requires forall n :: n in order <==> n in types
    ensures cycle == None <==> forall n | n in types :: Terminates(types, n)
    ensures cycle.Some? ==> !Terminates(types, cycle.value)
  {
    var states: map<string, Colour> := map[];
    for index := 0 to |order|
      invariant forall n | n in states :: states[n] == Visited && Terminates(types, n)
      invariant forall i | 0 <= i < index :: Terminates(types, order[i])
    {
      var typeName := order[index];
      if typeName in states && states[typeName] == Visited {
        continue;
      }
      var path;
      states, path, cycle := ClimbColouring(types, states, typeName);
      if cycle.Some? {
        return;
      }
      for i := 0 to |path|
        invariant forall n | n in states :: Terminates(types, n) && (states[n] == Visited || n in path[i..])
      {
        states := states[path[i] := Visited];
      }
    }
    return None;
  }

  // ----- The memoised constraint resolver -----

  datatype Constraint = Regex | Values | Range | MaxLen

  /** A constraint's content together with the type that declared it. */
  datatype Sourced<+T> = Sourced(typeName: string, content: T)

  datatype TypeValidation = TypeValidation(
    primitive: string,
    regex: Option<Sourced<string>>,
    values: Option<Sourced<ValueConstraint>>,
    range: Option<Sourced<seq<int64>>>,
    maxLen: Option<Sourced<int64>>)

  function Bare(primitive: string): TypeValidation {
    TypeValidation(primitive, None, None, None, None)
  }

  predicate Declares(types: Types, name: string, c: Constraint) {
    name in types &&
    match c
    case Regex => types[name].regex.Some?
    case Values => types[name].values != []
    case Range => |types[name].range| == 2
    case MaxLen => types[name].maxLen.Some?
  }

  function SourceOf(r: TypeValidation, c: Constraint): Option<string> {
    match c
    case Regex => if r.regex.Some? then Some(r.regex.value.typeName) else None
    case Values => if r.values.Some? then Some(r.values.value.typeName) else None
    case Range => if r.range.Some? then Some(r.range.value.typeName) else None
    case MaxLen => if r.maxLen.Some? then Some(r.maxLen.value.typeName) else None
  }

  /** The content is what its source declares. Values declared anywhere on a chain are compiled for the primitive type
      the chain ends in, so whoever inherits them reads values as they were read. */
  ghost predicate ContentFaithful(p: Platform, types: Types, r: TypeValidation) {
    && (r.regex.Some? ==> Declares(types, r.regex.value.typeName, Regex)
                          && types[r.regex.value.typeName].regex == Some(r.regex.value.content))
    && (r.values.Some? ==> Declares(types, r.values.value.typeName, Values)
                           && CompiledFor(p, r.primitive, types[r.values.value.typeName].values, r.values.value.content))
    && (r.range.Some? ==> Declares(types, r.range.value.typeName, Range)
                          && types[r.range.value.typeName].range == r.range.value.content)
    && (r.maxLen.Some? ==> Declares(types, r.maxLen.value.typeName, MaxLen)
                           && types[r.maxLen.value.typeName].maxLen == Some(r.maxLen.value.content))
  }

  /** `source` is the closest type on the chain from `name`, itself included, that declares `c`. */
  ghost predicate Nearest(types: Types, name: string, c: Constraint, source: Option<string>) {
    match source
    case None => forall k: nat | Ancestor(types, name, k).Some? :: !Declares(types, Ancestor(types, name, k).value, c)
    case Some(a) => exists k: nat :: NearestAt(types, name, c, a, k)
  }

  ghost predicate NearestAt(types: Types, name: string, c: Constraint, a: string, k: nat) {
    && Ancestor(types, name, k) == Some(a) && Declares(types, a, c)
    && forall j: nat | j < k && Ancestor(types, name, j).Some? :: !Declares(types, Ancestor(types, name, j).value, c)
  }

  /** What the simple inheritance walk says about a name. */
  ghost predicate Describes(p: Platform, types: Types, name: string, r: TypeValidation) {
    && Terminates(types, name) && r.primitive == Terminal(types, name)
    && ContentFaithful(p, types, r)
    && forall c :: Nearest(types, name, c, SourceOf(r, c))
  }

  lemma NearestInherited(types: Types, name: string, parent: string, c: Constraint, source: Option<string>)
    requires Next(types, name) == Some(parent)
    requires Nearest(types, parent, c, source)
    ensures Nearest(types, name, c, if Declares(types, name, c) then Some(name) else source)
  {
    assert forall k: nat :: Ancestor(types, name, k + 1) == Ancestor(types, parent, k);
    if Declares(types, name, c) {
      assert NearestAt(types, name, c, name, 0);
    } else if source.Some? {
      var k: nat :| NearestAt(types, parent, c, source.value, k);
      forall j: nat | j < k + 1 && Ancestor(types, name, j).Some?
        ensures !Declares(types, Ancestor(types, name, j).value, c)
      {
        if j > 0 {
          assert Ancestor(types, name, j) == Ancestor(types, parent, j - 1);
        }
      }
      assert NearestAt(types, name, c, source.value, k + 1);
    } else {
      forall k: nat | Ancestor(types, name, k).Some? ensures !Declares(types, Ancestor(types, name, k).value, c) {
        if k > 0 {
          assert Ancestor(types, name, k) == Ancestor(types, parent, k - 1);
        }
      }
    }
  }

  lemma NearestAlone(types: Types, name: string, c: Constraint)
    requires Next(types, name) == None
    ensures Nearest(types, name, c, if Declares(types, name, c) then Some(name) else None)
  {
    assert forall k: nat | k > 0 :: Ancestor(types, name, k) == None;
    if Declares(types, name, c) {
      assert NearestAt(types, name, c, name, 0);
    }
  }

  lemma BareDescribes(p: Platform, types: Types, name: string)
    requires name !in types
    ensures Describes(p, types, name, Bare(name))
  {
    TerminalIs(types, name, 0, name);
    forall c ensures Nearest(types, name, c, SourceOf(Bare(name), c)) {
      NearestAlone(types, name, c);
    }
  }

  ghost predicate ValuesUnusable(p: Platform, types: Types, name: string, primitive: string)
    requires name in types
  {
    types[name].values != [] && !Convertible(p, primitive, types[name].values)
  }

  /** One inheritance step: the type's own declarations win over the inherited ones. */
  ghost predicate InheritsTo(p: Platform, types: Types, name: string, inherited: TypeValidation, r: TypeValidation) {
    && r.primitive == inherited.primitive
    && (forall c :: SourceOf(r, c) == if Declares(types, name, c) then Some(name) else SourceOf(inherited, c))
    && (ContentFaithful(p, types, inherited) ==> ContentFaithful(p, types, r))
  }

  method ResolveTypeValidation(p: Platform, types: Types, name: string, inherited: TypeValidation)
    returns (r: Option<TypeValidation>)
    requires name in types
    ensures r == None <==> ValuesUnusable(p, types, name, inherited.primitive)
    ensures r.Some? ==> InheritsTo(p, types, name, inherited, r.value)
  {
    hide CompiledFor, Convertible;
    var d := types[name];
    var resolved := inherited;
    if d.regex.Some? {
      resolved := resolved.(regex := Some(Sourced(name, d.regex.value)));
    }
    if d.values != [] {
      var constraint := CompileValueConstraint(p, resolved.primitive, d.values);
      if constraint == None {
        return None;
      }
      resolved := resolved.(values := Some(Sourced(name, constraint.value)));
    }
    if |d.range| == 2 {
      resolved := resolved.(range := Some(Sourced(name, d.range)));
    }
    if d.maxLen.Some? {
      resolved := resolved.(maxLen := Some(Sourced(name, d.maxLen.value)));
    }
    return Some(resolved);
  }

  lemma ResolvedFromParent(p: Platform, types: Types, name: string, parent: string, inherited: TypeValidation,
                           r: TypeValidation)
    requires name in types && Next(types, name) == Some(parent) && Describes(p, types, parent, inherited)
    requires InheritsTo(p, types, name, inherited, r)
    ensures Terminates(types, name) && inherited.primitive == Terminal(types, name)
    ensures Describes(p, types, name, r)
  {
    hide ContentFaithful;
    ParentEnds(types, name, parent);
    forall c ensures Nearest(types, name, c, SourceOf(r, c)) {
      NearestInherited(types, name, parent, c, SourceOf(inherited, c));
    }
  }

  lemma ParentEnds(types: Types, name: string, parent: string)
    requires Next(types, name) == Some(parent) && Terminates(types, parent)
    ensures Terminates(types, name) && Terminal(types, name) == Terminal(types, parent)
  {
    assert Ancestor(types, name, 1) == Ancestor(types, parent, 0);
    TerminatesStep(types, name, 1);
    var k: nat :| Ancestor(types, parent, k) == Some(Terminal(types, parent));
    assert Ancestor(types, name, k + 1) == Ancestor(types, parent, k);
    TerminalIs(types, name, k + 1, Terminal(types, parent));
  }

  lemma ResolvedFromBare(p: Platform, types: Types, name: string, r: TypeValidation)
    requires name in types && Next(types, name) == None && InheritsTo(p, types, name, Bare(name), r)
    ensures Terminates(types, name) && name == Terminal(types, name)
    ensures Describes(p, types, name, r)
  {
    TerminalIs(types, name, 0, name);
    forall c ensures Nearest(types, name, c, SourceOf(r, c)) {
      NearestAlone(types, name, c);
    }
  }

  /** Where a climb stopped: at a described ancestor, or on a final name that starts from nothing. */
  ghost predicate Climbed(p: Platform, types: Types, path: seq<string>, trail: seq<string>, current: string,
                          start: TypeValidation) {
    && Trail(types, trail, current)
    && if path == trail then Describes(p, types, current, start)
       else path == trail + [current] && Next(types, current) == None && start == Bare(current)
  }

  /** What fills in a position: the climb's start, or what was filled in above it. */
  ghost predicate HandedDown(p: Platform, types: Types, path: seq<string>, index: nat, start: TypeValidation,
                             inherited: TypeValidation)
    requires index < |path|
  {
    if index + 1 == |path| then inherited == start else Describes(p, types, path[index + 1], inherited)
  }

  lemma InheritedEnds(p: Platform, types: Types, path: seq<string>, trail: seq<string>, current: string,
                      start: TypeValidation,
                      index: nat, inherited: TypeValidation)
    requires Climbed(p, types, path, trail, current, start)
    requires index < |path| && path[index] in types && HandedDown(p, types, path, index, start, inherited)
    ensures Terminates(types, path[index]) && inherited.primitive == Terminal(types, path[index])
  {
    hide ContentFaithful, Nearest;
    var name := path[index];
    if index == |trail| {
      TerminalIs(types, name, 0, name);
    } else {
      ParentEnds(types, name, Next(types, name).value);
    }
  }

  lemma FilledStep(p: Platform, types: Types, path: seq<string>, trail: seq<string>, current: string,
                   start: TypeValidation,
                   index: nat, inherited: TypeValidation, r: TypeValidation)
    requires Climbed(p, types, path, trail, current, start)
    requires index < |path| && path[index] in types && HandedDown(p, types, path, index, start, inherited)
    requires InheritsTo(p, types, path[index], inherited, r)
    ensures Describes(p, types, path[index], r)
  {
    hide Describes, InheritsTo;
    var name := path[index];
    if index == |trail| {
      ResolvedFromBare(p, types, name, r);
    } else {
      ResolvedFromParent(p, types, name, Next(types, name).value, inherited, r);
    }
  }

  datatype BuildError = InheritanceCycle | UnusableValues

  /** The type's own values cannot be compiled for the primitive it ends in. */
  ghost predicate Broken(p: Platform, types: Types, name: string) {
    name in types && Terminates(types, name) && ValuesUnusable(p, types, name, Terminal(types, name))
  }

  class TypeResolver {
    const types: Types
    const p: Platform
    var resolved: map<string, TypeValidation>
    var visiting: set<string>

    constructor (types: Types, p: Platform)
      ensures this.types == types && this.p == p
      ensures Valid() && resolved == map[]
    {
      this.types := types;
      this.p := p;
      resolved := map[];
      visiting := {};
    }

    /** Every memoised entry is what the simple walk says. */
    ghost predicate Valid()
      reads this
    {
      visiting == {} && Sound()
    }

    ghost predicate Sound()
      reads this
    {
      forall n | n in resolved ::
        && n in types && Terminates(types, n) && !Broken(p, types, n)
        && Describes(p, types, n, resolved[n])
    }

    /** Climbs to a memoised, absent or final name, then fills in the names climbed from the top down. */
    method Resolve(typeName: string) returns (error: Option<BuildError>)
      requires Valid()
      modifies this
      ensures error == None ==> Valid() && (typeName in types ==> typeName in resolved)
      ensures error == None ==> forall n | n in old(resolved) :: n in resolved && resolved[n] == old(resolved)[n]
      ensures !Terminates(types, typeName) <==> error == Some(InheritanceCycle)
      ensures error == Some(UnusableValues) ==>
        exists n :: Broken(p, types, n)
    {
      hide Describes;
      if typeName in resolved {
        return None;
      }
      var currentName := typeName;
      var path: seq<string> := [];
      var inherited;
      ghost var trail: seq<string> := [];
      while true
        invariant resolved == old(resolved) && Sound()
        invariant path == trail && visiting == OnTrail(trail) && visiting <= types.Keys
        invariant forall n | n in path :: n !in resolved
        invariant Trail(types, trail, currentName)
        invariant if trail == [] then currentName == typeName else trail[0] == typeName
        decreases types.Keys - visiting
      {
        if currentName in resolved {
          inherited := resolved[currentName];
          break;
        }
        if currentName in visiting {
          TrailCycle(types, trail, currentName);
          return Some(InheritanceCycle);
        }
        if currentName !in types {
          inherited := Bare(currentName);
          BareDescribes(p, types, currentName);
          break;
        }
        visiting := visiting + {currentName};
        path := path + [currentName];
        if IsPrimitiveName(currentName) || types[currentName].parent == "" {
          inherited := Bare(currentName);
          break;
        }
        TrailPush(types, trail, currentName);
        trail := trail + [currentName];
        currentName := types[currentName].parent;
      }
      if path != trail {
        assert Ancestor(types, currentName, 1) == None;
      }
      TrailEnd(types, trail, currentName);
      error := FillIn(typeName, path, trail, currentName, inherited);
    }

    method FillIn(typeName: string, path: seq<string>, ghost trail: seq<string>, currentName: string,
                  start: TypeValidation)
      returns (error: Option<BuildError>)
      requires Sound() && visiting == OnTrail(path) <= types.Keys
      requires Climbed(p, types, path, trail, currentName, start)
      requires if path == [] then typeName == currentName && (typeName in types ==> typeName in resolved)
               else path[0] == typeName
      modifies this
      ensures error == None ==> Valid() && (typeName in types ==> typeName in resolved)
      ensures error == None ==> forall n | n in old(resolved) && n !in path :: n in resolved && resolved[n] == old(resolved)[n]
      ensures error == Some(InheritanceCycle) ==> false
      ensures error == Some(UnusableValues) ==>
        exists n :: Broken(p, types, n)
    {
      hide Describes, Climbed, Terminates, InheritsTo, ValuesUnusable;
      var inherited := start;
      var index := |path|;
      while index > 0
        invariant 0 <= index <= |path|
        invariant Sound()
        invariant visiting <= OnTrail(path[..index])
        invariant forall n | n in path[index..] :: n in resolved
        invariant path == [] ==> (typeName in types ==> typeName in resolved)
        invariant index > 0 ==> HandedDown(p, types, path, index - 1, start, inherited)
        invariant forall n | n in old(resolved) && n !in path :: n in resolved && resolved[n] == old(resolved)[n]
      {
        index := index - 1;
        var name := path[index];
        assert name in OnTrail(path);
        InheritedEnds(p, types, path, trail, currentName, start, index, inherited);
        var next := ResolveTypeValidation(p, types, name, inherited);
        if next == None {
          assert Broken(p, types, name);
          return Some(UnusableValues);
        }
        FilledStep(p, types, path, trail, currentName, start, index, inherited, next.value);
        resolved := resolved[name := next.value];
        visiting := visiting - {name};
        assert path[..index + 1] == path[..index] + [name];
        inherited := next.value;
      }
      return None;
    }
  }

  /** Resolves every type, in whatever order the keys come. */
  method Build(p: Platform, types: Types, order: seq<string>)
    returns (cache: map<string, TypeValidation>, error: Option<BuildError>)
    requires forall n :: n in order <==> n in types
    ensures error == None <==>
      forall n | n in types :: Terminates(types, n) && !Broken(p, types, n)
    ensures error == None ==> cache.Keys == types.Keys && forall n | n in types :: Describes(p, types, n, cache[n])
  {
    var resolver := new TypeResolver(types, p);
    for index := 0 to |order|
      invariant resolver.Valid() && resolver.types == types && resolver.p == p
      invariant forall i | 0 <= i < index :: order[i] in resolver.resolved
    {
      error := resolver.Resolve(order[index]);
      if error.Some? {
        assert order[index] in types;
        if error.value == UnusableValues {
          ghost var n :| Broken(p, types, n);
          assert n in types;
        }
        return map[], error;
      }
    }
    return resolver.resolved, None;
  }

  // ----- The bounded ancestry test -----

  /** The name a dictionary entry points to, primitive or not; the empty name points nowhere. */
  function RawAncestor(types: Types, name: string, k: nat): Option<string>
    decreases k
  {
    if name == "" then None
    else if k == 0 then Some(name)
    else if name !in types then None
    else RawAncestor(types, types[name].parent, k - 1)
  }

  ghost predicate DerivedFrom(types: Types, name: string, base: string) {
    exists k: nat :: RawAncestor(types, name, k) == Some(base)
  }

  lemma {:induction false} RawCompose(types: Types, name: string, i: nat, j: nat)
    requires RawAncestor(types, name, i).Some?
    ensures RawAncestor(types, name, i + j) == RawAncestor(types, RawAncestor(types, name, i).value, j)
    decreases i
  {
    if i > 0 {
      RawCompose(types, types[name].parent, i - 1, j);
    }
  }

  lemma {:induction false} RawPrefix(types: Types, name: string, i: nat, j: nat)
    requires i < j && RawAncestor(types, name, j).Some?
    ensures RawAncestor(types, name, i).Some? && RawAncestor(types, name, i).value in types
    decreases i
  {
    if i > 0 {
      RawPrefix(types, types[name].parent, i - 1, j - 1);
    }
  }

  /** A duplicate-free list drawn from a set is no longer than the set. */
  lemma {:induction false} Pigeonhole(names: seq<string>, pool: set<string>)
    requires forall n | n in names :: n in pool
    requires forall i, j | 0 <= i < j < |names| :: names[i] != names[j]
    ensures |names| <= |pool|
  {
    if names != [] {
      forall n | n in names[1..] ensures n in pool - {names[0]} {
        var i :| 0 <= i < |names[1..]| && names[1..][i] == n;
        assert names[i + 1] == n;
      }
      Pigeonhole(names[1..], pool - {names[0]});
    }
  }

  /** A base that is met at all is met within the first |types| + 1 names, even on a cycle. */
  lemma {:induction false} DerivedWithinBudget(types: Types, name: string, base: string, k: nat)
    requires RawAncestor(types, name, k) == Some(base)
    ensures exists j: nat :: j <= |types| && RawAncestor(types, name, j) == Some(base)
    decreases k
  {
    if j: nat :| j < k && RawAncestor(types, name, j) == Some(base) {
      DerivedWithinBudget(types, name, base, j);
    } else {
      forall i: nat | i < k ensures RawAncestor(types, name, i).Some? && RawAncestor(types, name, i).value in types {
        RawPrefix(types, name, i, k);
      }
      var names := seq(k, i requires 0 <= i < k => RawAncestor(types, name, i).value);
      forall i, j | 0 <= i < j < k ensures names[i] != names[j] {
        RawCompose(types, name, j, k - j);
        RawCompose(types, name, i, k - j);
        assert RawAncestor(types, name, i + (k - j)) != Some(base);
      }
      Pigeonhole(names, types.Keys);
    }
  }

  lemma BudgetExact(types: Types, name: string, base: string)
    ensures DerivedFrom(types, name, base) <==> exists j: nat :: j <= |types| && RawAncestor(types, name, j) == Some(base)
  {
    if k: nat :| RawAncestor(types, name, k) == Some(base) {
      DerivedWithinBudget(types, name, base, k);
    }
  }

  /** `name` is where `d` steps from `start` lead. */
  ghost predicate ReachedAt(types: Types, start: string, d: nat, name: string) {
    forall j: nat :: RawAncestor(types, name, j) == RawAncestor(types, start, d + j)
  }

  lemma ReachedStep(types: Types, start: string, d: nat, name: string)
    requires ReachedAt(types, start, d, name) && name != ""
    ensures RawAncestor(types, start, d) == Some(name)
    ensures name in types ==> ReachedAt(types, start, d + 1, types[name].parent)
  {
    assert RawAncestor(types, name, 0) == RawAncestor(types, start, d + 0);
    if name in types {
      forall j: nat ensures RawAncestor(types, types[name].parent, j) == RawAncestor(types, start, d + 1 + j) {
        assert RawAncestor(types, name, 1 + j) == RawAncestor(types, start, d + (1 + j));
      }
    }
  }

  lemma ReachedEnd(types: Types, start: string, d: nat, name: string, base: string)
    requires ReachedAt(types, start, d, name)
    requires name == "" || (name !in types && name != base)
    requires forall j: nat | j < d :: RawAncestor(types, start, j) != Some(base)
    ensures !DerivedFrom(types, start, base)
  {
    forall k: nat ensures RawAncestor(types, start, k) != Some(base) {
      if k >= d {
        assert RawAncestor(types, name, k - d) == RawAncestor(types, start, d + (k - d));
      }
    }
  }

  /** The budget of |types| + 1 names is exact: the loop answers the unbounded question. */
  method TypeDerivedFrom(types: Types, typeName: string, base: string) returns (derived: bool)
    ensures derived <==> DerivedFrom(types, typeName, base)
  {
    var name := typeName;
    var remaining := |types| + 1;
    BudgetExact(types, typeName, base);
    assert ReachedAt(types, typeName, 0, typeName);
    hide ReachedAt, RawAncestor;
    while name != "" && remaining > 0
      invariant 0 <= remaining <= |types| + 1
      invariant forall j: nat | j < |types| + 1 - remaining :: RawAncestor(types, typeName, j) != Some(base)
      invariant ReachedAt(types, typeName, |types| + 1 - remaining, name)
    {
      ReachedStep(types, typeName, |types| + 1 - remaining, name);
      if name == base {
        return true;
      }
      if name !in types {
        ReachedEnd(types, typeName, |types| + 1 - remaining, name, base);
        return false;
      }
      name := types[name].parent;
      remaining := remaining - 1;
    }
    if name == "" {
      ReachedEnd(types, typeName, |types| + 1 - remaining, name, base);
    }
    return false;
  }
}
