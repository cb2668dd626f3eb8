/** What a dictionary type inherits, told along its chain of parents. */
module Inherited {
  import opened Text
  import opened Bounds
  import opened GoValues
  import opened TypeInheritance
  import opened PrimitiveValidation
  import opened TypeRules
  import TV = TypeValues

  /** Each name but the last is a dictionary type that is no primitive and names the next as its parent. */
  predicate Chain(types: Types, chain: seq<string>) {
    && chain != []
    && forall i | 0 <= i < |chain| - 1 ::
         && chain[i] !in {"boolean_t", "float_t", "integer_t", "long_t", "string_t", "json_t"}
         && chain[i] in types && types[chain[i]].parent != "" && types[chain[i]].parent == chain[i + 1]
  }

  /** Nothing is inherited from beyond the name. */
  predicate Ends(types: Types, name: string) {
    name in {"boolean_t", "float_t", "integer_t", "long_t", "string_t", "json_t"}
    || name !in types || types[name].parent == ""
  }

  predicate From(types: Types, name: string, chain: seq<string>) {
    chain != [] && Chain(types, chain) && chain[0] == name
  }

  lemma {:induction false} ChainAncestor(types: Types, chain: seq<string>, name: string)
    requires From(types, name, chain)
    ensures Ancestor(types, name, |chain| - 1) == Some(chain[|chain| - 1])
    decreases |chain|
  {
    if |chain| > 1 {
      assert Next(types, name) == Some(chain[1]);
      assert forall i | 0 <= i < |chain| - 1 :: chain[1..][i] == chain[i + 1];
      ChainAncestor(types, chain[1..], chain[1]);
    }
  }

  lemma {:induction false} AncestorChain(types: Types, name: string, k: nat) returns (chain: seq<string>)
    requires Ancestor(types, name, k).Some?
    ensures From(types, name, chain) && |chain| == k + 1 && chain[k] == Ancestor(types, name, k).value
    ensures forall j | 0 <= j <= k :: Ancestor(types, name, j) == Some(chain[j])
    decreases k
  {
    if k == 0 {
      chain := [name];
    } else {
      var parent := Next(types, name).value;
      var rest := AncestorChain(types, parent, k - 1);
      chain := [name] + rest;
      forall j | 0 <= j <= k ensures Ancestor(types, name, j) == Some(chain[j]) {
        if j > 0 {
          assert Ancestor(types, name, j) == Ancestor(types, parent, j - 1);
        }
      }
    }
  }

  /** A chain that ends is the type's whole line of parents. */
  lemma EndedChain(types: Types, name: string, chain: seq<string>)
    requires From(types, name, chain) && Ends(types, chain[|chain| - 1])
    ensures Terminates(types, name) && Terminal(types, name) == chain[|chain| - 1]
  {
    hide *;
    LastOf(types, name, chain);
    ChainAncestor(types, chain, name);
    TerminalIs(types, name, |chain| - 1, chain[|chain| - 1]);
  }

  lemma LastOf(types: Types, name: string, chain: seq<string>)
    requires From(types, name, chain) && Ends(types, chain[|chain| - 1])
    ensures |chain| > 0 && Next(types, chain[|chain| - 1]) == None
  {
    hide Chain;
  }

  lemma WholeChain(types: Types, name: string) returns (chain: seq<string>)
    requires Terminates(types, name)
    ensures From(types, name, chain) && chain[|chain| - 1] == Terminal(types, name) && Ends(types, chain[|chain| - 1])
  {
    hide Terminal, Terminates, Chain, Ancestor;
    var end := Terminal(types, name);
    var k: nat :| Ancestor(types, name, k) == Some(end);
    chain := AncestorChain(types, name, k);
    EndIs(types, end);
  }

  lemma EndIs(types: Types, end: string)
    ensures Ends(types, end) <==> Next(types, end) == None
  {
  }

  /** The type's own primitive type is where its chain of parents ends. */
  lemma PrimitiveExactly(p: Platform, types: Types, cache: Cache, name: string, end: string)
    requires Resolved(p, types, cache) && name in types
    ensures name in cache
    ensures cache[name].primitive == end <==>
      exists chain :: From(types, name, chain) && chain[|chain| - 1] == end && Ends(types, end)
  {
    hide Chain, Ends, Terminates, Terminal, Resolved;
    EntryTerminal(p, types, cache, name);
    if cache[name].primitive == end {
      var chain := WholeChain(types, name);
    }
    if chain :| From(types, name, chain) && chain[|chain| - 1] == end && Ends(types, end) {
      EndedChain(types, name, chain);
    }
  }

  lemma EntryTerminal(p: Platform, types: Types, cache: Cache, name: string)
    requires Resolved(p, types, cache) && name in types
    ensures name in cache && Terminates(types, name) && cache[name].primitive == Terminal(types, name)
  {
    hide ContentFaithful, Nearest, Terminates, Terminal;
  }

  /** The first type on the chain, the type itself included, that has something of the constraint. */
  ghost predicate FirstWith(types: Types, name: string, chain: seq<string>, has: TypeDef -> bool) {
    && From(types, name, chain)
    && chain[|chain| - 1] in types && has(types[chain[|chain| - 1]])
    && forall i | 0 <= i < |chain| - 1 :: chain[i] in types ==> !has(types[chain[i]])
  }

  function Has(c: Constraint): TypeDef -> bool {
    match c
    case Regex => (d: TypeDef) => d.regex != None
    case Values => (d: TypeDef) => |d.values| > 0
    case Range => (d: TypeDef) => |d.range| == 2
    case MaxLen => (d: TypeDef) => d.maxLen != None
  }

  lemma {:induction false} SourceExactly(types: Types, name: string, c: Constraint, source: Option<string>)
    requires Nearest(types, name, c, source)
    ensures source == None <==> !exists chain :: FirstWith(types, name, chain, Has(c))
    ensures forall chain | FirstWith(types, name, chain, Has(c)) :: source == Some(chain[|chain| - 1])
  {
    forall chain | FirstWith(types, name, chain, Has(c)) ensures source == Some(chain[|chain| - 1]) {
      FirstIsNearest(types, name, c, source, chain);
    }
    if source.Some? {
      var chain := NearestIsFirst(types, name, c, source.value);
    }
  }

  lemma HasDeclares(types: Types, name: string, c: Constraint)
    ensures Declares(types, name, c) <==> name in types && Has(c)(types[name])
  {
  }

  lemma ChainIs(types: Types, name: string, chain: seq<string>, j: nat)
    requires From(types, name, chain) && j < |chain|
    ensures Ancestor(types, name, j) == Some(chain[j])
  {
    var part := chain[..j + 1];
    assert forall i | 0 <= i < |part| :: part[i] == chain[i];
    ChainAncestor(types, part, name);
  }

  lemma FirstIsNearest(types: Types, name: string, c: Constraint, source: Option<string>, chain: seq<string>)
    requires Nearest(types, name, c, source) && FirstWith(types, name, chain, Has(c))
    ensures source == Some(chain[|chain| - 1])
  {
    hide Declares, Chain;
    var n := |chain| - 1;
    forall j | 0 <= j <= n ensures Ancestor(types, name, j) == Some(chain[j]) {
      ChainIs(types, name, chain, j);
    }
    HasDeclares(types, chain[n], c);
    forall j | 0 <= j < n ensures !Declares(types, chain[j], c) {
      HasDeclares(types, chain[j], c);
    }
    assert Ancestor(types, name, n).Some?;
    if source.Some? {
      var k: nat :| NearestAt(types, name, c, source.value, k);
      assert k <= n;
      assert k == n;
    }
  }

  lemma NearestIsFirst(types: Types, name: string, c: Constraint, a: string) returns (chain: seq<string>)
    requires Nearest(types, name, c, Some(a))
    ensures FirstWith(types, name, chain, Has(c)) && chain[|chain| - 1] == a
  {
    hide Declares, Chain;
    var k: nat :| NearestAt(types, name, c, a, k);
    chain := AncestorChain(types, name, k);
    HasDeclares(types, a, c);
    forall i | 0 <= i < k ensures chain[i] in types ==> !Has(c)(types[chain[i]]) {
      HasDeclares(types, chain[i], c);
    }
  }

  /** A type has each constraint as the first type on its chain declares it, with that type as its source, and does not
      have it when none does. */
  lemma ConstraintsExactly(p: Platform, types: Types, cache: Cache, name: string, chain: seq<string>)
    requires Resolved(p, types, cache) && name in types
    ensures name in cache
    ensures var r := cache[name];
      && (FirstWith(types, name, chain, Has(Regex)) ==>
            r.regex == Some(Sourced(chain[|chain| - 1], types[chain[|chain| - 1]].regex.value)))
      && (FirstWith(types, name, chain, Has(MaxLen)) ==>
            r.maxLen == Some(Sourced(chain[|chain| - 1], types[chain[|chain| - 1]].maxLen.value)))
      && (FirstWith(types, name, chain, Has(Range)) ==>
            r.range == Some(Sourced(chain[|chain| - 1], types[chain[|chain| - 1]].range)))
      && (FirstWith(types, name, chain, Has(Values)) ==>
            r.values.Some? && r.values.value.typeName == chain[|chain| - 1])
    ensures var r := cache[name];
      && (r.regex.Some? ==> exists chain :: FirstWith(types, name, chain, Has(Regex)))
      && (r.maxLen.Some? ==> exists chain :: FirstWith(types, name, chain, Has(MaxLen)))
      && (r.range.Some? ==> exists chain :: FirstWith(types, name, chain, Has(Range)))
      && (r.values.Some? ==> exists chain :: FirstWith(types, name, chain, Has(Values)))
  {
    hide Nearest, FirstWith, TV.CompiledFor;
    var r := cache[name];
    assert Describes(p, types, name, r);
    forall c: Constraint
      ensures SourceOf(r, c) == None <==> !exists chain :: FirstWith(types, name, chain, Has(c))
      ensures FirstWith(types, name, chain, Has(c)) ==> chain != [] && SourceOf(r, c) == Some(chain[|chain| - 1])
    {
      SourceExactly(types, name, c, SourceOf(r, c));
      FromHasEnd(types, name, chain, c);
    }
  }

  lemma FromHasEnd(types: Types, name: string, chain: seq<string>, c: Constraint)
    ensures FirstWith(types, name, chain, Has(c)) ==> chain != []
  {
  }

  // ----- What the dictionary check and the compilation of constraints refuse -----

  /** Inheritance ends for a type exactly when some chain from it does. */
  lemma EndsSomewhere(types: Types, name: string)
    ensures Terminates(types, name) <==> exists chain :: From(types, name, chain) && Ends(types, chain[|chain| - 1])
  {
    hide Chain, Ends, Terminates, Terminal;
    if Terminates(types, name) {
      var chain := WholeChain(types, name);
    }
    if chain :| From(types, name, chain) && Ends(types, chain[|chain| - 1]) {
      EndedChain(types, name, chain);
    }
  }

  /** A type's own allowed values are refused exactly when one of them is no value of the primitive its chain ends in, or
      that is no primitive with values. */
  lemma RefusedExactly(p: Platform, types: Types, name: string)
    ensures Broken(p, types, name) <==>
      && name in types && |types[name].values| > 0
      && exists chain :: From(types, name, chain) && Ends(types, chain[|chain| - 1])
           && !Compilable(p, chain[|chain| - 1], types[name].values)
  {
    hide Chain, Ends, Terminates, Terminal, Broken, Compilable, TV.Convertible;
    EndsSomewhere(types, name);
    BrokenMeans(p, types, name);
    if name in types && Terminates(types, name) {
      var own := WholeChain(types, name);
      CompilableMeans(p, Terminal(types, name), types[name].values);
      forall chain | From(types, name, chain) && Ends(types, chain[|chain| - 1])
        ensures chain[|chain| - 1] == Terminal(types, name)
      {
        EndedChain(types, name, chain);
      }
    }
  }

  lemma BrokenMeans(p: Platform, types: Types, name: string)
    ensures Broken(p, types, name) <==>
      name in types && |types[name].values| > 0 && Terminates(types, name)
      && !TV.Convertible(p, Terminal(types, name), types[name].values)
  {
    hide Terminates, Terminal, TV.Convertible;
  }

  /** The values are of a primitive that has values, and finite where they are floats. */
  ghost predicate Compilable(p: Platform, primitive: string, values: seq<GoValue>) {
    && primitive in {"boolean_t", "float_t", "integer_t", "long_t", "string_t"}
    && forall v | v in values ::
         OfType(p, primitive, v) && (primitive == "float_t" ==> exists x: real :: FloatIs(p, v, Finite(x)))
  }

  lemma CompilableMeans(p: Platform, primitive: string, values: seq<GoValue>)
    ensures TV.Convertible(p, primitive, values) <==> Compilable(p, primitive, values)
  {
    ListsCompile(p, primitive, values);
    hide OfType, FloatIs, TV.Convertible;
  }
}
