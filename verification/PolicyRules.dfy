/** What the rules that the options build do to each code, told rule by rule. */
module PolicyRules {
  import opened Text
  import opened Policy

  /** The rule is about the code: it lists it, or lists none and is about every code that may be suppressed, every error
      or every warning. */
  predicate About(t: CodeTable, rule: Rule, code: Code) {
    || code in rule.codes
    || (rule.codes == [] && code in t.levels
        && match rule.action
           case Suppress => code !in t.mandatory
           case AsWarning => t.levels[code] == Error
           case AsError => t.levels[code] == Warning)
  }

  lemma AboutMeansGives(t: CodeTable, rule: Rule, code: Code)
    requires Public(rule)
    ensures Gives(t, rule, code) <==> About(t, rule, code)
    ensures !SuppressesLevel(rule)
  {
  }

  /** Such rules are accepted exactly when they list only valid codes, list no mandatory one to suppress, and are not
      about one code with different actions. */
  lemma Acceptable(t: CodeTable, rules: seq<Rule>)
    requires forall r | r in rules :: Public(r)
    ensures Consistent(t, rules) <==>
      && (forall r, c | r in rules && c in r.codes :: c in t.levels && (r.action == Suppress ==> c !in t.mandatory))
      && (forall r, s, c | r in rules && s in rules && About(t, r, c) && About(t, s, c) :: r.action == s.action)
  {
    forall r, c | r in rules ensures Gives(t, r, c) <==> About(t, r, c) {
      AboutMeansGives(t, r, c);
    }
    hide Gives, About;
  }

  /** Under accepted rules a rule about a code decides what becomes of its findings: they are withheld and counted by
      their default level, or reported as warnings, or as errors; and without such a rule they are reported at their
      default level. */
  lemma Treatment(t: CodeTable, rules: seq<Rule>, p: ValidationPolicy, code: Code)
    requires code in t.levels && (forall r | r in rules :: Public(r)) && Consistent(t, rules) && PolicyOf(t, p, rules)
    ensures forall r | r in rules && About(t, r, code) ::
      FindingLevel(t, p, code) ==
        match r.action
        case Suppress => Withheld(t.levels[code])
        case AsWarning => Reported(Warning)
        case AsError => Reported(Error)
    ensures (forall r | r in rules :: !About(t, r, code)) ==> FindingLevel(t, p, code) == Reported(t.levels[code])
    ensures code in t.mandatory ==> FindingLevel(t, p, code).Reported?
  {
    hide FindingLevel, Consistent, PolicyOf, Overlooked, Gives, About, SuppressesLevel;
    forall r | r in rules ensures (Gives(t, r, code) <==> About(t, r, code)) && !SuppressesLevel(r) {
      AboutMeansGives(t, r, code);
    }
    NothingOverlooked(t, rules, code);
    forall r | r in rules && About(t, r, code)
      ensures FindingLevel(t, p, code) == Treated(t.levels[code], Some(r.action))
    {
      PolicyIsTable(t, rules, p, code, Some(r.action));
    }
    if forall r | r in rules :: !About(t, r, code) {
      PolicyIsTable(t, rules, p, code, None);
    } else {
      var r :| r in rules && About(t, r, code);
      PolicyIsTable(t, rules, p, code, Some(r.action));
    }
  }
}
