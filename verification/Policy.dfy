/** The compact validation policy against the action each code receives. */
module Policy {
  import opened Text

  /** A validation code, by its position in the code table. */
  type Code = nat

  datatype Level = Warning | Error

  /** The code table: every valid code once, its default level, and the codes no policy may suppress. */
  datatype CodeTable = CodeTable(codes: seq<Code>, levels: map<Code, Level>, mandatory: set<Code>)

  ghost predicate Complete(t: CodeTable) {
    forall c :: c in t.codes <==> c in t.levels
  }

  datatype RuleAction = Suppress | AsWarning | AsError

  /** Explicit codes, or without them every code, or every code of a default level. */
  datatype Rule = Rule(action: RuleAction, level: Option<Level>, codes: seq<Code>)

  /** The rules the public options build: suppression names no level, the level changes name the level they change. */
  predicate Public(rule: Rule) {
    match rule.action
    case Suppress => rule.level == None
    case AsWarning => rule.level == Some(Error)
    case AsError => rule.level == Some(Warning)
  }

  datatype Setting = Suppressed | AtLevel(level: Level)

  datatype ValidationPolicy = ValidationPolicy(
    settings: map<Code, Setting>,
    suppressAll: bool,
    errorsAsWarnings: bool,
    warningsAsErrors: bool)

  datatype PolicyProblem = InvalidLevel | UnknownCode(code: Code) | Conflict(code: Code) | MandatorySuppressed

  datatype Verdict = Reported(level: Level) | Withheld(level: Level)

  /** A code's default level; an invalid code, which nothing reports, is no error. */
  function DefaultLevel(t: CodeTable, code: Code): Level {
    if code in t.levels then t.levels[code] else Warning
  }

  /** How a finding is treated; a withheld finding is counted by its default level. */
  function FindingLevel(t: CodeTable, p: ValidationPolicy, code: Code): Verdict {
    var byDefault := DefaultLevel(t, code);
    if code in p.settings then
      (match p.settings[code] case Suppressed => Withheld(byDefault) case AtLevel(level) => Reported(level))
    else if p.suppressAll && code !in t.mandatory then Withheld(byDefault)
    else if byDefault == Error then Reported(if p.errorsAsWarnings then Warning else Error)
    else Reported(if p.warningsAsErrors then Error else Warning)
  }

  // ----- What the rules ask for, code by code -----

  /** Without codes or a level a rule can only suppress everything. */
  predicate Addressed(rule: Rule) {
    rule.codes != [] || rule.level.Some? || rule.action == Suppress
  }

  /** The codes a rule without explicit ones is about. */
  predicate AtItsLevel(t: CodeTable, rule: Rule, code: Code) {
    rule.codes == [] && code in t.levels && (rule.level == None || rule.level == Some(t.levels[code]))
  }

  /** A rule gives its action to a code; only an explicit code can ask to suppress a mandatory one. */
  predicate Gives(t: CodeTable, rule: Rule, code: Code) {
    code in rule.codes || (AtItsLevel(t, rule, code) && !(rule.action == Suppress && code in t.mandatory))
  }

  /** A rule writes a setting of its own for a code: explicit codes, and every code, mandatory ones too, of a level
      that a suppression names. */
  predicate Sets(t: CodeTable, rule: Rule, code: Code) {
    code in rule.codes || (AtItsLevel(t, rule, code) && rule.action == Suppress && rule.level.Some?)
  }

  /** Every rule has an address, every explicit code is valid, no explicit code is both mandatory and suppressed, and no
      code receives two actions. */
  ghost predicate Consistent(t: CodeTable, rules: seq<Rule>) {
    && (forall r | r in rules :: Addressed(r))
    && (forall r, c | r in rules && c in r.codes :: c in t.levels && !(r.action == Suppress && c in t.mandatory))
    && (forall r, s, c | r in rules && s in rules && Gives(t, r, c) && Gives(t, s, c) :: r.action == s.action)
  }

  function Treated(byDefault: Level, action: Option<RuleAction>): Verdict {
    match action
    case None => Reported(byDefault)
    case Some(Suppress) => Withheld(byDefault)
    case Some(AsWarning) => Reported(Warning)
    case Some(AsError) => Reported(Error)
  }

  // ----- Compilation -----

  method RuleCodes(t: CodeTable, rule: Rule) returns (r: Option<seq<Code>>, explicit: bool)
    ensures explicit <==> rule.codes != []
    ensures r == if rule.codes != [] then Some(rule.codes)
                 else if rule.action != Suppress && rule.level == None then None else Some(t.codes)
  {
    if rule.codes != [] {
      return Some(rule.codes), true;
    }
    var allLevels := rule.action == Suppress && rule.level == None;
    if !allLevels && rule.level == None {
      return None, false;
    }
    return Some(t.codes), false;
  }

  datatype Applied = Accepted(mandatorySuppression: bool) | Failed(problem: PolicyProblem)

  method ApplyCode(t: CodeTable, rule: Rule, code: Code, explicit: bool, actions: map<Code, RuleAction>)
    returns (r: Applied, after: map<Code, RuleAction>)
    ensures r == if code !in t.levels then Failed(UnknownCode(code))
                 else if rule.action == Suppress && code in t.mandatory && !explicit then Accepted(false)
                 else if code in actions && actions[code] != rule.action then Failed(Conflict(code))
                 else Accepted(rule.action == Suppress && code in t.mandatory)
    ensures after == if r.Failed? || (rule.action == Suppress && code in t.mandatory && !explicit) then actions
                     else actions[code := rule.action]
  {
    after := actions;
    if code !in t.levels {
      return Failed(UnknownCode(code)), after;
    }
    var mandatorySuppression := rule.action == Suppress && code in t.mandatory;
    if mandatorySuppression && !explicit {
      return Accepted(false), after;
    }
    if code in actions && actions[code] != rule.action {
      return Failed(Conflict(code)), after;
    }
    return Accepted(mandatorySuppression), actions[code := rule.action];
  }

  function SettingFor(action: RuleAction): Setting {
    match action
    case Suppress => Suppressed
    case AsWarning => AtLevel(Warning)
    case AsError => AtLevel(Error)
  }

  function WithDefaultAction(p: ValidationPolicy, rule: Rule): ValidationPolicy {
    if rule.action == Suppress && rule.level == None then p.(suppressAll := true)
    else if rule.action == AsWarning && rule.level == Some(Error) then p.(errorsAsWarnings := true)
    else if rule.action == AsError && rule.level == Some(Warning) then p.(warningsAsErrors := true)
    else p
  }

  /** The state of a compilation between two rules. */
  datatype Compilation = Compilation(
    policy: ValidationPolicy, actions: map<Code, RuleAction>, problems: seq<PolicyProblem>, mandatory: set<Code>)

  predicate Clean(s: Compilation) {
    s.problems == [] && s.mandatory == {}
  }

  /** A rule asks this of a code: the part of Consistent that one rule decides. */
  predicate Permits(t: CodeTable, rule: Rule, code: Code) {
    code in rule.codes ==> code in t.levels && !(rule.action == Suppress && code in t.mandatory)
  }

  /** One code of a rule. */
  method ApplyOne(t: CodeTable, rule: Rule, code: Code, explicit: bool, s: Compilation) returns (r: Compilation)
    requires Addressed(rule) && (explicit <==> rule.codes != [])
    requires if explicit then code in rule.codes else code in t.levels
    requires s.actions.Keys <= t.levels.Keys
    ensures r.actions.Keys <= t.levels.Keys
    ensures Clean(r) <==> Clean(s) && (Gives(t, rule, code) ==> Agrees(t, rule, code, s.actions))
    ensures Clean(r) ==>
      && r.actions == (if Gives(t, rule, code) then s.actions[code := rule.action] else s.actions)
      && r.policy == if Sets(t, rule, code) then s.policy.(settings := s.policy.settings[code := SettingFor(rule.action)])
                     else s.policy
  {
    r := s;
    if !explicit && rule.level.Some? && t.levels[code] != rule.level.value {
      return;
    }
    var applied, after := ApplyCode(t, rule, code, explicit, s.actions);
    match applied
    case Failed(problem) =>
      r := r.(problems := r.problems + [problem]);
    case Accepted(mandatorySuppression) =>
      r := r.(actions := after);
      if mandatorySuppression {
        r := r.(mandatory := r.mandatory + {code});
      } else if explicit || (rule.action == Suppress && rule.level.Some?) {
        r := r.(policy := r.policy.(settings := r.policy.settings[code := SettingFor(rule.action)]));
      }
  }

  /** A rule's action for a code is permitted and is no other than the one it has already. */
  predicate Agrees(t: CodeTable, rule: Rule, code: Code, actions: map<Code, RuleAction>) {
    Permits(t, rule, code) && (code in actions ==> actions[code] == rule.action)
  }

  /** The actions after some codes of a rule. */
  ghost predicate ActionsAfter(t: CodeTable, rule: Rule, codes: seq<Code>, before: map<Code, RuleAction>,
                               after: map<Code, RuleAction>) {
    && (forall c :: c in after <==> c in before || (c in codes && Gives(t, rule, c)))
    && (forall c | c in after :: after[c] == if c in codes && Gives(t, rule, c) then rule.action else before[c])
  }

  ghost predicate AllAgree(t: CodeTable, rule: Rule, codes: seq<Code>, actions: map<Code, RuleAction>) {
    forall c | c in codes && Gives(t, rule, c) :: Agrees(t, rule, c, actions)
  }

  /** The settings after some codes of a rule. */
  function CodesSettings(t: CodeTable, rule: Rule, settings: map<Code, Setting>, codes: seq<Code>): map<Code, Setting> {
    map c | c in settings.Keys + (set x | x in codes && Sets(t, rule, x)) ::
      if c in codes && Sets(t, rule, c) then SettingFor(rule.action) else settings[c]
  }

  lemma OneMoreCode(t: CodeTable, rule: Rule, codes: seq<Code>, code: Code, before: map<Code, RuleAction>,
                    now: map<Code, RuleAction>)
    requires ActionsAfter(t, rule, codes, before, now)
    ensures AllAgree(t, rule, codes, before) ==>
      (AllAgree(t, rule, codes + [code], before) <==> (Gives(t, rule, code) ==> Agrees(t, rule, code, now)))
    ensures ActionsAfter(t, rule, codes + [code], before, if Gives(t, rule, code) then now[code := rule.action] else now)
  {
    hide Gives, Permits;
    assert forall c :: c in codes + [code] <==> c in codes || c == code;
  }

  lemma OneMoreSetting(t: CodeTable, rule: Rule, codes: seq<Code>, code: Code, settings: map<Code, Setting>)
    ensures CodesSettings(t, rule, settings, codes + [code]) ==
      var before := CodesSettings(t, rule, settings, codes);
      if Sets(t, rule, code) then before[code := SettingFor(rule.action)] else before
  {
    hide Sets, SettingFor;
    assert forall c :: c in codes + [code] <==> c in codes || c == code;
  }

  lemma StillDisagree(t: CodeTable, rule: Rule, codes: seq<Code>, code: Code, actions: map<Code, RuleAction>)
    ensures AllAgree(t, rule, codes + [code], actions) ==> AllAgree(t, rule, codes, actions)
  {
    hide Gives, Agrees;
    assert forall c | c in codes :: c in codes + [code];
  }

  lemma NoCodes(t: CodeTable, rule: Rule, s: Compilation)
    ensures AllAgree(t, rule, [], s.actions) && ActionsAfter(t, rule, [], s.actions, s.actions)
    ensures CodesSettings(t, rule, s.policy.settings, []) == s.policy.settings
  {
  }

  /** A rule's loop goes over every code it concerns. */
  lemma AllTaken(t: CodeTable, rule: Rule, codes: seq<Code>)
    requires Complete(t) && codes == if rule.codes != [] then rule.codes else t.codes
    ensures forall c | Gives(t, rule, c) || Sets(t, rule, c) :: c in codes
  {
  }

  lemma AllActions(t: CodeTable, rule: Rule, codes: seq<Code>, before: map<Code, RuleAction>, after: map<Code,
                   RuleAction>)
    requires forall c | Gives(t, rule, c) :: c in codes
    ensures AllAgree(t, rule, codes, before) <==> forall c | Gives(t, rule, c) :: Agrees(t, rule, c, before)
    ensures ActionsAfter(t, rule, codes, before, after) ==>
      && (forall c :: c in after <==> c in before || Gives(t, rule, c))
      && (forall c | c in after :: after[c] == if Gives(t, rule, c) then rule.action else before[c])
  {
    hide Gives, Agrees;
  }

  function SettingOf(p: ValidationPolicy, code: Code): Option<Setting> {
    if code in p.settings then Some(p.settings[code]) else None
  }

  /** What a rule leaves of a policy. */
  ghost predicate RuleLeaves(t: CodeTable, rule: Rule, p: ValidationPolicy, q: ValidationPolicy) {
    && (forall c :: SettingOf(q, c) == if Sets(t, rule, c) then Some(SettingFor(rule.action)) else SettingOf(p, c))
    && (q.suppressAll <==> p.suppressAll || SuppressesAll(rule))
    && (q.errorsAsWarnings <==> p.errorsAsWarnings || SoftensErrors(rule))
    && (q.warningsAsErrors <==> p.warningsAsErrors || HardensWarnings(rule))
  }

  predicate SuppressesAll(rule: Rule) {
    rule.codes == [] && rule.action == Suppress && rule.level == None
  }

  predicate SoftensErrors(rule: Rule) {
    rule.codes == [] && rule.action == AsWarning && rule.level == Some(Error)
  }

  predicate HardensWarnings(rule: Rule) {
    rule.codes == [] && rule.action == AsError && rule.level == Some(Warning)
  }

  lemma AllSettings(t: CodeTable, rule: Rule, codes: seq<Code>, p: ValidationPolicy, q: ValidationPolicy)
    requires forall c | Sets(t, rule, c) :: c in codes
    requires q == p.(settings := CodesSettings(t, rule, p.settings, codes))
    ensures RuleLeaves(t, rule, p, if rule.codes == [] then WithDefaultAction(q, rule) else q)
  {
    hide Sets;
  }

  /** One rule's codes, in order. */
  method ApplyRule(t: CodeTable, rule: Rule, s: Compilation) returns (r: Compilation)
    requires Complete(t) && s.actions.Keys <= t.levels.Keys
    ensures r.actions.Keys <= t.levels.Keys
    ensures Clean(r) <==> Clean(s) && Addressed(rule) && forall c | Gives(t, rule, c) :: Agrees(t, rule, c, s.actions)
    ensures Clean(r) ==>
      && (forall c :: c in r.actions <==> c in s.actions || Gives(t, rule, c))
      && (forall c | c in r.actions :: r.actions[c] == if Gives(t, rule, c) then rule.action else s.actions[c])
      && RuleLeaves(t, rule, s.policy, r.policy)
  {
    var codes, explicit := RuleCodes(t, rule);
    r := s;
    if codes == None {
      return r.(problems := r.problems + [InvalidLevel]);
    }
    AllTaken(t, rule, codes.value);
    hide Gives, Sets, Agrees, CodesSettings, AllAgree, ActionsAfter, WithDefaultAction, RuleLeaves;
    NoCodes(t, rule, s);
    for i := 0 to |codes.value|
      invariant r.actions.Keys <= t.levels.Keys
      invariant Clean(r) <==> Clean(s) && AllAgree(t, rule, codes.value[..i], s.actions)
      invariant Clean(r) ==>
        && ActionsAfter(t, rule, codes.value[..i], s.actions, r.actions)
        && r.policy == s.policy.(settings := CodesSettings(t, rule, s.policy.settings, codes.value[..i]))
    {
      var code := codes.value[i];
      assert code in codes.value;
      assert codes.value[..i + 1] == codes.value[..i] + [code];
      var next := ApplyOne(t, rule, code, explicit, r);
      if Clean(r) {
        OneMoreCode(t, rule, codes.value[..i], code, s.actions, r.actions);
        OneMoreSetting(t, rule, codes.value[..i], code, s.policy.settings);
      } else {
        StillDisagree(t, rule, codes.value[..i], code, s.actions);
      }
      r := next;
    }
    assert codes.value[..|codes.value|] == codes.value;
    AllActions(t, rule, codes.value, s.actions, r.actions);
    if Clean(r) {
      AllSettings(t, rule, codes.value, s.policy, r.policy);
    }
    if !explicit {
      r := r.(policy := WithDefaultAction(r.policy, rule));
    }
  }

  // ----- Whole lists -----

  /** The setting of the last rule that sets a code. */
  function LastSetting(t: CodeTable, rules: seq<Rule>, code: Code): Option<Setting> {
    if rules == [] then None
    else
      var rule := rules[|rules| - 1];
      if Sets(t, rule, code) then Some(SettingFor(rule.action)) else LastSetting(t, rules[..|rules| - 1], code)
  }

  /** What a policy compiled from some rules holds. */
  ghost predicate PolicyOf(t: CodeTable, p: ValidationPolicy, rules: seq<Rule>) {
    && (forall c :: SettingOf(p, c) == LastSetting(t, rules, c))
    && (p.suppressAll <==> exists r :: r in rules && SuppressesAll(r))
    && (p.errorsAsWarnings <==> exists r :: r in rules && SoftensErrors(r))
    && (p.warningsAsErrors <==> exists r :: r in rules && HardensWarnings(r))
  }

  ghost predicate ActionsOf(t: CodeTable, actions: map<Code, RuleAction>, rules: seq<Rule>) {
    && (forall c :: c in actions <==> exists r :: r in rules && Gives(t, r, c))
    && (forall c, r | r in rules && Gives(t, r, c) :: c in actions && actions[c] == r.action)
  }

  /** Compiles any rule list: without a problem exactly when the list is consistent. */
  method CompileValidationPolicy(t: CodeTable, rules: seq<Rule>) returns (policy: ValidationPolicy,
                                 problems: seq<PolicyProblem>)
    requires Complete(t)
    ensures problems == [] <==> Consistent(t, rules)
    ensures problems == [] ==> PolicyOf(t, policy, rules)
  {
    hide Complete, Consistent, PolicyOf, ActionsOf, Gives, Sets, RuleLeaves, Addressed;
    var s := Compilation(ValidationPolicy(map[], false, false, false), map[], [], {});
    NoRules(t, s.policy);
    for i := 0 to |rules|
      invariant s.actions.Keys <= t.levels.Keys
      invariant Clean(s) <==> Consistent(t, rules[..i])
      invariant Clean(s) ==> ActionsOf(t, s.actions, rules[..i]) && PolicyOf(t, s.policy, rules[..i])
    {
      var next := ApplyRule(t, rules[i], s);
      assert rules[..i + 1] == rules[..i] + [rules[i]];
      if Clean(s) {
        ConsistentStep(t, rules[..i], rules[i], s.actions);
        if Clean(next) {
          ActionsStep(t, rules[..i], rules[i], s.actions, next.actions);
          PolicyStep(t, rules[..i], rules[i], s.policy, next.policy);
        }
      } else {
        StaysInconsistent(t, rules[..i], rules[i]);
      }
      s := next;
    }
    assert rules[..|rules|] == rules;
    policy, problems := s.policy, s.problems;
    if s.mandatory != {} {
      problems := problems + [MandatorySuppressed];
    }
  }

  lemma NoRules(t: CodeTable, p: ValidationPolicy)
    requires p == ValidationPolicy(map[], false, false, false)
    ensures Consistent(t, []) && ActionsOf(t, map[], []) && PolicyOf(t, p, [])
  {
  }

  lemma StaysInconsistent(t: CodeTable, rules: seq<Rule>, rule: Rule)
    requires !Consistent(t, rules)
    ensures !Consistent(t, rules + [rule])
  {
    hide Gives, Addressed;
    assert forall r | r in rules :: r in rules + [rule];
  }

  lemma ConsistentStep(t: CodeTable, rules: seq<Rule>, rule: Rule, actions: map<Code, RuleAction>)
    requires Consistent(t, rules) && ActionsOf(t, actions, rules)
    ensures Consistent(t, rules + [rule]) <==>
      Addressed(rule) && forall c | Gives(t, rule, c) :: Agrees(t, rule, c, actions)
  {
    ExplicitGiven(t, rule);
    hide Gives, Addressed;
    var longer := rules + [rule];
    assert rule in longer && forall r :: r in longer <==> r in rules || r == rule;
    if Consistent(t, longer) {
      forall c | Gives(t, rule, c) ensures Agrees(t, rule, c, actions) {
      }
    }
  }

  lemma ExplicitGiven(t: CodeTable, rule: Rule)
    ensures forall c | c in rule.codes :: Gives(t, rule, c)
  {
  }

  lemma ActionsStep(t: CodeTable, rules: seq<Rule>, rule: Rule, actions: map<Code, RuleAction>, after: map<Code,
                    RuleAction>)
    requires ActionsOf(t, actions, rules)
    requires forall c | Gives(t, rule, c) :: c in actions ==> actions[c] == rule.action
    requires forall c :: c in after <==> c in actions || Gives(t, rule, c)
    requires forall c | c in after :: after[c] == if Gives(t, rule, c) then rule.action else actions[c]
    ensures ActionsOf(t, after, rules + [rule])
  {
    hide Gives;
    var longer := rules + [rule];
    assert rule in longer && forall r :: r in longer <==> r in rules || r == rule;
  }

  lemma PolicyStep(t: CodeTable, rules: seq<Rule>, rule: Rule, p: ValidationPolicy, q: ValidationPolicy)
    requires PolicyOf(t, p, rules) && RuleLeaves(t, rule, p, q)
    ensures PolicyOf(t, q, rules + [rule])
  {
    hide Sets, SettingOf, SuppressesAll, SoftensErrors, HardensWarnings;
    var longer := rules + [rule];
    assert longer[..|longer| - 1] == rules;
    assert rule in longer && forall r :: r in longer <==> r in rules || r == rule;
  }

  // ----- The policy is the per-code table -----

  /** The action some rule of a list gives a code, if any. */
  ghost predicate TableSays(t: CodeTable, rules: seq<Rule>, code: Code, action: Option<RuleAction>) {
    match action
    case None => forall r | r in rules :: !Gives(t, r, code)
    case Some(a) => exists r :: r in rules && Gives(t, r, code) && r.action == a
  }

  /** The last rule that sets a mandatory code suppresses it by naming its level. */
  predicate Overlooked(t: CodeTable, rules: seq<Rule>, code: Code) {
    code in t.mandatory && LastSetting(t, rules, code) == Some(Suppressed)
  }

  /** A suppression that names a level instead of codes. */
  predicate SuppressesLevel(rule: Rule) {
    rule.codes == [] && rule.action == Suppress && rule.level.Some?
  }

  /** For consistent rules the compact policy treats a code as the one action it receives says, if and only if it is not
      a mandatory code overlooked so; and those are the mandatory codes it withholds. */
  lemma PolicyIsTable(t: CodeTable, rules: seq<Rule>, p: ValidationPolicy, code: Code, action: Option<RuleAction>)
    requires code in t.levels && Consistent(t, rules) && PolicyOf(t, p, rules) && TableSays(t, rules, code, action)
    ensures FindingLevel(t, p, code) == Treated(t.levels[code], action) <==> !Overlooked(t, rules, code)
    ensures code in t.mandatory ==> (FindingLevel(t, p, code).Withheld? <==> Overlooked(t, rules, code))
  {
    hide LastSetting, Consistent;
    if LastSetting(t, rules, code).Some? {
      var r := LastSetter(t, rules, code);
      SetterTreats(t, rules, p, code, action, r);
    } else if action == None {
      NothingGiven(t, rules, p, code);
    } else {
      var r :| r in rules && Gives(t, r, code) && r.action == action.value;
      DefaultTreats(t, rules, p, code, r);
    }
  }

  /** Without a suppression that names a level, which the public options never build, nothing is overlooked. */
  lemma NothingOverlooked(t: CodeTable, rules: seq<Rule>, code: Code)
    requires Consistent(t, rules) && forall r | r in rules :: !SuppressesLevel(r)
    ensures !Overlooked(t, rules, code)
    ensures forall r | Public(r) :: !SuppressesLevel(r)
  {
    hide LastSetting;
    if LastSetting(t, rules, code).Some? {
      var r := LastSetter(t, rules, code);
    }
  }

  lemma {:induction false} LastSetter(t: CodeTable, rules: seq<Rule>, code: Code) returns (r: Rule)
    requires LastSetting(t, rules, code).Some?
    ensures r in rules && Sets(t, r, code) && LastSetting(t, rules, code) == Some(SettingFor(r.action))
  {
    hide Sets;
    r := rules[|rules| - 1];
    if !Sets(t, r, code) {
      r := LastSetter(t, rules[..|rules| - 1], code);
    }
  }

  lemma {:induction false} NoSetter(t: CodeTable, rules: seq<Rule>, code: Code)
    requires LastSetting(t, rules, code) == None
    ensures forall r | r in rules :: !Sets(t, r, code)
  {
    hide Sets;
    if rules != [] {
      InitAndLast(rules);
      NoSetter(t, rules[..|rules| - 1], code);
    }
  }

  /** A code that is set is treated as the table says, unless the setter overlooked that it is mandatory. */
  lemma SetterTreats(t: CodeTable, rules: seq<Rule>, p: ValidationPolicy, code: Code, action: Option<RuleAction>,
                     r: Rule)
    requires code in t.levels && Consistent(t, rules) && PolicyOf(t, p, rules) && TableSays(t, rules, code, action)
    requires r in rules && Sets(t, r, code) && LastSetting(t, rules, code) == Some(SettingFor(r.action))
    ensures FindingLevel(t, p, code) == Treated(t.levels[code], action) <==> !Overlooked(t, rules, code)
    ensures code in t.mandatory ==> (FindingLevel(t, p, code).Withheld? <==> Overlooked(t, rules, code))
  {
    hide LastSetting;
    assert SettingOf(p, code) == Some(SettingFor(r.action));
    if Gives(t, r, code) {
      assert action == Some(r.action);
    }
  }

  lemma NothingGiven(t: CodeTable, rules: seq<Rule>, p: ValidationPolicy, code: Code)
    requires code in t.levels && PolicyOf(t, p, rules) && LastSetting(t, rules, code) == None
    requires forall r | r in rules :: !Gives(t, r, code)
    ensures FindingLevel(t, p, code) == Reported(t.levels[code])
  {
    hide LastSetting;
    assert SettingOf(p, code) == None;
  }

  lemma DefaultTreats(t: CodeTable, rules: seq<Rule>, p: ValidationPolicy, code: Code, rule: Rule)
    requires code in t.levels && Consistent(t, rules) && PolicyOf(t, p, rules) && LastSetting(t, rules, code) == None
    requires rule in rules && Gives(t, rule, code)
    ensures FindingLevel(t, p, code) == Treated(t.levels[code], Some(rule.action))
  {
    hide LastSetting;
    assert SettingOf(p, code) == None;
    NoSetter(t, rules, code);
    if r :| r in rules && SuppressesAll(r) && code !in t.mandatory {
      assert Gives(t, r, code);
    }
  }

  lemma OnlyMandatory(t: CodeTable, rules: seq<Rule>, code: Code)
    ensures Overlooked(t, rules, code) ==> code in t.mandatory
  {
    hide LastSetting;
  }

  /** Neither success nor the treatment of a code depends on the order or the repetition of rules, as long as no
      suppression names a level. */
  lemma OrderIndependent(t: CodeTable, a: seq<Rule>, b: seq<Rule>, p: ValidationPolicy, q: ValidationPolicy, code: Code)
    requires forall r :: r in a <==> r in b
    ensures Consistent(t, a) <==> Consistent(t, b)
    ensures (code !in t.mandatory || forall r | r in a :: !SuppressesLevel(r))
            && Consistent(t, a) && PolicyOf(t, p, a) && PolicyOf(t, q, b) && code in t.levels ==>
      FindingLevel(t, p, code) == FindingLevel(t, q, code)
  {
    hide Gives, LastSetting, Overlooked, FindingLevel;
    if (code !in t.mandatory || forall r | r in a :: !SuppressesLevel(r))
       && Consistent(t, a) && PolicyOf(t, p, a) && PolicyOf(t, q, b) && code in t.levels {
      var action := if r :| r in a && Gives(t, r, code) then Some(r.action) else None;
      if code in t.mandatory {
        NothingOverlooked(t, a, code);
        NothingOverlooked(t, b, code);
      }
      OnlyMandatory(t, a, code);
      OnlyMandatory(t, b, code);
      PolicyIsTable(t, a, p, code, action);
      PolicyIsTable(t, b, q, code, action);
    }
  }

  /** With such a suppression the order decides: whether a mandatory code is withheld is up to the rule that comes last. */
  lemma OrderMatters(t: CodeTable, code: Code, p: ValidationPolicy, q: ValidationPolicy)
    requires code in t.mandatory && code in t.levels
    ensures var quiet, loud := Rule(Suppress, Some(t.levels[code]), []), Rule(AsError, None, [code]);
      && Consistent(t, [quiet, loud])
      && (PolicyOf(t, p, [quiet, loud]) && PolicyOf(t, q, [loud, quiet]) ==>
            FindingLevel(t, p, code) == Reported(Error) && FindingLevel(t, q, code).Withheld?)
  {
    var quiet, loud := Rule(Suppress, Some(t.levels[code]), []), Rule(AsError, None, [code]);
    assert [quiet, loud][..1] == [quiet] && [loud, quiet][..1] == [loud];
    if PolicyOf(t, p, [quiet, loud]) && PolicyOf(t, q, [loud, quiet]) {
      assert SettingOf(p, code) == LastSetting(t, [quiet, loud], code);
      assert SettingOf(q, code) == LastSetting(t, [loud, quiet], code);
    }
  }
}
