/** Evaluation of one flag for one visitor: preview, override, sticky assignment, ordered rules,
    default, each behind the registry's policy gate. */
module FlagEvaluation {
  import opened Prelude
  import opened R = FlagRegistry
  import opened Decimals

  // ---------------------------------------------------------------- rows

  /** An entry of a JSON id list: its text, its `int(...)` if that does not raise, its truth value,
      and the positive id it spells to the stricter reader of the rollout service. */
  datatype RawId = RawId(text: string, number: Option<int>, truthy: bool, strict: Option<nat>)

  datatype Rule = Rule(name: string, priority: nat, ruleType: string, value: string, page: string,
                       actorIds: seq<string>, groupIds: seq<RawId>, percentage: Option<int>, enabled: bool)

  datatype Override = Override(scope: string, scopeValue: string, value: string, enabled: bool)

  /** A definition row with its rules and overrides in query order. */
  datatype Feature = Feature(pk: nat, key: string, kind: string, defaultValue: string, sticky: bool,
                             rules: seq<Rule>, overrides: seq<Override>)

  datatype Group = Group(slug: string, members: set<int>)

  datatype AssignKey = AssignKey(feature: nat, subjectType: string, subjectKey: string, page: string)

  type Assignments = map<AssignKey, string>

  datatype User = User(pk: int, authenticated: bool, staff: bool)

  datatype Context = Context(user: Option<User>, anonymousId: Option<string>, page: string,
                             requestOverrides: Option<map<string, string>>)

  /** The registry, the settings, the targeting groups and the bucketing hash. */
  datatype FlagEnv = FlagEnv(reg: Registry, settings: Settings, groups: map<nat, Group>, hash: string -> nat)

  datatype Reason = Static | Cached | TargetingMatch | DefaultReason

  datatype Source = Preview | DbOverride | StickyRow | ByRule(rule: Rule) | Fallback

  datatype Evaluation = Evaluation(value: FlagValue, reason: Reason, source: Source, assignments: Assignments)

  // ---------------------------------------------------------------- context

  function UserId(c: Context): Option<int> {
    if c.user.Some? && c.user.value.authenticated then Some(c.user.value.pk) else None
  }

  predicate IsStaff(c: Context) {
    c.user.Some? && c.user.value.authenticated && c.user.value.staff
  }

  function AnonymousId(c: Context): string {
    if c.anonymousId.Some? then c.anonymousId.value else ""
  }

  function IdentityKey(c: Context): string {
    if UserId(c).Some? then "user:" + IntText(UserId(c).value)
    else if AnonymousId(c) != "" then "anon:" + AnonymousId(c)
    else ""
  }

  predicate HasIdentity(c: Context) { UserId(c).Some? || AnonymousId(c) != "" }

  function Previews(c: Context): map<string, string> {
    if c.requestOverrides.Some? then c.requestOverrides.value else map[]
  }

  // ---------------------------------------------------------------- values

  /** `_coerce_value`; None is a ValueError. */
  function Coerce(kind: string, v: FlagValue): Option<FlagValue> {
    if kind == "boolean" then
      if v.B? then Some(v)
      else if Spelled(v.s).Some? then Some(B(Spelled(v.s).value)) else None
    else Some(S(StrOf(v)))
  }

  function Validated(env: FlagEnv, f: Feature, v: FlagValue): Option<FlagValue> {
    if ValidValue(env.reg, f.key, v) then Coerce(f.kind, v) else None
  }

  function PolicyFor(env: FlagEnv, key: string): Option<Policy> {
    if key in env.reg then Some(PolicyOf(env.reg[key])) else None
  }

  function SafeDefault(env: FlagEnv, f: Feature): FlagValue {
    var policy := PolicyFor(env, f.key);
    var stored := Validated(env, f, S(f.defaultValue));
    if policy.Some? && policy.value.safeDefault.Some? then policy.value.safeDefault.value
    else if stored.Some? then stored.value
    else if f.key in env.reg then DefaultValue(env.reg[f.key], env.settings)
    else B(false)
  }

  // ---------------------------------------------------------------- rules

  /** The integer group ids of a rule; None when one of them does not parse. */
  function GroupIds(ids: seq<RawId>): Option<set<int>> {
    if exists g | g in ids :: g.truthy && g.number.None? then None
    else Some(set g | g in ids && g.truthy && g.number.Some? :: g.number.value)
  }

  predicate InSomeGroup(env: FlagEnv, ids: set<int>, user: int) {
    exists pk | pk in env.groups :: pk in ids && user in env.groups[pk].members
  }

  function Clamp(p: int): int { if p < 0 then 0 else if p > 100 then 100 else p }

  function BucketPercent(env: FlagEnv, identity: string, key: string, page: string): nat {
    env.hash(key + ":" + page + ":" + identity) % 100
  }

  predicate AudienceMatches(env: FlagEnv, key: string, rule: Rule, c: Context) {
    var user := UserId(c);
    if rule.ruleType == "everyone" then true
    else if rule.ruleType == "authenticated" then user.Some?
    else if rule.ruleType == "staff" then IsStaff(c)
    else if rule.ruleType == "group" then
      var ids := GroupIds(rule.groupIds);
      user.Some? && ids.Some? && ids.value != {} && InSomeGroup(env, ids.value, user.value)
    else if rule.ruleType in {"user_allowlist", "user_denylist"} then user.Some? && IntText(user.value) in rule.actorIds
    else if rule.ruleType in {"anonymous_allowlist", "anonymous_denylist"} then
      AnonymousId(c) != "" && AnonymousId(c) in rule.actorIds
    else if rule.ruleType == "percentage" then
      HasIdentity(c) &&
      BucketPercent(env, IdentityKey(c), key, c.page) < Clamp(if rule.percentage.Some? then rule.percentage.value else 0)
    else false
  }

  predicate RuleMatches(env: FlagEnv, key: string, rule: Rule, c: Context) {
    rule.enabled && (rule.page == "" || rule.page == c.page) && AudienceMatches(env, key, rule, c)
  }

  function RuleResult(env: FlagEnv, f: Feature, rule: Rule): FlagValue {
    if rule.ruleType in {"user_denylist", "anonymous_denylist"} then SafeDefault(env, f) else S(rule.value)
  }

  // ---------------------------------------------------------------- the policy gate

  /** Groups with this slug that have the user as a member; slugs are unique. */
  function GroupsWith(groups: map<nat, Group>, slug: string, user: int): set<nat> {
    set pk | pk in groups && groups[pk].slug == slug && user in groups[pk].members
  }

  /** The required group of a flag, as far as this visitor belongs to it. */
  function RequiredGroupId(env: FlagEnv, key: string, c: Context): Option<nat> {
    if key !in env.reg || !Truthy(PolicyOf(env.reg[key]).requiredGroup) || UserId(c).None? then None
    else First(GroupsWith(env.groups, PolicyOf(env.reg[key]).requiredGroup.value, UserId(c).value))
  }

  predicate RuleMayGuard(env: FlagEnv, key: string, rule: Rule, c: Context) {
    key in env.reg &&
    var policy := PolicyOf(env.reg[key]);
    && rule.ruleType in policy.audiences
    && (if rule.ruleType == "everyone" then policy.allowPublic
        else
          !Truthy(policy.requiredGroup) ||
          (rule.ruleType == "group" &&
           var group := RequiredGroupId(env, key, c);
           group.Some? && exists g | g in rule.groupIds :: g.text == IntText(group.value)))
  }

  predicate IsGuarded(env: FlagEnv, key: string, v: FlagValue) {
    key in env.reg && PolicyOf(env.reg[key]).guarded.Some? &&
    Canonical(v) == Canonical(PolicyOf(env.reg[key]).guarded.value)
  }

  predicate PolicyAllows(env: FlagEnv, f: Feature, v: FlagValue, c: Context, source: Source) {
    f.key in env.reg &&
    var policy := PolicyOf(env.reg[f.key]);
    if source.Preview? then IsStaff(c) && policy.allowStaffPreview
    else if !IsGuarded(env, f.key, v) then true
    else if source.StickyRow? then policy.allowSticky
    else source.ByRule? && RuleMayGuard(env, f.key, source.rule, c)
  }

  // ---------------------------------------------------------------- overrides and assignments

  predicate OverrideApplies(o: Override, scope: string, c: Context) {
    && o.enabled && o.scope == scope
    && (scope == "user" ==> UserId(c).Some? && o.scopeValue == IntText(UserId(c).value))
    && (scope == "anonymous" ==> UserId(c).None? && AnonymousId(c) != "" && o.scopeValue == AnonymousId(c))
  }

  /** The last applicable override of a scope. */
  function LastOverride(overrides: seq<Override>, scope: string, c: Context): Option<string> {
    if overrides == [] then None
    else
      var last := overrides[|overrides| - 1];
      if OverrideApplies(last, scope, c) then Some(last.value)
      else LastOverride(overrides[..|overrides| - 1], scope, c)
  }

  function StoredOverride(overrides: seq<Override>, c: Context): Option<string> {
    var user := LastOverride(overrides, "user", c);
    var anonymous := LastOverride(overrides, "anonymous", c);
    if user.Some? then user
    else if anonymous.Some? then anonymous
    else LastOverride(overrides, "global", c)
  }

  predicate StickyOn(env: FlagEnv, f: Feature) {
    f.sticky && (f.key in env.reg ==> PolicyOf(env.reg[f.key]).allowSticky)
  }

  /** Where this visitor's assignment is kept, if anywhere. */
  function Slot(env: FlagEnv, f: Feature, c: Context): Option<AssignKey> {
    if !StickyOn(env, f) then None
    else if UserId(c).Some? then Some(AssignKey(f.pk, "user", IntText(UserId(c).value), c.page))
    else if AnonymousId(c) != "" then Some(AssignKey(f.pk, "anonymous", AnonymousId(c), c.page))
    else None
  }

  function Assigned(env: FlagEnv, f: Feature, a: Assignments, c: Context): Option<string> {
    var slot := Slot(env, f, c);
    if slot.Some? && slot.value in a then Some(a[slot.value]) else None
  }

  function Persist(env: FlagEnv, f: Feature, a: Assignments, c: Context, value: string): Assignments {
    var slot := Slot(env, f, c);
    if slot.Some? then a[slot.value := value] else a
  }

  // ---------------------------------------------------------------- evaluation

  /** A candidate value, if it is valid and the policy lets this source supply it. */
  function Admitted(env: FlagEnv, f: Feature, c: Context, candidate: Option<FlagValue>, source: Source): Option<FlagValue> {
    if candidate.None? then None
    else
      var v := Validated(env, f, candidate.value);
      if v.Some? && PolicyAllows(env, f, v.value, c, source) then v else None
  }

  function AsValue(o: Option<string>): Option<FlagValue> {
    if o.Some? then Some(S(o.value)) else None
  }

  function PreviewValue(env: FlagEnv, f: Feature, c: Context): Option<FlagValue> {
    Admitted(env, f, c, if f.key in Previews(c) then Some(S(Previews(c)[f.key])) else None, Preview)
  }

  function OverrideValue(env: FlagEnv, f: Feature, c: Context): Option<FlagValue> {
    Admitted(env, f, c, AsValue(StoredOverride(f.overrides, c)), DbOverride)
  }

  function StickyValue(env: FlagEnv, f: Feature, a: Assignments, c: Context): Option<FlagValue> {
    Admitted(env, f, c, AsValue(Assigned(env, f, a, c)), StickyRow)
  }

  function RuleValue(env: FlagEnv, f: Feature, rule: Rule, c: Context): Option<FlagValue> {
    if RuleMatches(env, f.key, rule, c) then Admitted(env, f, c, Some(RuleResult(env, f, rule)), ByRule(rule)) else None
  }

  /** The first rule that supplies a value. */
  function FirstRule(env: FlagEnv, f: Feature, rules: seq<Rule>, c: Context): Option<(Rule, FlagValue)> {
    if rules == [] then None
    else
      var v := RuleValue(env, f, rules[0], c);
      if v.Some? then Some((rules[0], v.value)) else FirstRule(env, f, rules[1..], c)
  }

  /** `_evaluate_definition`. */
  function Evaluate(env: FlagEnv, f: Feature, a: Assignments, c: Context): Evaluation {
    var preview := PreviewValue(env, f, c);
    var stored := OverrideValue(env, f, c);
    var sticky := StickyValue(env, f, a, c);
    var chosen := FirstRule(env, f, f.rules, c);
    if preview.Some? then Evaluation(preview.value, Static, Preview, a)
    else if stored.Some? then Evaluation(stored.value, Static, DbOverride, a)
    else if sticky.Some? then Evaluation(sticky.value, Cached, StickyRow, a)
    else if chosen.Some? then
      Evaluation(chosen.value.1, TargetingMatch, ByRule(chosen.value.0), Persist(env, f, a, c, StrOf(chosen.value.1)))
    else Evaluation(SafeDefault(env, f), DefaultReason, Fallback, a)
  }

  // ---------------------------------------------------------------- precedence

  /** Everything below the source that decided is beside the point: no edit of rules, defaults or,
      above the sticky row, of assignments and overrides can change the answer. */
  lemma LowerSourcesCannotMatter(env: FlagEnv, f: Feature, g: Feature, a: Assignments, b: Assignments, c: Context)
    requires g == f.(rules := g.rules, overrides := g.overrides)
    ensures Evaluate(env, f, a, c).source.Preview? ==>
              Evaluate(env, g, b, c) == Evaluation(Evaluate(env, f, a, c).value, Static, Preview, b)
    ensures Evaluate(env, f, a, c).source.DbOverride? && g.overrides == f.overrides ==>
              Evaluate(env, g, b, c) == Evaluation(Evaluate(env, f, a, c).value, Static, DbOverride, b)
    ensures Evaluate(env, f, a, c).source.StickyRow? && g.overrides == f.overrides ==>
              Evaluate(env, g, a, c) == Evaluate(env, f, a, c)
  {
    hide ValidValue, Coerce, IsGuarded, RuleMayGuard, FirstRule, LastOverride;
  }

  /** Position i holds the first rule that supplies a value. */
  predicate FirstAt(env: FlagEnv, f: Feature, rules: seq<Rule>, c: Context, i: nat, v: FlagValue) {
    i < |rules| && RuleValue(env, f, rules[i], c) == Some(v) && forall j | 0 <= j < i :: RuleValue(env, f, rules[j], c).None?
  }

  /** Among the rules, order decides: the chosen rule is the first in the list that matches, has a
      valid value and passes the policy gate. */
  lemma {:induction false} FirstRuleIsFirst(env: FlagEnv, f: Feature, rules: seq<Rule>, c: Context)
    requires FirstRule(env, f, rules, c).Some?
    ensures var r := FirstRule(env, f, rules, c).value;
            exists i: nat :: FirstAt(env, f, rules, c, i, r.1) && r.0 == rules[i]
  {
    hide RuleValue;
    var r := FirstRule(env, f, rules, c).value;
    if RuleValue(env, f, rules[0], c).Some? {
      assert FirstAt(env, f, rules, c, 0, r.1);
    } else {
      FirstRuleIsFirst(env, f, rules[1..], c);
      var i: nat :| FirstAt(env, f, rules[1..], c, i, r.1) && r.0 == rules[1..][i];
      assert forall j | 0 < j <= i :: rules[j] == rules[1..][j - 1];
      assert FirstAt(env, f, rules, c, i + 1, r.1) && r.0 == rules[i + 1];
    }
  }

  predicate OverrideAt(overrides: seq<Override>, scope: string, c: Context, i: nat) {
    i < |overrides| && OverrideApplies(overrides[i], scope, c)
    && forall j | i < j < |overrides| :: !OverrideApplies(overrides[j], scope, c)
  }

  lemma {:induction false} LastOverrideIsLast(overrides: seq<Override>, scope: string, c: Context)
    ensures var r := LastOverride(overrides, scope, c);
            if r.Some? then exists i: nat :: OverrideAt(overrides, scope, c, i) && r.value == overrides[i].value
            else forall j | 0 <= j < |overrides| :: !OverrideApplies(overrides[j], scope, c)
    decreases |overrides|
  {
    hide OverrideApplies;
    if overrides != [] {
      var n := |overrides| - 1;
      if OverrideApplies(overrides[n], scope, c) {
        assert OverrideAt(overrides, scope, c, n);
      } else {
        LastOverrideIsLast(overrides[..n], scope, c);
        var r := LastOverride(overrides[..n], scope, c);
        if r.Some? {
          var i: nat :| OverrideAt(overrides[..n], scope, c, i) && r.value == overrides[..n][i].value;
          assert OverrideAt(overrides, scope, c, i);
        }
      }
    }
  }

  /** The stored override of a visitor: their own if they have one, else their anonymous id's if
      they are not signed in, else the global one; within a scope the last row listed. */
  lemma StoredOverrideIsClosest(overrides: seq<Override>, c: Context, v: string)
    requires StoredOverride(overrides, c) == Some(v)
    ensures exists scope, i: nat ::
              && scope in {"user", "anonymous", "global"} && OverrideAt(overrides, scope, c, i) && overrides[i].value == v
              && (scope == "global" ==> forall j | 0 <= j < |overrides| ::
                    !OverrideApplies(overrides[j], "user", c) && !OverrideApplies(overrides[j], "anonymous", c))
              && (scope == "anonymous" ==> UserId(c).None?)
  {
    hide LastOverride, IntText;
    LastOverrideIsLast(overrides, "user", c);
    LastOverrideIsLast(overrides, "anonymous", c);
    LastOverrideIsLast(overrides, "global", c);
  }

  // ---------------------------------------------------------------- guarded values

  lemma {:induction false} FirstRuleIsOne(env: FlagEnv, f: Feature, rules: seq<Rule>, c: Context)
    ensures var r := FirstRule(env, f, rules, c);
            if r.Some?
            then exists i :: 0 <= i < |rules| && r.value.0 == rules[i] && RuleValue(env, f, rules[i], c) == Some(r.value.1)
            else forall i | 0 <= i < |rules| :: RuleValue(env, f, rules[i], c).None?
  {
    hide RuleValue;
    if rules != [] {
      FirstRuleIsOne(env, f, rules[1..], c);
      var r := FirstRule(env, f, rules, c);
      if RuleValue(env, f, rules[0], c).None? {
        if r.Some? {
          var i :| 0 <= i < |rules[1..]| && r.value.0 == rules[1..][i] && RuleValue(env, f, rules[1..][i], c) == Some(r.value.1);
          assert rules[i + 1] == rules[1..][i];
        } else {
          forall i | 0 <= i < |rules| ensures RuleValue(env, f, rules[i], c).None? {
            if i > 0 { assert rules[i] == rules[1..][i - 1]; }
          }
        }
      }
    }
  }

  /** The visitor is a member of the required group, which the rule names. */
  predicate NamesOwnGroup(env: FlagEnv, rule: Rule, c: Context, slug: string) {
    exists pk | pk in env.groups ::
      && env.groups[pk].slug == slug && UserId(c).Some? && UserId(c).value in env.groups[pk].members
      && exists g | g in rule.groupIds :: g.text == IntText(pk)
  }

  /** The safe default of a guarded flag is there and is not the guarded value, as `ValidGuard` has
      it for every flag of a valid registry. */
  predicate SafelyGuarded(env: FlagEnv, key: string) {
    key in env.reg && PolicyOf(env.reg[key]).guarded.Some? ==>
      var policy := PolicyOf(env.reg[key]);
      policy.safeDefault.Some? && Canonical(policy.safeDefault.value) != Canonical(policy.guarded.value)
  }

  lemma ValidIsSafelyGuarded(env: FlagEnv, key: string)
    requires ValidRegistry(env.reg, env.settings)
    ensures SafelyGuarded(env, key)
  {
    hide ValidRegistry, Canonical;
    if key in env.reg && PolicyOf(env.reg[key]).guarded.Some? { ValidGuard(env.reg, env.settings, key); }
  }

  /** What a guarded answer may come from: a staff preview the policy allows, a sticky row the policy
      allows, or an enabled matching rule of an allowed audience; public only if the policy is, and
      otherwise only for members of the required group. */
  predicate Entitled(env: FlagEnv, f: Feature, a: Assignments, c: Context, source: Source)
    requires f.key in env.reg
  {
    var policy := PolicyOf(env.reg[f.key]);
    || (source.Preview? && IsStaff(c) && policy.allowStaffPreview && f.key in Previews(c))
    || (source.StickyRow? && policy.allowSticky && f.sticky && Assigned(env, f, a, c).Some?)
    || (&& source.ByRule? && source.rule in f.rules && RuleMatches(env, f.key, source.rule, c)
        && source.rule.ruleType in policy.audiences
        && (source.rule.ruleType == "everyone" ==> policy.allowPublic)
        && (source.rule.ruleType != "everyone" && Truthy(policy.requiredGroup) ==>
              source.rule.ruleType == "group" && NamesOwnGroup(env, source.rule, c, policy.requiredGroup.value)))
  }

  /** Whatever the tables hold, a guarded value is never given but to the entitled. */
  lemma GuardedOnlyThroughPolicy(env: FlagEnv, f: Feature, a: Assignments, c: Context)
    requires SafelyGuarded(env, f.key)
    ensures IsGuarded(env, f.key, Evaluate(env, f, a, c).value) ==> Entitled(env, f, a, c, Evaluate(env, f, a, c).source)
  {
    hide Validated, StoredOverride, RuleMatches, RuleResult, Canonical, GroupIds;
    FirstRuleIsOne(env, f, f.rules, c);
    var e := Evaluate(env, f, a, c);
    if IsGuarded(env, f.key, e.value) && e.source.ByRule? && e.source.rule.ruleType != "everyone"
      && Truthy(PolicyOf(env.reg[f.key]).requiredGroup)
    {
      var group := RequiredGroupId(env, f.key, c);
      assert group.value in env.groups;
    }
  }

  /** The visitor is in no group of that slug. */
  predicate Outside(env: FlagEnv, c: Context, slug: string) {
    forall pk | pk in env.groups && env.groups[pk].slug == slug :: UserId(c).None? || UserId(c).value !in env.groups[pk].members
  }

  /** In particular, no visitor of a flag whose policy is neither public nor sticky gets the
      guarded value without being staff or a member of the required group. */
  lemma OutsidersGetDefaults(env: FlagEnv, f: Feature, a: Assignments, c: Context)
    requires SafelyGuarded(env, f.key) && f.key in env.reg
    requires var policy := PolicyOf(env.reg[f.key]); !policy.allowPublic && !policy.allowSticky && Truthy(policy.requiredGroup)
    requires !IsStaff(c) && Outside(env, c, PolicyOf(env.reg[f.key]).requiredGroup.value)
    ensures !IsGuarded(env, f.key, Evaluate(env, f, a, c).value)
  {
    hide Evaluate, RuleMatches, Canonical, SafelyGuarded;
    GuardedOnlyThroughPolicy(env, f, a, c);
  }
}
