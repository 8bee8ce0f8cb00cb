/** Whom a rule reaches, in terms of the visitor: for each audience, who gets the value of a flag whose
    only enabled rule it is, and what everyone else gets. */
module FlagAudience {
  import opened Prelude
  import opened Decimals
  import opened R = FlagRegistry
  import opened E = FlagEvaluation

  // ---------------------------------------------------------------- the visitor, in plain terms

  predicate SignedInAs(c: Context, pk: int) {
    c.user.Some? && c.user.value.authenticated && c.user.value.pk == pk
  }

  predicate Staff(c: Context) {
    c.user.Some? && c.user.value.authenticated && c.user.value.staff
  }

  predicate Carries(c: Context, id: string) {
    id != "" && c.anonymousId == Some(id)
  }

  predicate OnPage(rule: Rule, c: Context) {
    rule.page == "" || rule.page == c.page
  }

  // ---------------------------------------------------------------- a flag with one rule

  /** No preview, override or assignment of the flag. */
  predicate Quiet(f: Feature, a: Assignments, c: Context) {
    && (c.requestOverrides.Some? ==> f.key !in c.requestOverrides.value)
    && (forall o | o in f.overrides :: !o.enabled)
    && (forall k | k in a :: k.feature != f.pk)
  }

  predicate OnlyRule(f: Feature, rule: Rule) {
    rule in f.rules && rule.enabled && forall r | r in f.rules && r.enabled :: r == rule
  }

  const DENYLISTS := {"user_denylist", "anonymous_denylist"}

  /** What the rule stands for: its own value, or the safe default if it is a denylist. */
  predicate StandsFor(env: FlagEnv, f: Feature, rule: Rule, v: FlagValue) {
    Validated(env, f, if rule.ruleType in DENYLISTS then SafeDefault(env, f) else S(rule.value)) == Some(v)
  }

  /** Only that rule can decide, and the value it stands for needs no entitlement. */
  predicate Sole(env: FlagEnv, f: Feature, rule: Rule, a: Assignments, c: Context, v: FlagValue) {
    Quiet(f, a, c) && OnlyRule(f, rule) && StandsFor(env, f, rule, v) && !IsGuarded(env, f.key, v)
  }

  /** Those reached get the rule's value; everyone else gets the safe default, and nothing is stored. */
  predicate Decided(env: FlagEnv, f: Feature, rule: Rule, a: Assignments, c: Context, v: FlagValue, reached: bool) {
    var e := Evaluate(env, f, a, c);
    if reached then e.value == v && e.reason == TargetingMatch && e.source == ByRule(rule)
    else e == Evaluation(SafeDefault(env, f), DefaultReason, Fallback, a)
  }

  lemma {:induction false} NoOverrideApplies(overrides: seq<Override>, scope: string, c: Context)
    requires forall o | o in overrides :: !o.enabled
    ensures LastOverride(overrides, scope, c).None?
    decreases |overrides|
  {
    if overrides != [] { NoOverrideApplies(overrides[..|overrides| - 1], scope, c); }
  }

  lemma QuietSources(env: FlagEnv, f: Feature, a: Assignments, c: Context)
    requires Quiet(f, a, c)
    ensures PreviewValue(env, f, c).None? && OverrideValue(env, f, c).None? && StickyValue(env, f, a, c).None?
  {
    hide LastOverride, IntText;
    NoOverrideApplies(f.overrides, "user", c);
    NoOverrideApplies(f.overrides, "anonymous", c);
    NoOverrideApplies(f.overrides, "global", c);
  }

  lemma OnlyRuleDecides(env: FlagEnv, f: Feature, rule: Rule, a: Assignments, c: Context)
    requires Quiet(f, a, c) && OnlyRule(f, rule)
    ensures var v := RuleValue(env, f, rule, c);
            Decided(env, f, rule, a, c, if v.Some? then v.value else B(false), v.Some?)
  {
    hide Admitted, RuleResult, AudienceMatches, PreviewValue, OverrideValue, StickyValue, SafeDefault, FirstRule;
    QuietSources(env, f, a, c);
    FirstRuleIsOne(env, f, f.rules, c);
    var r := FirstRule(env, f, f.rules, c);
    if RuleValue(env, f, rule, c).Some? {
      var i :| 0 <= i < |f.rules| && f.rules[i] == rule;
      assert r.Some?;
    }
    if r.Some? { assert r.value.0.enabled && r.value.0 in f.rules; }
  }

  lemma SoleDecides(env: FlagEnv, f: Feature, rule: Rule, a: Assignments, c: Context, v: FlagValue)
    requires Sole(env, f, rule, a, c, v)
    ensures Decided(env, f, rule, a, c, v, OnPage(rule, c) && AudienceMatches(env, f.key, rule, c))
  {
    RuleSupplies(env, f, rule, c, v);
    hide AudienceMatches, Decided, SafeDefault, Quiet, Validated, RuleValue, IsGuarded;
    OnlyRuleDecides(env, f, rule, a, c);
    DecidedFalse(env, f, rule, a, c, v, B(false));
  }

  lemma RuleSupplies(env: FlagEnv, f: Feature, rule: Rule, c: Context, v: FlagValue)
    requires rule.enabled && StandsFor(env, f, rule, v) && !IsGuarded(env, f.key, v)
    ensures RuleValue(env, f, rule, c) == if OnPage(rule, c) && AudienceMatches(env, f.key, rule, c) then Some(v) else None
  {
    hide AudienceMatches, SafeDefault, Coerce, IsGuarded;
  }

  lemma DecidedFalse(env: FlagEnv, f: Feature, rule: Rule, a: Assignments, c: Context, v: FlagValue, w: FlagValue)
    ensures Decided(env, f, rule, a, c, v, false) <==> Decided(env, f, rule, a, c, w, false)
  {
  }

  // ---------------------------------------------------------------- audience by audience

  /** Everyone: every visitor of the page. */
  lemma EveryoneExactly(env: FlagEnv, f: Feature, rule: Rule, a: Assignments, c: Context, v: FlagValue)
    requires Sole(env, f, rule, a, c, v) && rule.ruleType == "everyone"
    ensures Decided(env, f, rule, a, c, v, OnPage(rule, c))
  {
    hide Sole, Decided;
    SoleDecides(env, f, rule, a, c, v);
  }

  /** The signed-in: whoever is signed in, as anyone. */
  lemma SignedInExactly(env: FlagEnv, f: Feature, rule: Rule, a: Assignments, c: Context, v: FlagValue)
    requires Sole(env, f, rule, a, c, v) && rule.ruleType == "authenticated"
    ensures Decided(env, f, rule, a, c, v, OnPage(rule, c) && exists pk :: SignedInAs(c, pk))
  {
    hide Sole, Decided;
    SoleDecides(env, f, rule, a, c, v);
    if UserId(c).Some? { assert SignedInAs(c, UserId(c).value); }
  }

  /** Staff: whoever is signed in and staff. */
  lemma StaffExactly(env: FlagEnv, f: Feature, rule: Rule, a: Assignments, c: Context, v: FlagValue)
    requires Sole(env, f, rule, a, c, v) && rule.ruleType == "staff"
    ensures Decided(env, f, rule, a, c, v, OnPage(rule, c) && Staff(c))
  {
    hide Sole, Decided;
    SoleDecides(env, f, rule, a, c, v);
  }

  /** The visitor is a member of a group the list names; a list with an entry that is no number names none. */
  predicate InListedGroup(env: FlagEnv, rule: Rule, c: Context, pk: int) {
    && SignedInAs(c, pk)
    && (forall g | g in rule.groupIds :: g.truthy ==> g.number.Some?)
    && exists id | id in env.groups :: pk in env.groups[id].members && Lists(rule, id)
  }

  predicate Lists(rule: Rule, id: nat) {
    exists g | g in rule.groupIds :: g.truthy && g.number == Some(id)
  }

  /** Groups: signed-in members of a listed group. */
  lemma GroupExactly(env: FlagEnv, f: Feature, rule: Rule, a: Assignments, c: Context, v: FlagValue)
    requires Sole(env, f, rule, a, c, v) && rule.ruleType == "group"
    ensures Decided(env, f, rule, a, c, v, OnPage(rule, c) && exists pk :: InListedGroup(env, rule, c, pk))
  {
    hide Sole, Decided;
    SoleDecides(env, f, rule, a, c, v);
    GroupMatchesExactly(env, f.key, rule, c);
  }

  lemma GroupMatchesExactly(env: FlagEnv, key: string, rule: Rule, c: Context)
    requires rule.ruleType == "group"
    ensures AudienceMatches(env, key, rule, c) <==> exists pk :: InListedGroup(env, rule, c, pk)
  {
    var ids := GroupIds(rule.groupIds);
    if ids.Some? {
      forall id | id in env.groups ensures id in ids.value <==> Lists(rule, id) {
        if Lists(rule, id) {
          var g :| g in rule.groupIds && g.truthy && g.number == Some(id);
          assert g.number.value in ids.value;
        }
      }
    }
    if AudienceMatches(env, key, rule, c) { assert InListedGroup(env, rule, c, UserId(c).value); }
    if pk :| InListedGroup(env, rule, c, pk) { assert UserId(c) == Some(pk); }
  }

  /** Users: exactly the listed users, by the text of their id; on a denylist they get the safe default. */
  lemma UserListExactly(env: FlagEnv, f: Feature, rule: Rule, a: Assignments, c: Context, v: FlagValue)
    requires Sole(env, f, rule, a, c, v) && rule.ruleType in {"user_allowlist", "user_denylist"}
    ensures Decided(env, f, rule, a, c, v, OnPage(rule, c) && exists pk :: SignedInAs(c, pk) && IntText(pk) in rule.actorIds)
  {
    hide Sole, Decided, IntText;
    SoleDecides(env, f, rule, a, c, v);
    if UserId(c).Some? { assert SignedInAs(c, UserId(c).value); }
  }

  /** Anonymous ids: exactly the visitors that carry a listed one, signed in or not. */
  lemma AnonymousListExactly(env: FlagEnv, f: Feature, rule: Rule, a: Assignments, c: Context, v: FlagValue)
    requires Sole(env, f, rule, a, c, v) && rule.ruleType in {"anonymous_allowlist", "anonymous_denylist"}
    ensures Decided(env, f, rule, a, c, v, OnPage(rule, c) && exists id :: id in rule.actorIds && Carries(c, id))
  {
    hide Sole, Decided;
    SoleDecides(env, f, rule, a, c, v);
    if AnonymousId(c) in rule.actorIds && AnonymousId(c) != "" { assert Carries(c, AnonymousId(c)); }
  }

  /** The text a visitor is bucketed by: the user's id if signed in, else the anonymous id. */
  ghost predicate BucketedAs(c: Context, identity: string) {
    || (exists pk :: SignedInAs(c, pk) && identity == "user:" + IntText(pk))
    || ((forall pk :: !SignedInAs(c, pk)) && exists id :: Carries(c, id) && identity == "anon:" + id)
  }

  /** The percentage in force: what is stored, kept between 0 and 100, and 0 if nothing is. */
  function InForce(rule: Rule): int {
    match rule.percentage
    case None => 0
    case Some(p) => if p > 100 then 100 else if p < 0 then 0 else p
  }

  predicate InBucket(env: FlagEnv, key: string, rule: Rule, page: string, identity: string) {
    env.hash(key + ":" + page + ":" + identity) % 100 < InForce(rule)
  }

  /** Percentages: visitors with an identity whose bucket on this page is below the percentage in force. */
  lemma PercentageExactly(env: FlagEnv, f: Feature, rule: Rule, a: Assignments, c: Context, v: FlagValue)
    requires Sole(env, f, rule, a, c, v) && rule.ruleType == "percentage"
    ensures Decided(env, f, rule, a, c, v,
                    OnPage(rule, c) && exists identity :: BucketedAs(c, identity) && InBucket(env, f.key, rule, c.page, identity))
  {
    hide Sole, Decided, IntText;
    SoleDecides(env, f, rule, a, c, v);
    IdentityExactly(c);
  }

  lemma IdentityExactly(c: Context)
    ensures HasIdentity(c) ==> BucketedAs(c, IdentityKey(c))
    ensures forall identity | BucketedAs(c, identity) :: HasIdentity(c) && identity == IdentityKey(c)
  {
    hide IntText;
    if UserId(c).Some? { assert SignedInAs(c, UserId(c).value); }
    if AnonymousId(c) != "" { assert Carries(c, AnonymousId(c)); }
  }

  /** Raising a percentage only ever adds visitors: none at 0, everyone with an identity at 100. */
  lemma RaisingOnlyAdds(env: FlagEnv, f: Feature, rule: Rule, a: Assignments, c: Context, v: FlagValue, p: int, q: int)
    requires Sole(env, f, rule, a, c, v) && rule.ruleType == "percentage" && rule.percentage == Some(p) && p <= q
    ensures var more := rule.(percentage := Some(q));
            var g := f.(rules := [more]);
            && (Evaluate(env, f, a, c).source == ByRule(rule) ==>
                  Evaluate(env, g, a, c).source == ByRule(more) && Evaluate(env, g, a, c).value == Evaluate(env, f, a, c).value)
            && (p <= 0 ==> Evaluate(env, f, a, c).source == Fallback)
            && (q >= 100 && OnPage(rule, c) && (exists identity :: BucketedAs(c, identity)) ==>
                  Evaluate(env, g, a, c).source == ByRule(more))
  {
    var more := rule.(percentage := Some(q));
    var g := f.(rules := [more]);
    assert Sole(env, g, more, a, c, v) by { SoleAgain(env, f, rule, a, c, v, more); }
    hide Sole, BucketedAs, Evaluate, SafeDefault;
    PercentageExactly(env, f, rule, a, c, v);
    PercentageExactly(env, g, more, a, c, v);
    if identity :| BucketedAs(c, identity) && InBucket(env, f.key, rule, c.page, identity) {
      assert InBucket(env, g.key, more, c.page, identity);
    }
    if q >= 100 {
      if identity :| BucketedAs(c, identity) { assert InBucket(env, g.key, more, c.page, identity); }
    }
  }

  lemma SoleAgain(env: FlagEnv, f: Feature, rule: Rule, a: Assignments, c: Context, v: FlagValue, more: Rule)
    requires Sole(env, f, rule, a, c, v) && rule.ruleType == "percentage" && more == rule.(percentage := more.percentage)
    ensures Sole(env, f.(rules := [more]), more, a, c, v)
  {
    hide ValidValue, Coerce, IsGuarded, Quiet;
    assert Quiet(f.(rules := [more]), a, c) by { QuietAgain(f, a, c, [more]); }
  }

  lemma QuietAgain(f: Feature, a: Assignments, c: Context, rules: seq<Rule>)
    requires Quiet(f, a, c)
    ensures Quiet(f.(rules := rules), a, c)
  {
  }

  /** A rule of any other type reaches nobody. */
  lemma UnknownTypeReachesNobody(env: FlagEnv, f: Feature, rule: Rule, a: Assignments, c: Context, v: FlagValue)
    requires Sole(env, f, rule, a, c, v)
    requires rule.ruleType !in {"everyone", "authenticated", "staff", "group", "user_allowlist", "user_denylist",
                                "anonymous_allowlist", "anonymous_denylist", "percentage"}
    ensures Decided(env, f, rule, a, c, v, false)
  {
    hide Sole, Decided;
    SoleDecides(env, f, rule, a, c, v);
  }
}
