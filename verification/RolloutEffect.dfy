/** From operator to visitor: a guided group rollout takes effect for exactly whom it targets. */
module RolloutEffect {
  import opened Prelude
  import opened Decimals
  import opened R = FlagRegistry
  import opened E = FlagEvaluation
  import opened O = FlagOrder
  import opened Rollouts

  lemma {:induction false} SmallestHasAll(s: set<nat>, n: nat)
    requires |s| <= n
    ensures forall p | p in s :: p in Smallest(s, n)
    decreases n
  {
    if s != {} && n > 0 {
      SmallestHasAll(s - {Least(s)}, n - 1);
    }
  }

  lemma ListEntries(groups: set<nat>)
    ensures forall g | g in groups :: StoredId(g) in GroupIdList(groups)
    ensures forall r | r in GroupIdList(groups) :: exists g :: g in groups && r == StoredId(g)
  {
    hide StoredId;
    SmallestHasAll(groups, |groups|);
    var ids, list := Smallest(groups, |groups|), GroupIdList(groups);
    forall g | g in groups ensures StoredId(g) in list {
      var i :| 0 <= i < |ids| && ids[i] == g;
      assert list[i] == StoredId(g);
    }
    forall r | r in list ensures exists g :: g in groups && r == StoredId(g) {
      var i :| 0 <= i < |list| && list[i] == r;
      assert ids[i] in ids && r == StoredId(ids[i]);
    }
  }

  /** The stored id list spells exactly the chosen groups, to every reader of it. */
  lemma GroupListReads(groups: set<nat>)
    requires 0 !in groups
    ensures GroupIds(GroupIdList(groups)).Some?
    ensures forall id: int :: id in GroupIds(GroupIdList(groups)).value <==> id >= 0 && id as nat in groups
    ensures StrictIds(GroupIdList(groups)) == Some(groups)
  {
    hide IntText, GroupIdList;
    ListEntries(groups);
    var list := GroupIdList(groups);
    assert forall r | r in list :: r.truthy && r.number.Some? && r.strict.Some?;
    forall id: int | id in GroupIds(list).value ensures id >= 0 && id as nat in groups {
      var r :| r in list && r.number.Some? && r.number.value == id;
    }
    forall g | g in groups ensures g as int in GroupIds(list).value && g in StrictIds(list).value {
      assert StoredId(g) in list;
    }
    assert StrictIds(list).value == groups;
  }

  /** An enabled group rollout that the service accepted, as the only source for a page, gives its
      value to every signed-in member of a chosen group, guarded value or not. */
  lemma GroupRolloutReaches(env: FlagEnv, features: Features, rules: Rules, form: Form, perms: set<string>,
                            f: Feature, a: Assignments, c: Context, group: nat)
    requires form.audience == "group" && form.enabled && 0 !in form.groups
    requires CreateDecision(env.reg, features, rules, env.groups, form, perms).Insert?
    requires f.key == features[form.feature].key && f.kind == env.reg[f.key].kind
    requires var rule := CreateDecision(env.reg, features, rules, env.groups, form, perms).rule;
             rule in f.rules && PageDisjoint(f.rules) && (rule.page == "" || rule.page == c.page)
    requires f.overrides == [] && Previews(c) == map[] && Assigned(env, f, a, c).None?
    requires forall p, q | p in env.groups && q in env.groups && env.groups[p].slug == env.groups[q].slug :: p == q
    requires group in form.groups && group in env.groups
    requires UserId(c).Some? && UserId(c).value in env.groups[group].members
    ensures var rule := CreateDecision(env.reg, features, rules, env.groups, form, perms).rule;
            var e := Evaluate(env, f, a, c);
            e.source == ByRule(rule) && Some(e.value) == Coerce(f.kind, S(rule.value))
  {
    hide PageDisjoint, Conflicts, LongReason, IntText, GroupIdList, Canonical, FirstRule, StickyOn, Strip, Spelled;
    hide RuleMatches, RuleMayGuard;
    var rule := CreateDecision(env.reg, features, rules, env.groups, form, perms).rule;
    assert rule == RuleFor(f.key, form) && rule.ruleType == "group" && rule.groupIds == GroupIdList(form.groups);
    GroupListReads(form.groups);
    var i :| 0 <= i < |f.rules| && f.rules[i] == rule;
    assert RuleMatches(env, f.key, rule, c) by { MemberMatches(env, f.key, rule, c, form.groups, group); }
    assert RuleMayGuard(env, f.key, rule, c) by { MemberMayGuard(env, f.key, form, rule, c, group); }
    assert RuleValue(env, f, rule, c).Some?;
    FirstRuleIsOne(env, f, f.rules, c);
    var r := FirstRule(env, f, f.rules, c);
    var j :| 0 <= j < |f.rules| && r.value.0 == f.rules[j] && RuleValue(env, f, f.rules[j], c) == Some(r.value.1);
    OneRuleSupplies(env, f, f.rules, c, i, j);
  }

  lemma MemberMatches(env: FlagEnv, key: string, rule: Rule, c: Context, groups: set<nat>, group: nat)
    requires rule.enabled && (rule.page == "" || rule.page == c.page) && rule.ruleType == "group"
    requires 0 !in groups && rule.groupIds == GroupIdList(groups) && group in groups && group in env.groups
    requires UserId(c).Some? && UserId(c).value in env.groups[group].members
    ensures RuleMatches(env, key, rule, c)
  {
    hide GroupIdList, GroupIds;
    GroupListReads(groups);
    assert group in GroupIds(rule.groupIds).value;
  }

  lemma MemberMayGuard(env: FlagEnv, key: string, form: Form, rule: Rule, c: Context, group: nat)
    requires key in env.reg && form.audience == "group" && TargetingErrorFree(env, key, form)
    requires rule.ruleType == "group" && 0 !in form.groups && rule.groupIds == GroupIdList(form.groups)
    requires forall p, q | p in env.groups && q in env.groups && env.groups[p].slug == env.groups[q].slug :: p == q
    requires group in form.groups && group in env.groups
    requires UserId(c).Some? && UserId(c).value in env.groups[group].members
    ensures RuleMayGuard(env, key, rule, c)
  {
    hide GroupIdList, IntText;
    GroupListReads(form.groups);
    ListEntries(form.groups);
    assert StoredId(group) in rule.groupIds && StoredId(group).text == IntText(group);
    var policy := PolicyOf(env.reg[key]);
    if Truthy(policy.requiredGroup) {
      assert GroupsWith(env.groups, policy.requiredGroup.value, UserId(c).value) == {group};
      assert RequiredGroupId(env, key, c) == Some(group);
    }
  }

  predicate TargetingErrorFree(env: FlagEnv, key: string, form: Form)
    requires key in env.reg
  {
    && "group" in PolicyOf(env.reg[key]).audiences
    && (Truthy(PolicyOf(env.reg[key]).requiredGroup) ==>
          forall g | g in form.groups :: g in env.groups && env.groups[g].slug == PolicyOf(env.reg[key]).requiredGroup.value)
  }

  /** And to nobody else: a visitor outside every chosen group is not matched by the rule. */
  lemma GroupRolloutSpares(env: FlagEnv, key: string, form: Form, c: Context)
    requires form.audience == "group" && 0 !in form.groups
    requires UserId(c).Some? ==> forall g | g in form.groups && g in env.groups :: UserId(c).value !in env.groups[g].members
    ensures !RuleMatches(env, key, RuleFor(key, form), c)
  {
    hide GroupIdList, IntText, GroupIds;
    GroupListReads(form.groups);
  }
}
