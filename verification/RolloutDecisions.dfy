/** When an operator may create, start or stop a rollout: every condition, written out. */
module RolloutDecisions {
  import opened Prelude
  import opened R = FlagRegistry
  import opened E = FlagEvaluation
  import opened Decimals
  import opened FlagSources
  import opened Rollouts
  import opened RolloutEffect

  /** The flag is there, active and registered. */
  predicate IsLive(features: Features, reg: Registry, feature: nat) {
    feature in features && features[feature].active && features[feature].key in reg
  }

  /** What an operator must be allowed for a rule of this type. */
  predicate Permitted(ruleType: string, perms: set<string>) {
    && (ruleType == "authenticated" || ruleType == "percentage" || ruleType == "everyone" ==>
          "featureflags.change_featuredefinition" in perms)
    && (ruleType == "user_allowlist" || ruleType == "user_denylist" ==> "auth.view_user" in perms)
    && (ruleType == "group" ==> "featureflags.view_featuregroup" in perms)
  }

  /** One of the registered values, up to spelling, and one of the registered pages. */
  predicate Registered(spec: Spec, value: string, page: string) {
    && (exists v | v in spec.variants :: Canonical(v) == value)
    && (if page == "" then "" in spec.pages || "*" in spec.pages else page in spec.pages && page != "*")
  }

  /** No other enabled rule of the flag can apply to a page this one applies to. */
  ghost predicate Alone(rules: Rules, feature: nat, page: string, id: Option<nat>) {
    forall other | other in rules && Some(other) != id && rules[other].feature == feature && rules[other].rule.enabled ::
      page != "" && rules[other].rule.page != "" && rules[other].rule.page != page
  }

  predicate GoodPercentage(p: Option<int>) { p.Some? && 0 <= p.value <= 100 }

  /** Five characters, white space at the ends aside. */
  predicate GoodReason(reason: string) { |Strip(reason)| >= 5 }

  // ---------------------------------------------------------------- start

  /** The rule names groups that exist, each entry one of them, of the required slug if there is one. */
  ghost predicate NamesGroups(groups: map<nat, Group>, policy: Policy, ids: seq<RawId>) {
    && ids != []
    && forall g | g in ids ::
         && g.strict.Some? && g.strict.value in groups
         && (policy.requiredGroup.Some? && policy.requiredGroup.value != "" ==>
               groups[g.strict.value].slug == policy.requiredGroup.value)
  }

  /** What starting asks of the rule's audience. */
  ghost predicate Targeted(groups: map<nat, Group>, policy: Policy, rule: Rule) {
    && rule.ruleType in policy.audiences
    && (rule.ruleType == "user_allowlist" || rule.ruleType == "user_denylist" ==> rule.actorIds != [])
    && (rule.ruleType == "group" ==> NamesGroups(groups, policy, rule.groupIds))
    && (rule.ruleType == "percentage" ==> GoodPercentage(rule.percentage))
  }

  /** What saving asks of any rule. */
  predicate Saveable(reg: Registry, key: string, rule: Rule) {
    key in reg && Accepts(reg[key], S(rule.value)) && (rule.percentage.Some? ==> GoodPercentage(rule.percentage)) && rule.name != ""
  }

  lemma CleanExactly(reg: Registry, key: string, rule: Rule)
    ensures Clean(reg, key, rule) <==> Saveable(reg, key, rule)
  {
    hide ValidValue, Accepts;
    ValidExactly(reg, key, S(rule.value));
  }

  lemma TokensExactly(values: seq<FlagValue>, token: string)
    ensures token in Tokens(values) <==> exists v | v in values :: Canonical(v) == token
  {
    hide Canonical;
  }

  lemma PagesExactly(spec: Spec, page: string)
    ensures page in PageTokens(spec) <==>
              if page == "" then "" in spec.pages || "*" in spec.pages else page in spec.pages && page != "*"
  {
    if page in PageTokens(spec) { var p :| p in spec.pages && (if p == "*" then "" else p) == page; }
    if "*" in spec.pages {
      var star := "*";
      assert (if star == "*" then "" else star) in PageTokens(spec);
    }
    if page in spec.pages { assert (if page == "*" then "" else page) in PageTokens(spec) ; }
  }

  lemma StrictExactly(groups: map<nat, Group>, policy: Policy, ids: seq<RawId>)
    ensures NamesGroups(groups, policy, ids) <==>
              && StrictIds(ids).Some? && StrictIds(ids).value != {} && StrictIds(ids).value <= groups.Keys
              && (Truthy(policy.requiredGroup) ==>
                    forall g | g in StrictIds(ids).value :: groups[g].slug == policy.requiredGroup.value)
  {
    if StrictIds(ids).Some? {
      var all := StrictIds(ids).value;
      assert forall g | g in ids :: g.strict.Some? && g.strict.value in all;
      if ids != [] { assert ids[0] in ids; }
    }
  }

  lemma AudienceExactly(reg: Registry, key: string, groups: map<nat, Group>, rule: Rule, perms: set<string>)
    requires key in reg
    ensures AudienceError(reg, key, groups, rule, perms).None? <==>
              Permitted(rule.ruleType, perms) && Targeted(groups, PolicyOf(reg[key]), rule)
              && Registered(reg[key], rule.value, rule.page)
  {
    hide Canonical, Tokens, PageTokens, StrictIds, NamesGroups;
    TokensExactly(reg[key].variants, rule.value);
    PagesExactly(reg[key], rule.page);
    StrictExactly(groups, PolicyOf(reg[key]), rule.groupIds);
  }

  lemma ConflictsExactly(rules: Rules, feature: nat, page: string, id: Option<nat>)
    ensures Conflicts(rules, feature, page) - (if id.Some? then {id.value} else {}) == {} <==> Alone(rules, feature, page, id)
  {
    var left := Conflicts(rules, feature, page) - (if id.Some? then {id.value} else {});
    if left == {} {
      forall other | other in rules && Some(other) != id && rules[other].feature == feature && rules[other].rule.enabled
        ensures page != "" && rules[other].rule.page != "" && rules[other].rule.page != page
      {
        assert other !in left;
      }
    }
  }

  /** A rollout is started exactly when it is a never-started draft of a live flag, the policy allows its
      audience, the operator holds the permission that audience needs, its users, groups and percentage
      are there and valid, its value and page are registered, no other enabled rule overlaps it, and the
      reason is long enough. */
  lemma StartExactly(reg: Registry, features: Features, rules: Rules, groups: map<nat, Group>, id: nat, perms: set<string>,
                     reason: string)
    ensures StartDecision(reg, features, rules, groups, id, perms, reason).Open? <==>
              && id in rules && !rules[id].rule.enabled
              && var feature, rule, history := rules[id].feature, rules[id].rule, rules[id].history;
                 && IsLive(features, reg, feature)
                 && history != [] && (forall enabled | enabled in history :: !enabled)
                 && Permitted(rule.ruleType, perms)
                 && Targeted(groups, PolicyOf(reg[features[feature].key]), rule)
                 && Registered(reg[features[feature].key], rule.value, rule.page)
                 && Alone(rules, feature, rule.page, Some(id))
                 && GoodReason(reason)
                 && Saveable(reg, features[feature].key, rule)
  {
    hide AudienceError, Conflicts, Permitted, Targeted, Registered, Alone, Clean, Saveable, Strip;
    if id in rules && IsLive(features, reg, rules[id].feature) {
      AudienceExactly(reg, features[rules[id].feature].key, groups, rules[id].rule, perms);
      ConflictsExactly(rules, rules[id].feature, rules[id].rule.page, Some(id));
      DraftExactly(rules[id].history);
      CleanExactly(reg, features[rules[id].feature].key, rules[id].rule);
    }
  }

  lemma DraftExactly(history: seq<bool>)
    ensures NeverStarted(history) <==> history != [] && forall enabled | enabled in history :: !enabled
  {
    if history != [] { assert history[0] in history; }
  }

  // ---------------------------------------------------------------- create

  /** What creating asks of the form's audience. */
  ghost predicate Aimed(groups: map<nat, Group>, policy: Policy, form: Form) {
    match form.audience
    case "users" => "user_allowlist" in policy.audiences && form.users != {}
    case "group" =>
      && "group" in policy.audiences && form.groups != {}
      && (policy.requiredGroup.Some? && policy.requiredGroup.value != "" ==>
            forall g | g in form.groups :: g in groups && groups[g].slug == policy.requiredGroup.value)
    case "percentage" => "percentage" in policy.audiences && GoodPercentage(form.percentage)
    case "staff" => "staff" in policy.audiences
    case "authenticated" => "authenticated" in policy.audiences
    case "everyone" => "everyone" in policy.audiences
    case _ => false
  }

  /** The permission an audience of the form needs. */
  predicate MayAim(audience: string, perms: set<string>) {
    && (audience == "authenticated" || audience == "percentage" || audience == "everyone" ==>
          "featureflags.change_featuredefinition" in perms)
    && (audience == "users" ==> "auth.view_user" in perms)
    && (audience == "group" ==> "featureflags.view_featuregroup" in perms)
  }

  function ValueToken(value: Option<FlagValue>): string {
    match value
    case Some(v) => Canonical(v)
    case None => "None"
  }

  lemma TargetingExactly(reg: Registry, key: string, groups: map<nat, Group>, form: Form, perms: set<string>)
    requires key in reg
    ensures TargetingError(reg, key, groups, form, perms).None? <==>
              Aimed(groups, PolicyOf(reg[key]), form) && MayAim(form.audience, perms)
              && Registered(reg[key], ValueToken(form.value), form.page)
  {
    hide Canonical, Tokens, PageTokens;
    TokensExactly(reg[key].variants, ValueToken(form.value));
    PagesExactly(reg[key], form.page);
  }

  /** The rule describes the form, audience by audience. */
  ghost predicate Describes(rule: Rule, key: string, form: Form) {
    && rule.priority == 100 && rule.page == form.page && rule.enabled == form.enabled && rule.value == ValueToken(form.value)
    && rule.ruleType == (if form.audience == "users" then "user_allowlist" else form.audience)
    && (forall id :: id in rule.actorIds <==> form.audience == "users" && exists u :: u in form.users && id == IntText(u))
    && (forall g :: g in rule.groupIds <==> form.audience == "group" && exists id: nat :: id in form.groups && IsEntry(g, id))
    && rule.percentage == (if form.audience == "percentage" then form.percentage else None)
    && (form.name.Some? && form.name.value != "" && |form.name.value| <= 120 ==> rule.name == form.name.value)
    && |rule.name| <= 120 && rule.name != ""
  }

  /** A group's id as a list stores it: its text, and itself to every reader. */
  predicate IsEntry(g: RawId, id: nat) {
    g.text == IntText(id) && g.number == Some(id) && (g.truthy <==> id != 0) && g.strict == if id > 0 then Some(id) else None
  }

  lemma RuleDescribes(key: string, form: Form)
    requires RuleTypeFor(form.audience).Some?
    ensures Describes(RuleFor(key, form), key, form)
  {
    hide Canonical, IntText, GroupIdList, ActorIdList;
    var rule := RuleFor(key, form);
    ListEntries(form.groups);
    var name := if Truthy(form.name) then form.name.value else key + ": " + form.audience;
    assert name != "" && |Cut(name, 120)| > 0;
    forall id: string ensures id in ActorIdList(form.users) <==> exists u :: u in form.users && id == IntText(u) {
      ActorEntries(form.users, id);
    }
    forall g ensures g in GroupIdList(form.groups) <==> exists id: nat :: id in form.groups && IsEntry(g, id) {
      if g in GroupIdList(form.groups) {
        var id :| id in form.groups && g == StoredId(id);
        assert IsEntry(g, id);
      }
      if id: nat :| id in form.groups && IsEntry(g, id) { assert g == StoredId(id); }
    }
  }

  lemma ActorEntries(users: set<int>, id: string)
    ensures id in ActorIdList(users) <==> exists u :: u in users && id == IntText(u)
  {
    hide IntText;
  }

  /** Everything creating a rollout asks before it looks for drafts. */
  ghost predicate MayCreate(reg: Registry, features: Features, rules: Rules, groups: map<nat, Group>, form: Form, perms: set<string>) {
    && IsLive(features, reg, form.feature)
    && var spec := reg[features[form.feature].key];
       && Aimed(groups, PolicyOf(spec), form) && MayAim(form.audience, perms)
       && Registered(spec, ValueToken(form.value), form.page)
       && (form.enabled ==> Alone(rules, form.feature, form.page, None))
       && GoodReason(form.reason)
  }

  /** A never-started draft of the flag that is the rule the form describes. */
  ghost predicate DraftOf(rules: Rules, form: Form, key: string, id: nat) {
    && id in rules && rules[id].feature == form.feature && rules[id].rule == RuleFor(key, form)
    && rules[id].history != [] && forall enabled | enabled in rules[id].history :: !enabled
  }

  /** A rollout is created, and how: refused unless everything asked for holds; a draft that is there
      already is given back, the first of them; otherwise a rule is inserted that describes the form. */
  lemma CreateExactly(reg: Registry, features: Features, rules: Rules, groups: map<nat, Group>, form: Form, perms: set<string>)
    ensures var d := CreateDecision(reg, features, rules, groups, form, perms);
            if !MayCreate(reg, features, rules, groups, form, perms) then d.Refuse?
            else
              var key := features[form.feature].key;
              && Describes(RuleFor(key, form), key, form)
              && (d.Existing? <==> !form.enabled && exists id :: DraftOf(rules, form, key, id))
              && (d.Existing? ==> DraftOf(rules, form, key, d.id) && forall id | DraftOf(rules, form, key, id) :: d.id <= id)
              && (d.Insert? <==> !d.Existing? && Saveable(reg, key, RuleFor(key, form)))
              && (d.Insert? ==> d.rule == RuleFor(key, form))
  {
    hide TargetingError, Conflicts, Aimed, MayAim, Registered, Alone, Clean, Saveable, Strip, RuleFor, Describes;
    if IsLive(features, reg, form.feature) {
      var key := features[form.feature].key;
      TargetingExactly(reg, key, groups, form, perms);
      ConflictsExactly(rules, form.feature, form.page, None);
      CleanExactly(reg, key, RuleFor(key, form));
      var drafts := Drafts(rules, form.feature, RuleFor(key, form));
      forall id ensures id in drafts <==> DraftOf(rules, form, key, id) {
        if id in rules { DraftExactly(rules[id].history); }
      }
      if MayCreate(reg, features, rules, groups, form, perms) {
        AimedIsKnown(groups, PolicyOf(reg[key]), form);
        RuleDescribes(key, form);
      }
    }
  }

  lemma AimedIsKnown(groups: map<nat, Group>, policy: Policy, form: Form)
    requires Aimed(groups, policy, form)
    ensures RuleTypeFor(form.audience).Some?
  {
  }

  // ---------------------------------------------------------------- stop

  /** A rollout is stopped exactly when it is running, its flag is live, the reason is long enough and the
      stored rule can be saved. */
  lemma StopExactly(reg: Registry, features: Features, rules: Rules, id: nat, reason: string)
    ensures StopDecision(reg, features, rules, id, reason).Open? <==>
              && id in rules && rules[id].rule.enabled && IsLive(features, reg, rules[id].feature)
              && GoodReason(reason) && Saveable(reg, features[rules[id].feature].key, rules[id].rule)
  {
    hide Clean, Saveable, Strip;
    if id in rules && IsLive(features, reg, rules[id].feature) {
      CleanExactly(reg, features[rules[id].feature].key, rules[id].rule);
    }
  }
}
