/** Guided rollouts: what creating, starting and stopping a rollout decide, and the rule table
    with its history. */
module Rollouts {
  import opened Prelude
  import opened R = FlagRegistry
  import opened E = FlagEvaluation
  import opened Decimals
  import opened O = FlagOrder

  // ---------------------------------------------------------------- rows

  datatype FeatureRow = FeatureRow(key: string, active: bool)

  /** A rule and the `enabled` column of its history, oldest first. */
  datatype RuleRow = RuleRow(feature: nat, rule: Rule, history: seq<bool>)

  type Features = map<nat, FeatureRow>
  type Rules = map<nat, RuleRow>

  datatype Form = Form(feature: nat, page: string, audience: string, value: Option<FlagValue>, groups: set<nat>,
                       users: set<int>, percentage: Option<int>, enabled: bool, reason: string, name: Option<string>)

  /** `is_never_started_draft`: created disabled and never enabled since. */
  predicate NeverStarted(history: seq<bool>) {
    history != [] && !history[0] && true !in history
  }

  // ---------------------------------------------------------------- checks shared by the operations

  function Available(features: Features, reg: Registry, feature: nat): bool {
    feature in features && features[feature].active && features[feature].key in reg
  }

  function RuleTypeFor(audience: string): Option<string> {
    if audience == "users" then Some("user_allowlist")
    else if audience in {"group", "staff", "authenticated", "percentage", "everyone"} then Some(audience)
    else None
  }

  const CHANGE_DEFINITIONS := "featureflags.change_featuredefinition"

  const DANGEROUS := {"authenticated", "percentage", "everyone"}

  /** The page tokens of a flag: the wildcard page is stored blank. */
  function PageTokens(spec: Spec): set<string> {
    set p | p in spec.pages :: if p == "*" then "" else p
  }

  function TokenOf(value: Option<FlagValue>): string {
    if value.Some? then Canonical(value.value) else "None"
  }

  predicate LongReason(reason: string) { |Strip(reason)| >= 5 }

  /** `full_clean` of a rule: the registry accepts its value, and the percentage is one. */
  predicate Clean(reg: Registry, key: string, rule: Rule) {
    && ValidValue(reg, key, S(rule.value))
    && (rule.percentage.Some? ==> 0 <= rule.percentage.value <= 100)
    && rule.name != ""
  }

  /** Ids of enabled rules of the feature whose page scope overlaps. */
  function Conflicts(rules: Rules, feature: nat, page: string): set<nat> {
    set id | id in rules && rules[id].feature == feature && rules[id].rule.enabled &&
             (page == "" || rules[id].rule.page == "" || rules[id].rule.page == page)
  }

  // ---------------------------------------------------------------- create

  /** What is wrong with the targeting of a new rollout, in the order it is checked. */
  function TargetingError(reg: Registry, key: string, groups: map<nat, Group>, form: Form, perms: set<string>): Option<string>
    requires key in reg
  {
    var ruleType := RuleTypeFor(form.audience);
    if ruleType.None? then Some("unknown audience")
    else if ruleType.value !in PolicyOf(reg[key]).audiences then Some("audience not allowed by policy")
    else if form.audience in DANGEROUS && CHANGE_DEFINITIONS !in perms
    then Some("broad rollout needs permission")
    else if form.audience == "users" && "auth.view_user" !in perms then Some("no permission to view users")
    else if form.audience == "group" && "featureflags.view_featuregroup" !in perms then Some("no permission to view groups")
    else if TokenOf(form.value) !in Tokens(reg[key].variants) then Some("value not allowed")
    else if form.page !in PageTokens(reg[key]) then Some("page not allowed")
    else if Truthy(PolicyOf(reg[key]).requiredGroup) && form.audience == "group" &&
      (form.groups == {} || exists g | g in form.groups ::
         g !in groups || groups[g].slug != PolicyOf(reg[key]).requiredGroup.value)
    then Some("policy requires its group")
    else if form.audience == "group" && form.groups == {} then Some("choose a group")
    else if form.audience == "users" && form.users == {} then Some("choose a user")
    else if form.audience == "percentage" && (form.percentage.None? || !(0 <= form.percentage.value <= 100))
    then Some("percentage from 0 to 100")
    else None
  }

  /** A group's primary key as it is stored in a rule's list. */
  function StoredId(g: nat): RawId {
    RawId(IntText(g), Some(g), g != 0, if g > 0 then Some(g) else None)
  }

  function GroupIdList(groups: set<nat>): seq<RawId> {
    var ids := Smallest(groups, |groups|);
    seq(|ids|, i requires 0 <= i < |ids| => StoredId(ids[i]))
  }

  function ActorIdList(users: set<int>): seq<string> {
    Sorted(set u | u in users :: IntText(u))
  }

  function Cut(s: string, n: nat): string { if |s| > n then s[..n] else s }

  /** The rule row a form describes. */
  function RuleFor(key: string, form: Form): Rule {
    var name := if Truthy(form.name) then form.name.value else key + ": " + form.audience;
    var ruleType := RuleTypeFor(form.audience);
    Rule(Cut(name, 120), 100, if ruleType.Some? then ruleType.value else "", TokenOf(form.value), form.page,
         if form.audience == "users" then ActorIdList(form.users) else [],
         if form.audience == "group" then GroupIdList(form.groups) else [],
         if form.audience == "percentage" then form.percentage else None,
         form.enabled)
  }

  /** Never-started drafts of the feature with exactly these parameters. */
  function Drafts(rules: Rules, feature: nat, rule: Rule): set<nat> {
    set id | id in rules && rules[id].feature == feature && rules[id].rule == rule && NeverStarted(rules[id].history)
  }

  datatype Decision = Refuse(reason: string) | Existing(id: nat) | Insert(rule: Rule)

  /** `create_rollout`, up to its insert. */
  function CreateDecision(reg: Registry, features: Features, rules: Rules, groups: map<nat, Group>, form: Form,
                          perms: set<string>): Decision
  {
    if !Available(features, reg, form.feature) then Refuse("flag not available")
    else
      var key := features[form.feature].key;
      var error, rule := TargetingError(reg, key, groups, form, perms), RuleFor(key, form);
      var drafts := Drafts(rules, form.feature, rule);
      if error.Some? then Refuse(error.value)
      else if form.enabled && Conflicts(rules, form.feature, form.page) != {} then Refuse("active rollout exists")
      else if !LongReason(form.reason) then Refuse("reason too short")
      else if !form.enabled && drafts != {} then Existing(Least(drafts))
      else if !Clean(reg, key, rule) then Refuse("invalid rule")
      else Insert(rule)
  }

  // ---------------------------------------------------------------- start and stop

  /** The group ids of a rule, read strictly. */
  function StrictIds(ids: seq<RawId>): Option<set<nat>> {
    if exists g | g in ids :: g.strict.None? then None else Some(set g | g in ids && g.strict.Some? :: g.strict.value)
  }

  function AudienceError(reg: Registry, key: string, groups: map<nat, Group>, rule: Rule, perms: set<string>): Option<string>
    requires key in reg
  {
    if rule.ruleType !in PolicyOf(reg[key]).audiences then Some("audience not allowed by policy")
    else if rule.ruleType in DANGEROUS && CHANGE_DEFINITIONS !in perms
    then Some("broad rollout needs permission")
    else if rule.ruleType in {"user_allowlist", "user_denylist"} && "auth.view_user" !in perms
    then Some("no permission to view users")
    else if rule.ruleType == "group" && "featureflags.view_featuregroup" !in perms then Some("no permission to view groups")
    else if rule.ruleType in {"user_allowlist", "user_denylist"} && rule.actorIds == [] then Some("no users chosen")
    else if rule.ruleType == "group" && StrictIds(rule.groupIds).None? then Some("group list damaged")
    else if rule.ruleType == "group" &&
      (StrictIds(rule.groupIds).value == {} || !(StrictIds(rule.groupIds).value <= groups.Keys))
    then Some("no existing groups chosen")
    else if rule.ruleType == "percentage" && (rule.percentage.None? || !(0 <= rule.percentage.value <= 100))
    then Some("percentage from 0 to 100")
    else if rule.value !in Tokens(reg[key].variants) then Some("value not allowed")
    else if rule.page !in PageTokens(reg[key]) then Some("page not allowed")
    else if Truthy(PolicyOf(reg[key]).requiredGroup) && rule.ruleType == "group" &&
      (exists g | g in StrictIds(rule.groupIds).value :: groups[g].slug != PolicyOf(reg[key]).requiredGroup.value)
    then Some("policy requires its group")
    else None
  }

  /** `start_rollout`, up to its write. */
  function StartDecision(reg: Registry, features: Features, rules: Rules, groups: map<nat, Group>, id: nat, perms: set<string>,
                         reason: string): Gate<()>
  {
    if id !in rules then Rejected("no such rollout")
    else
      var row := rules[id];
      if row.rule.enabled then Rejected("already started")
      else if !Available(features, reg, row.feature) then Rejected("flag not available")
      else if !NeverStarted(row.history) then Rejected("only a draft can be started")
      else
        var key := features[row.feature].key;
        var error := AudienceError(reg, key, groups, row.rule, perms);
        if error.Some? then Rejected(error.value)
        else if Conflicts(rules, row.feature, row.rule.page) - {id} != {} then Rejected("active rollout exists")
        else if !LongReason(reason) then Rejected("reason too short")
        else if !Clean(reg, key, row.rule) then Rejected("invalid rule")
        else Open(())
  }

  /** `stop_rollout`, up to its write. */
  function StopDecision(reg: Registry, features: Features, rules: Rules, id: nat, reason: string): Gate<()> {
    if id !in rules then Rejected("no such rollout")
    else
      var row := rules[id];
      if !Available(features, reg, row.feature) then Rejected("archived or unknown flag")
      else if !row.rule.enabled then Rejected("already stopped")
      else if !LongReason(reason) then Rejected("reason too short")
      else if !Clean(reg, features[row.feature].key, row.rule) then Rejected("invalid rule")
      else Open(())
  }

  /** Save the rule with this `enabled`, and its history row with it. */
  function Switch(rules: Rules, id: nat, enabled: bool): Rules
    requires id in rules
  {
    var row := rules[id];
    rules[id := row.(rule := row.rule.(enabled := enabled), history := row.history + [enabled])]
  }

  function Added(rules: Rules, id: nat, feature: nat, rule: Rule): Rules {
    rules[id := RuleRow(feature, rule, [rule.enabled])]
  }

  // ---------------------------------------------------------------- the service

  class RolloutAdmin {
    const reg: Registry
    const groups: map<nat, Group>
    var features: Features
    var rules: Rules
    var nextId: nat

    constructor (reg: Registry, groups: map<nat, Group>, features: Features)
      ensures this.reg == reg && this.groups == groups && this.features == features && rules == map[] && nextId == 1
    {
      this.reg := reg;
      this.groups := groups;
      this.features := features;
      rules := map[];
      nextId := 1;
    }

    /** The first never-started draft with these parameters, tried in id order. */
    method FindDraft(feature: nat, rule: Rule) returns (found: Option<nat>)
      ensures found == First(Drafts(rules, feature, rule))
    {
      var matching := set id | id in rules && rules[id].feature == feature && rules[id].rule == rule;
      var rest := matching;
      while rest != {}
        invariant rest <= matching
        invariant Drafts(rules, feature, rule) <= rest
        decreases |rest|
      {
        var id := Least(rest);
        if NeverStarted(rules[id].history) {
          LeastIsFirst(id, Drafts(rules, feature, rule));
          return Some(id);
        }
        rest := rest - {id};
      }
      found := None;
    }

    method Create(form: Form, perms: set<string>) returns (r: Gate<nat>)
      modifies this
      ensures var d := CreateDecision(reg, old(features), old(rules), groups, form, perms);
              && features == old(features)
              && (d.Refuse? ==> r == Rejected(d.reason) && rules == old(rules) && nextId == old(nextId))
              && (d.Existing? ==> r == Open(d.id) && rules == old(rules) && nextId == old(nextId))
              && (d.Insert? ==> r == Open(old(nextId)) && nextId == old(nextId) + 1
                                && rules == Added(old(rules), old(nextId), form.feature, d.rule))
    {
      hide TargetingError, RuleFor, Clean, LongReason, Drafts, Conflicts;
      if form.feature !in features || !features[form.feature].active || features[form.feature].key !in reg {
        return Rejected("flag not available");
      }
      var key := features[form.feature].key;
      var error := TargetingError(reg, key, groups, form, perms);
      if error.Some? { return Rejected(error.value); }
      if form.enabled && Conflicts(rules, form.feature, form.page) != {} { return Rejected("active rollout exists"); }
      if !LongReason(form.reason) { return Rejected("reason too short"); }
      var rule := RuleFor(key, form);
      if !form.enabled {
        var draft := FindDraft(form.feature, rule);
        if draft.Some? {
          LeastIsFirst(draft.value, Drafts(rules, form.feature, rule));
          return Open(draft.value);
        }
      }
      if !Clean(reg, key, rule) { return Rejected("invalid rule"); }
      rules := rules[nextId := RuleRow(form.feature, rule, [rule.enabled])];
      r := Open(nextId);
      nextId := nextId + 1;
    }

    method Start(id: nat, perms: set<string>, reason: string) returns (r: Gate<()>)
      modifies this`rules
      ensures r == StartDecision(reg, features, old(rules), groups, id, perms, reason)
      ensures rules == if r.Open? then Switch(old(rules), id, true) else old(rules)
    {
      hide AudienceError, Clean, LongReason, Conflicts;
      if id !in rules { return Rejected("no such rollout"); }
      var row := rules[id];
      if row.rule.enabled { return Rejected("already started"); }
      if row.feature !in features || !features[row.feature].active || features[row.feature].key !in reg {
        return Rejected("flag not available");
      }
      if !NeverStarted(row.history) { return Rejected("only a draft can be started"); }
      var error := AudienceError(reg, features[row.feature].key, groups, row.rule, perms);
      if error.Some? { return Rejected(error.value); }
      if Conflicts(rules, row.feature, row.rule.page) - {id} != {} { return Rejected("active rollout exists"); }
      if !LongReason(reason) { return Rejected("reason too short"); }
      if !Clean(reg, features[row.feature].key, row.rule) { return Rejected("invalid rule"); }
      rules := rules[id := row.(rule := row.rule.(enabled := true), history := row.history + [true])];
      r := Open(());
    }

    method Stop(id: nat, reason: string) returns (r: Gate<()>)
      modifies this`rules
      ensures r == StopDecision(reg, features, old(rules), id, reason)
      ensures rules == if r.Open? then Switch(old(rules), id, false) else old(rules)
    {
      hide Clean, LongReason;
      if id !in rules { return Rejected("no such rollout"); }
      var row := rules[id];
      if row.feature !in features || !features[row.feature].active || features[row.feature].key !in reg {
        return Rejected("archived or unknown flag");
      }
      if !row.rule.enabled { return Rejected("already stopped"); }
      if !LongReason(reason) { return Rejected("reason too short"); }
      if !Clean(reg, features[row.feature].key, row.rule) { return Rejected("invalid rule"); }
      rules := rules[id := row.(rule := row.rule.(enabled := false), history := row.history + [false])];
      r := Open(());
    }
  }

  lemma LeastIsFirst(id: nat, s: set<nat>)
    requires id in s && forall q | q in s :: id <= q
    ensures First(s) == Some(id) && Least(s) == id
  {
  }
}
