/** Which source decides a flag for a visitor, each source in plain terms, and what opens the gate to
    a guarded value. */
module FlagSources {
  import opened Prelude
  import opened Decimals
  import opened R = FlagRegistry
  import opened E = FlagEvaluation
  import opened FlagAudience

  // ---------------------------------------------------------------- the gate to a guarded value

  predicate UniqueSlugs(groups: map<nat, Group>) {
    forall p, q | p in groups && q in groups && groups[p].slug == groups[q].slug :: p == q
  }

  /** The visitor is signed in as a member of this group. */
  ghost predicate MemberOf(env: FlagEnv, c: Context, id: nat)
    requires id in env.groups
  {
    exists pk :: SignedInAs(c, pk) && pk in env.groups[id].members
  }

  predicate Writes(rule: Rule, id: nat) {
    exists g | g in rule.groupIds :: g.text == IntText(id)
  }

  /** An audience the policy lists; for everyone a public policy; for others, if a group is required, a
      group rule that names that group, and a visitor in it. */
  ghost predicate OpensGate(env: FlagEnv, policy: Policy, rule: Rule, c: Context) {
    && rule.ruleType in policy.audiences
    && (rule.ruleType == "everyone" ==> policy.allowPublic)
    && (rule.ruleType != "everyone" && policy.requiredGroup.Some? && policy.requiredGroup.value != "" ==>
          && rule.ruleType == "group"
          && exists id | id in env.groups && env.groups[id].slug == policy.requiredGroup.value ::
               MemberOf(env, c, id) && Writes(rule, id))
  }

  lemma GateExactly(env: FlagEnv, key: string, rule: Rule, c: Context)
    requires UniqueSlugs(env.groups) && key in env.reg
    ensures RuleMayGuard(env, key, rule, c) <==> OpensGate(env, PolicyOf(env.reg[key]), rule, c)
  {
    hide IntText;
    var policy := PolicyOf(env.reg[key]);
    if Truthy(policy.requiredGroup) {
      var slug := policy.requiredGroup.value;
      forall id | id in env.groups && env.groups[id].slug == slug
        ensures MemberOf(env, c, id) <==> UserId(c).Some? && id in GroupsWith(env.groups, slug, UserId(c).value)
      {
        if UserId(c).Some? { assert SignedInAs(c, UserId(c).value); }
      }
      var group := RequiredGroupId(env, key, c);
      if group.Some? {
        assert group.value in GroupsWith(env.groups, slug, UserId(c).value);
        assert MemberOf(env, c, group.value);
      }
    }
  }

  /** A flag whose only enabled rule stands for the guarded value gives it exactly to the visitors the rule
      matches and the gate lets through; everyone else gets the safe default. */
  lemma GuardedRuleExactly(env: FlagEnv, f: Feature, rule: Rule, a: Assignments, c: Context, v: FlagValue)
    requires UniqueSlugs(env.groups) && f.key in env.reg
    requires Quiet(f, a, c) && OnlyRule(f, rule) && StandsFor(env, f, rule, v) && IsGuarded(env, f.key, v)
    ensures Decided(env, f, rule, a, c, v,
                    OnPage(rule, c) && AudienceMatches(env, f.key, rule, c) && OpensGate(env, PolicyOf(env.reg[f.key]), rule, c))
  {
    GateExactly(env, f.key, rule, c);
    GuardedRuleSupplies(env, f, rule, c, v);
    hide AudienceMatches, Decided, SafeDefault, Quiet, Validated, RuleValue, IsGuarded, OpensGate, RuleMayGuard;
    OnlyRuleDecides(env, f, rule, a, c);
    DecidedFalse(env, f, rule, a, c, v, B(false));
  }

  lemma GuardedRuleSupplies(env: FlagEnv, f: Feature, rule: Rule, c: Context, v: FlagValue)
    requires rule.enabled && StandsFor(env, f, rule, v) && IsGuarded(env, f.key, v)
    ensures RuleValue(env, f, rule, c) ==
              if OnPage(rule, c) && AudienceMatches(env, f.key, rule, c) && RuleMayGuard(env, f.key, rule, c) then Some(v) else None
  {
    hide AudienceMatches, SafeDefault, Coerce, IsGuarded, RuleMayGuard;
  }

  // ---------------------------------------------------------------- values

  /** A text or boolean is a value of the flag if the registered kind accepts it: a boolean word for a
      boolean flag, one of the variants' texts otherwise. */
  predicate Accepts(spec: Spec, v: FlagValue) {
    if spec.kind == "boolean" then v.B? || Lower(Strip(v.s)) in {"1", "true", "yes", "on", "0", "false", "no", "off"}
    else exists w | w in spec.variants :: StrOf(w) == StrOf(v)
  }

  /** What the definition makes of it: a boolean, or its text. */
  function Read(kind: string, v: FlagValue): FlagValue {
    if kind != "boolean" then S(StrOf(v))
    else if v.B? then v
    else B(Lower(Strip(v.s)) in {"1", "true", "yes", "on"})
  }

  lemma ValidExactly(reg: Registry, key: string, v: FlagValue)
    ensures ValidValue(reg, key, v) <==> key in reg && Accepts(reg[key], v)
  {
    hide Strip, Lower;
  }

  lemma ValidatedExactly(env: FlagEnv, f: Feature, v: FlagValue)
    requires f.key in env.reg && f.kind == env.reg[f.key].kind
    ensures Validated(env, f, v) == if Accepts(env.reg[f.key], v) then Some(Read(f.kind, v)) else None
  {
    hide Strip, Lower;
  }

  /** The fallback of a definition: its policy's safe default if there is one, else the stored default if
      it is valid, else the registered default, and off for an unregistered flag. */
  lemma SafeDefaultExactly(env: FlagEnv, f: Feature)
    ensures f.key !in env.reg ==> SafeDefault(env, f) == B(false)
    ensures f.key in env.reg ==>
              var policy, stored := PolicyOf(env.reg[f.key]), Validated(env, f, S(f.defaultValue));
              && (policy.safeDefault.Some? ==> SafeDefault(env, f) == policy.safeDefault.value)
              && (policy.safeDefault.None? && stored.Some? ==> SafeDefault(env, f) == stored.value)
              && (policy.safeDefault.None? && stored.None? ==> SafeDefault(env, f) == DefaultValue(env.reg[f.key], env.settings))
  {
    hide Coerce;
  }

  // ---------------------------------------------------------------- overrides

  /** An enabled override meant for this visitor: by user id, by anonymous id if not signed in, or for all. */
  ghost predicate MeantFor(o: Override, scope: string, c: Context) {
    && o.enabled && o.scope == scope
    && (scope == "user" ==> exists pk :: SignedInAs(c, pk) && o.scopeValue == IntText(pk))
    && (scope == "anonymous" ==> (forall pk :: !SignedInAs(c, pk)) && Carries(c, o.scopeValue))
  }

  lemma AppliesExactly(o: Override, scope: string, c: Context)
    ensures OverrideApplies(o, scope, c) <==> MeantFor(o, scope, c)
  {
    hide IntText;
    if UserId(c).Some? { assert SignedInAs(c, UserId(c).value); }
  }

  ghost predicate NoneMeant(overrides: seq<Override>, scope: string, c: Context) {
    forall o | o in overrides :: !MeantFor(o, scope, c)
  }

  ghost predicate LastMeant(overrides: seq<Override>, scope: string, c: Context, text: string) {
    exists i :: 0 <= i < |overrides| && overrides[i].value == text && MeantFor(overrides[i], scope, c)
                && forall j | i < j < |overrides| :: !MeantFor(overrides[j], scope, c)
  }

  lemma LastOverrideExactly(overrides: seq<Override>, scope: string, c: Context, text: string)
    ensures LastOverride(overrides, scope, c) == Some(text) <==> LastMeant(overrides, scope, c, text)
    ensures LastOverride(overrides, scope, c) == None <==> NoneMeant(overrides, scope, c)
  {
    hide OverrideApplies, MeantFor, LastOverride;
    forall o ensures OverrideApplies(o, scope, c) <==> MeantFor(o, scope, c) { AppliesExactly(o, scope, c); }
    LastOverrideIsLast(overrides, scope, c);
    var r := LastOverride(overrides, scope, c);
    if r.Some? {
      var i: nat :| OverrideAt(overrides, scope, c, i) && r.value == overrides[i].value;
      assert overrides[i] in overrides;
      assert LastMeant(overrides, scope, c, r.value);
    }
    if LastMeant(overrides, scope, c, text) {
      var h :| 0 <= h < |overrides| && overrides[h].value == text && MeantFor(overrides[h], scope, c)
               && forall j | h < j < |overrides| :: !MeantFor(overrides[j], scope, c);
      assert r.Some?;
    }
  }

  /** The override in force: the last one meant for the user, else for the anonymous id, else for all. */
  lemma StoredOverrideExactly(overrides: seq<Override>, c: Context, text: string)
    ensures StoredOverride(overrides, c) == Some(text) <==>
              || LastMeant(overrides, "user", c, text)
              || (NoneMeant(overrides, "user", c) && LastMeant(overrides, "anonymous", c, text))
              || (NoneMeant(overrides, "user", c) && NoneMeant(overrides, "anonymous", c) && LastMeant(overrides, "global", c, text))
  {
    hide LastOverride, LastMeant, NoneMeant;
    LastOverrideExactly(overrides, "user", c, text);
    LastOverrideExactly(overrides, "anonymous", c, text);
    LastOverrideExactly(overrides, "global", c, text);
    var user, anonymous := LastOverride(overrides, "user", c), LastOverride(overrides, "anonymous", c);
    if user.Some? { LastOverrideExactly(overrides, "user", c, user.value); }
    if anonymous.Some? { LastOverrideExactly(overrides, "anonymous", c, anonymous.value); }
  }

  // ---------------------------------------------------------------- assignments

  /** The row that keeps this visitor's assignment on this page: the user's if signed in, else the anonymous id's. */
  ghost predicate KeptUnder(f: Feature, c: Context, key: AssignKey) {
    && key.feature == f.pk && key.page == c.page
    && if exists pk :: SignedInAs(c, pk) then key.subjectType == "user" && exists pk :: SignedInAs(c, pk) && key.subjectKey == IntText(pk)
       else key.subjectType == "anonymous" && Carries(c, key.subjectKey)
  }

  lemma SlotExactly(env: FlagEnv, f: Feature, c: Context, key: AssignKey)
    requires f.key in env.reg
    ensures Slot(env, f, c) == Some(key) <==> f.sticky && PolicyOf(env.reg[f.key]).allowSticky && KeptUnder(f, c, key)
  {
    hide IntText;
    if UserId(c).Some? { assert SignedInAs(c, UserId(c).value); }
  }

  // ---------------------------------------------------------------- the deciding source

  /** A preview counts for staff, if the policy allows previews and the value is valid. */
  predicate PreviewCounts(env: FlagEnv, f: Feature, c: Context, v: FlagValue)
    requires f.key in env.reg
  {
    && c.requestOverrides.Some? && f.key in c.requestOverrides.value
    && Validated(env, f, S(c.requestOverrides.value[f.key])) == Some(v)
    && Staff(c) && PolicyOf(env.reg[f.key]).allowStaffPreview
  }

  /** A stored override counts if its value is valid and not guarded. */
  predicate OverrideCounts(env: FlagEnv, f: Feature, c: Context, v: FlagValue) {
    var text := StoredOverride(f.overrides, c);
    text.Some? && Validated(env, f, S(text.value)) == Some(v) && !IsGuarded(env, f.key, v)
  }

  /** A stored assignment counts if the flag and its policy are sticky and its value is valid. */
  ghost predicate StickyCounts(env: FlagEnv, f: Feature, a: Assignments, c: Context, v: FlagValue)
    requires f.key in env.reg
  {
    && f.sticky && PolicyOf(env.reg[f.key]).allowSticky
    && exists key :: KeptUnder(f, c, key) && key in a && Validated(env, f, S(a[key])) == Some(v)
  }

  lemma PreviewExactly(env: FlagEnv, f: Feature, c: Context, v: FlagValue)
    requires f.key in env.reg
    ensures PreviewValue(env, f, c) == Some(v) <==> PreviewCounts(env, f, c, v)
  {
    hide ValidValue, Coerce, IsGuarded, RuleMayGuard;
  }

  lemma OverrideExactly(env: FlagEnv, f: Feature, c: Context, v: FlagValue)
    requires f.key in env.reg
    ensures OverrideValue(env, f, c) == Some(v) <==> OverrideCounts(env, f, c, v)
  {
    hide ValidValue, Coerce, IsGuarded, RuleMayGuard, StoredOverride;
  }

  lemma StickyExactly(env: FlagEnv, f: Feature, a: Assignments, c: Context, v: FlagValue)
    requires f.key in env.reg
    ensures StickyValue(env, f, a, c) == Some(v) <==> StickyCounts(env, f, a, c, v)
  {
    hide ValidValue, Coerce, IsGuarded, RuleMayGuard, Slot, KeptUnder;
    forall key ensures Slot(env, f, c) == Some(key) <==> f.sticky && PolicyOf(env.reg[f.key]).allowSticky && KeptUnder(f, c, key) {
      SlotExactly(env, f, c, key);
    }
  }

  ghost predicate SomeCounts(env: FlagEnv, f: Feature, a: Assignments, c: Context)
    requires f.key in env.reg
  {
    exists v :: PreviewCounts(env, f, c, v) || OverrideCounts(env, f, c, v) || StickyCounts(env, f, a, c, v)
  }

  /** Evaluation of a registered flag: the preview if it counts, else the stored override, else the
      assignment, and none of these stores anything; only when none of them counts does a rule decide. */
  lemma SourceExactly(env: FlagEnv, f: Feature, a: Assignments, c: Context, v: FlagValue)
    requires f.key in env.reg
    ensures var e := Evaluate(env, f, a, c);
            && (PreviewCounts(env, f, c, v) ==> e == Evaluation(v, Static, Preview, a))
            && ((forall w :: !PreviewCounts(env, f, c, w)) && OverrideCounts(env, f, c, v) ==> e == Evaluation(v, Static, DbOverride, a))
            && ((forall w :: !PreviewCounts(env, f, c, w) && !OverrideCounts(env, f, c, w)) && StickyCounts(env, f, a, c, v) ==>
                  e == Evaluation(v, Cached, StickyRow, a))
            && (SomeCounts(env, f, a, c) <==> !e.source.ByRule? && !e.source.Fallback?)
  {
    hide PreviewValue, OverrideValue, StickyValue, PreviewCounts, OverrideCounts, StickyCounts, FirstRule, SafeDefault, Slot;
    forall w
      ensures PreviewValue(env, f, c) == Some(w) <==> PreviewCounts(env, f, c, w)
      ensures OverrideValue(env, f, c) == Some(w) <==> OverrideCounts(env, f, c, w)
      ensures StickyValue(env, f, a, c) == Some(w) <==> StickyCounts(env, f, a, c, w)
    {
      PreviewExactly(env, f, c, w);
      OverrideExactly(env, f, c, w);
      StickyExactly(env, f, a, c, w);
    }
    var preview, stored, sticky := PreviewValue(env, f, c), OverrideValue(env, f, c), StickyValue(env, f, a, c);
    if preview.Some? { assert PreviewCounts(env, f, c, preview.value); }
    if stored.Some? { assert OverrideCounts(env, f, c, stored.value); }
    if sticky.Some? { assert StickyCounts(env, f, a, c, sticky.value); }
  }
}
