/** The evaluation service as it runs: assignments persisted in place, a per-context memo of the
    required groups, batches, and the OpenFeature provider path. */
module FlagService {
  import opened Prelude
  import opened R = FlagRegistry
  import opened E = FlagEvaluation
  import opened Decimals
  import opened FlagSticky

  // ---------------------------------------------------------------- batches and the provider

  /** Active definitions by key. */
  type Definitions = map<string, Feature>

  predicate Keyed(defs: Definitions) {
    && (forall k | k in defs :: defs[k].key == k)
    && (forall j, k | j in defs && k in defs :: defs[j].pk == defs[k].pk ==> j == k)
  }

  /** Every definition has the kind its registry entry declares. */
  predicate KindsMatch(env: FlagEnv, defs: Definitions) {
    forall k | k in defs :: k in env.reg && defs[k].kind == env.reg[k].kind
  }

  /** The kind `_get_default_features` gives a registered flag. */
  function DefaultKind(spec: Spec): string {
    if spec.kind == "variant" then "variant" else "boolean"
  }

  function RegistryDefault(env: FlagEnv, key: string): Option<FlagValue>
    requires key in env.reg
  {
    Coerce(DefaultKind(env.reg[key]), DefaultValue(env.reg[key], env.settings))
  }

  /** One flag on its own; None where the coercion of a registry default raises. */
  function ValueAlone(env: FlagEnv, defs: Definitions, a: Assignments, c: Context, key: string): Option<FlagValue> {
    if key in defs then Some(Evaluate(env, defs[key], a, c).value)
    else if key in env.reg then RegistryDefault(env, key)
    else Some(B(false))
  }

  function AfterAlone(env: FlagEnv, defs: Definitions, a: Assignments, c: Context, key: string): Assignments {
    if key in defs then Evaluate(env, defs[key], a, c).assignments else a
  }

  /** `evaluate_many` from position i on, extending what is resolved already. */
  function Batch(env: FlagEnv, defs: Definitions, a: Assignments, c: Context, keys: seq<string>,
                 resolved: map<string, FlagValue>): (Option<map<string, FlagValue>>, Assignments)
    decreases |keys|
  {
    if keys == [] then (Some(resolved), a)
    else
      var v := ValueAlone(env, defs, a, c, keys[0]);
      if v.None? then (None, a)
      else Batch(env, defs, AfterAlone(env, defs, a, c, keys[0]), c, keys[1..], resolved[keys[0] := v.value])
  }

  /** An OpenFeature context with the attributes this service reads. */
  datatype OfContext = OfContext(targetingKey: Option<string>, userId: Option<int>, anonymousId: Option<string>,
                                 page: Option<string>, isStaff: Option<bool>, identityKey: Option<string>,
                                 overrides: Option<map<string, string>>)

  function NonEmpty(s: string): Option<string> {
    if s == "" then None else Some(s)
  }

  function ToOpenFeature(c: Context): OfContext {
    OfContext(NonEmpty(IdentityKey(c)), UserId(c), c.anonymousId, Some(c.page), Some(IsStaff(c)),
              NonEmpty(IdentityKey(c)), Some(Previews(c)))
  }

  function FromOpenFeature(o: Option<OfContext>): Context {
    var attrs := if o.Some? then o.value else OfContext(None, None, None, None, None, None, None);
    var identity := if Truthy(attrs.targetingKey) then attrs.targetingKey.value
                    else if Truthy(attrs.identityKey) then attrs.identityKey.value else "";
    var anonymous := if attrs.anonymousId.None? && "anon:" <= identity then Some(identity[5..]) else attrs.anonymousId;
    Context(
      if attrs.userId.Some? then Some(User(attrs.userId.value, true, attrs.isStaff == Some(true))) else None,
      if Truthy(anonymous) then anonymous else None,
      if attrs.page.Some? then attrs.page.value else "",
      Some(if attrs.overrides.Some? then attrs.overrides.value else map[]))
  }

  datatype Details = Details(value: FlagValue, error: Option<string>)

  /** The provider's typed resolvers; kind is "boolean" or "variant", None a raised ValueError. */
  function Provide(env: FlagEnv, defs: Definitions, a: Assignments, key: string, kind: string, given: FlagValue,
                   o: Option<OfContext>): Option<Details>
  {
    if key in defs then
      if defs[key].kind != kind then Some(Details(given, Some("TYPE_MISMATCH")))
      else Some(Details(Evaluate(env, defs[key], a, FromOpenFeature(o)).value, None))
    else if key in env.reg then
      var fallback := RegistryDefault(env, key);
      if fallback.None? then None
      else if DefaultKind(env.reg[key]) != kind then Some(Details(given, Some("TYPE_MISMATCH")))
      else Some(Details(fallback.value, None))
    else Some(Details(given, Some("FLAG_NOT_FOUND")))
  }

  // ---------------------------------------------------------------- the service

  /** A request's evaluation context with its memo of required groups. */
  class EvaluationContext {
    const context: Context
    var memo: map<string, Option<nat>>

    constructor (context: Context)
      ensures this.context == context && memo == map[]
    {
      this.context := context;
      memo := map[];
    }

    /** The memo holds what the query would answer. */
    ghost predicate MemoIsFresh(env: FlagEnv)
      reads this
    {
      forall slug | slug in memo ::
        UserId(context).Some? && memo[slug] == First(GroupsWith(env.groups, slug, UserId(context).value))
    }

    method RequiredGroup(env: FlagEnv, key: string) returns (group: Option<nat>)
      requires key in env.reg && MemoIsFresh(env)
      modifies this`memo
      ensures MemoIsFresh(env) && group == RequiredGroupId(env, key, context)
    {
      var slug := PolicyOf(env.reg[key]).requiredGroup;
      var user := UserId(context);
      if !Truthy(slug) || user.None? { return None; }
      if slug.value !in memo {
        memo := memo[slug.value := First(GroupsWith(env.groups, slug.value, user.value))];
      }
      group := memo[slug.value];
    }
  }

  class FlagService {
    var assignments: Assignments

    constructor (assignments: Assignments)
      ensures this.assignments == assignments
    {
      this.assignments := assignments;
    }

    method PolicyValueAllowed(env: FlagEnv, f: Feature, v: FlagValue, c: EvaluationContext, source: Source)
      returns (allowed: bool)
      requires c.MemoIsFresh(env)
      modifies c`memo
      ensures c.MemoIsFresh(env) && allowed == PolicyAllows(env, f, v, c.context, source)
    {
      if f.key !in env.reg { return false; }
      var policy := PolicyOf(env.reg[f.key]);
      if source.Preview? { return IsStaff(c.context) && policy.allowStaffPreview; }
      if policy.guarded.None? || Canonical(v) != Canonical(policy.guarded.value) { return true; }
      if source.StickyRow? { return policy.allowSticky; }
      if !source.ByRule? { return false; }
      var rule := source.rule;
      if rule.ruleType !in policy.audiences { return false; }
      if rule.ruleType == "everyone" { return policy.allowPublic; }
      if !Truthy(policy.requiredGroup) { return true; }
      if rule.ruleType != "group" { return false; }
      var group := c.RequiredGroup(env, f.key);
      if group.None? { return false; }
      allowed := exists g | g in rule.groupIds :: g.text == IntText(group.value);
    }

    /** `_db_override`: one pass over the overrides, the last of each scope kept. */
    method DbOverrideFor(f: Feature, c: Context) returns (value: Option<string>)
      ensures value == StoredOverride(f.overrides, c)
    {
      var matches: map<string, string> := map[];
      var i := 0;
      while i < |f.overrides|
        invariant 0 <= i <= |f.overrides|
        invariant forall scope | scope in {"user", "anonymous", "global"} ::
                    LastOverride(f.overrides[..i], scope, c) == if scope in matches then Some(matches[scope]) else None
      {
        var o := f.overrides[i];
        assert f.overrides[..i + 1][..i] == f.overrides[..i];
        if o.enabled {
          if o.scope == "global" {
            matches := matches["global" := o.value];
          } else if o.scope == "user" && UserId(c).Some? && o.scopeValue == IntText(UserId(c).value) {
            matches := matches["user" := o.value];
          } else if o.scope == "anonymous" && UserId(c).None? && AnonymousId(c) != "" && o.scopeValue == AnonymousId(c) {
            matches := matches["anonymous" := o.value];
          }
        }
        i := i + 1;
      }
      assert f.overrides[..i] == f.overrides;
      if "user" in matches { return Some(matches["user"]); }
      if "anonymous" in matches { return Some(matches["anonymous"]); }
      value := if "global" in matches then Some(matches["global"]) else None;
    }

    /** A candidate against validation and the policy gate. */
    method Admit(env: FlagEnv, f: Feature, c: EvaluationContext, candidate: Option<FlagValue>, source: Source)
      returns (value: Option<FlagValue>)
      requires c.MemoIsFresh(env)
      modifies c`memo
      ensures c.MemoIsFresh(env) && value == Admitted(env, f, c.context, candidate, source)
    {
      if candidate.None? { return None; }
      value := Validated(env, f, candidate.value);
      if value.Some? {
        var allowed := PolicyValueAllowed(env, f, value.value, c, source);
        if !allowed { value := None; }
      }
    }

    /** The rule loop; the answer it stores is the first one admitted. */
    method ApplyRules(env: FlagEnv, f: Feature, c: EvaluationContext) returns (chosen: Option<(Rule, FlagValue)>)
      requires c.MemoIsFresh(env)
      modifies this, c`memo
      ensures c.MemoIsFresh(env) && chosen == FirstRule(env, f, f.rules, c.context)
      ensures assignments == if chosen.None? then old(assignments)
                             else Persist(env, f, old(assignments), c.context, StrOf(chosen.value.1))
    {
      hide RuleMatches, RuleResult, Admitted;
      var i := 0;
      while i < |f.rules|
        invariant 0 <= i <= |f.rules| && c.MemoIsFresh(env)
        invariant FirstRule(env, f, f.rules, c.context) == FirstRule(env, f, f.rules[i..], c.context)
        invariant assignments == old(assignments)
      {
        var rule := f.rules[i];
        assert f.rules[i..][1..] == f.rules[i + 1..];
        if RuleMatches(env, f.key, rule, c.context) {
          var value := Admit(env, f, c, Some(RuleResult(env, f, rule)), ByRule(rule));
          if value.Some? {
            assignments := Persist(env, f, assignments, c.context, StrOf(value.value));
            return Some((rule, value.value));
          }
        }
        i := i + 1;
      }
      chosen := None;
    }

    method EvaluateDefinition(env: FlagEnv, f: Feature, c: EvaluationContext)
      returns (value: FlagValue, reason: Reason, source: Source)
      requires c.MemoIsFresh(env)
      modifies this, c`memo
      ensures c.MemoIsFresh(env)
      ensures Evaluation(value, reason, source, assignments) == Evaluate(env, f, old(assignments), c.context)
    {
      hide Admitted, StoredOverride, FirstRule, SafeDefault, Persist;
      var previews := Previews(c.context);
      if f.key in previews {
        var preview := Admit(env, f, c, Some(S(previews[f.key])), Preview);
        if preview.Some? { return preview.value, Static, Preview; }
      } else {
        assert PreviewValue(env, f, c.context) == Admitted(env, f, c.context, None, Preview);
        NothingAdmitted(env, f, c.context, Preview);
      }
      var closest := DbOverrideFor(f, c.context);
      var stored := Admit(env, f, c, AsValue(closest), DbOverride);
      if stored.Some? { return stored.value, Static, DbOverride; }
      var sticky := Admit(env, f, c, AsValue(Assigned(env, f, assignments, c.context)), StickyRow);
      if sticky.Some? { return sticky.value, Cached, StickyRow; }
      var chosen := ApplyRules(env, f, c);
      if chosen.Some? { return chosen.value.1, TargetingMatch, ByRule(chosen.value.0); }
      return SafeDefault(env, f), DefaultReason, Fallback;
    }

    /** `evaluate_many`, with one memo for the whole batch. */
    method EvaluateMany(env: FlagEnv, defs: Definitions, c: EvaluationContext, keys: seq<string>)
      returns (resolved: Option<map<string, FlagValue>>)
      requires c.MemoIsFresh(env)
      modifies this, c`memo
      ensures c.MemoIsFresh(env)
      ensures (resolved, assignments) == Batch(env, defs, old(assignments), c.context, keys, map[])
    {
      hide Evaluate, RegistryDefault;
      var found: map<string, FlagValue> := map[];
      var i := 0;
      while i < |keys|
        invariant 0 <= i <= |keys| && c.MemoIsFresh(env)
        invariant Batch(env, defs, assignments, c.context, keys[i..], found)
                  == Batch(env, defs, old(assignments), c.context, keys, map[])
      {
        var key := keys[i];
        assert keys[i..][1..] == keys[i + 1..];
        if key in defs {
          var value, reason, source := EvaluateDefinition(env, defs[key], c);
          found := found[key := value];
        } else if key in env.reg {
          var value := RegistryDefault(env, key);
          if value.None? { return None; }
          found := found[key := value.value];
        } else {
          found := found[key := B(false)];
        }
        i := i + 1;
      }
      resolved := Some(found);
    }
  }

  lemma NothingAdmitted(env: FlagEnv, f: Feature, c: Context, source: Source)
    ensures Admitted(env, f, c, None, source) == None
  {
  }
}
