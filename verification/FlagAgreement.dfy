/** The three ways to evaluate flags agree: alone, in a batch with a shared memo, and through
    the OpenFeature provider. */
module FlagAgreement {
  import opened Prelude
  import opened R = FlagRegistry
  import opened E = FlagEvaluation
  import opened Decimals
  import opened FlagSticky
  import opened FlagService

  // ---------------------------------------------------------------- batches

  /** Two assignment tables hold the same rows of one definition. */
  ghost predicate SameRows(a: Assignments, b: Assignments, pk: nat) {
    forall k: AssignKey | k.feature == pk :: (k in a <==> k in b) && (k in a ==> a[k] == b[k])
  }

  lemma SeesOwnRows(env: FlagEnv, f: Feature, a: Assignments, b: Assignments, c: Context)
    requires SameRows(a, b, f.pk)
    ensures Evaluate(env, f, a, c).value == Evaluate(env, f, b, c).value
    ensures SameRows(Evaluate(env, f, a, c).assignments, Evaluate(env, f, b, c).assignments, f.pk)
  {
    hide PreviewValue, OverrideValue, FirstRule, Admitted;
    assert Assigned(env, f, a, c) == Assigned(env, f, b, c);
  }

  lemma WritesOwnRows(env: FlagEnv, f: Feature, a: Assignments, c: Context, pk: nat)
    requires pk != f.pk
    ensures SameRows(a, Evaluate(env, f, a, c).assignments, pk)
  {
    hide PreviewValue, OverrideValue, FirstRule, StickyValue;
  }

  /** Evaluating twice is evaluating once. */
  lemma TwiceIsOnce(env: FlagEnv, f: Feature, a: Assignments, c: Context)
    requires f.key in env.reg && f.kind == env.reg[f.key].kind
    ensures var e := Evaluate(env, f, a, c);
            var again := Evaluate(env, f, e.assignments, c);
            again.value == e.value && again.assignments == e.assignments
  {
    hide PreviewValue, OverrideValue, FirstRule, StickyValue;
    var e := Evaluate(env, f, a, c);
    if e.source.ByRule? && Slot(env, f, c).Some? {
      RuleAnswerIsHeld(env, f, a, c);
      HeldAnswers(env, f, e.assignments, c, Slot(env, f, c).value, e.value);
    }
  }

  /** Part of the way through a batch, each definition's rows are as they were or as its own
      evaluation leaves them. */
  ghost predicate Underway(env: FlagEnv, defs: Definitions, first: Assignments, a: Assignments, c: Context) {
    forall k | k in defs ::
      SameRows(first, a, defs[k].pk) || SameRows(Evaluate(env, defs[k], first, c).assignments, a, defs[k].pk)
  }

  lemma UnderwaySees(env: FlagEnv, defs: Definitions, first: Assignments, a: Assignments, c: Context, key: string)
    requires KindsMatch(env, defs) && Keyed(defs) && Underway(env, defs, first, a, c)
    ensures ValueAlone(env, defs, a, c, key) == ValueAlone(env, defs, first, c, key)
    ensures Underway(env, defs, first, AfterAlone(env, defs, a, c, key), c)
  {
    hide Evaluate, SameRows, RegistryDefault;
    if key in defs {
      var f := defs[key];
      var once := Evaluate(env, f, first, c).assignments;
      if SameRows(first, a, f.pk) {
        SeesOwnRows(env, f, first, a, c);
      } else {
        SeesOwnRows(env, f, once, a, c);
        TwiceIsOnce(env, f, first, c);
      }
      forall k | k in defs
        ensures var b := AfterAlone(env, defs, a, c, key);
                SameRows(first, b, defs[k].pk) || SameRows(Evaluate(env, defs[k], first, c).assignments, b, defs[k].pk)
      {
        if k != key {
          WritesOwnRows(env, f, a, c, defs[k].pk);
          RowsCompose(first, a, AfterAlone(env, defs, a, c, key), defs[k].pk);
          RowsCompose(Evaluate(env, defs[k], first, c).assignments, a, AfterAlone(env, defs, a, c, key), defs[k].pk);
        }
      }
    }
  }

  lemma RowsCompose(a: Assignments, b: Assignments, d: Assignments, pk: nat)
    ensures SameRows(a, b, pk) && SameRows(b, d, pk) ==> SameRows(a, d, pk)
  {
  }

  lemma {:induction false} BatchFrom(env: FlagEnv, defs: Definitions, first: Assignments, a: Assignments, c: Context,
                                     keys: seq<string>, resolved: map<string, FlagValue>)
    requires KindsMatch(env, defs) && Keyed(defs) && Underway(env, defs, first, a, c)
    ensures var r := Batch(env, defs, a, c, keys, resolved).0;
            && (r.Some? <==> forall k | k in keys :: ValueAlone(env, defs, first, c, k).Some?)
            && (r.Some? ==> forall k :: k in r.value <==> k in keys || k in resolved)
            && (r.Some? ==> forall k | k in r.value ::
                  if k in keys then Some(r.value[k]) == ValueAlone(env, defs, first, c, k) else r.value[k] == resolved[k])
    decreases |keys|
  {
    hide ValueAlone, AfterAlone, Underway, KindsMatch, Keyed;
    if keys != [] {
      UnderwaySees(env, defs, first, a, c, keys[0]);
      var v := ValueAlone(env, defs, first, c, keys[0]);
      assert keys[0] in keys;
      assert forall k :: k in keys <==> k == keys[0] || k in keys[1..];
      if v.Some? {
        BatchFrom(env, defs, first, AfterAlone(env, defs, a, c, keys[0]), c, keys[1..], resolved[keys[0] := v.value]);
      }
    }
  }

  /** A batch answers each of its keys exactly as evaluating that key alone does, repeated keys and
      assignments stored along the way notwithstanding; it fails only if some key alone does. */
  lemma BatchIsAlone(env: FlagEnv, defs: Definitions, a: Assignments, c: Context, keys: seq<string>)
    requires KindsMatch(env, defs) && Keyed(defs)
    ensures var r := Batch(env, defs, a, c, keys, map[]).0;
            && (r.Some? <==> forall k | k in keys :: ValueAlone(env, defs, a, c, k).Some?)
            && (r.Some? ==> forall k :: k in r.value <==> k in keys)
            && (r.Some? ==> forall k | k in keys :: Some(r.value[k]) == ValueAlone(env, defs, a, c, k))
  {
    hide Batch, ValueAlone;
    BatchFrom(env, defs, a, a, c, keys, map[]);
  }

  // ---------------------------------------------------------------- the provider

  /** Two contexts no rule can tell apart. */
  predicate SameView(c: Context, d: Context) {
    && UserId(c) == UserId(d) && IsStaff(c) == IsStaff(d) && AnonymousId(c) == AnonymousId(d)
    && c.page == d.page && Previews(c) == Previews(d)
  }

  /** Nothing evaluation looks at is lost in an OpenFeature context. */
  lemma RoundTripKeepsView(c: Context)
    ensures SameView(FromOpenFeature(Some(ToOpenFeature(c))), c)
  {
    hide IntText;
    var identity := IdentityKey(c);
    if UserId(c).Some? {
      assert identity[0] == 'u';
      assert !("anon:" <= identity) by { assert "anon:"[0] == 'a'; }
    }
  }

  lemma {:induction false} SameOverrides(overrides: seq<Override>, scope: string, c: Context, d: Context)
    requires SameView(c, d)
    ensures LastOverride(overrides, scope, c) == LastOverride(overrides, scope, d)
    decreases |overrides|
  {
    hide IntText;
    if overrides != [] {
      SameOverrides(overrides[..|overrides| - 1], scope, c, d);
    }
  }

  lemma SameGate(env: FlagEnv, f: Feature, candidate: Option<FlagValue>, source: Source, c: Context, d: Context)
    requires SameView(c, d)
    ensures Admitted(env, f, c, candidate, source) == Admitted(env, f, d, candidate, source)
  {
    hide Validated, IsGuarded, IntText;
  }

  lemma SameMatch(env: FlagEnv, f: Feature, rule: Rule, c: Context, d: Context)
    requires SameView(c, d)
    ensures RuleValue(env, f, rule, c) == RuleValue(env, f, rule, d)
  {
    hide Admitted, RuleResult, IntText, GroupIds, InSomeGroup, BucketPercent, Clamp;
    SameGate(env, f, Some(RuleResult(env, f, rule)), ByRule(rule), c, d);
  }

  lemma {:induction false} SameFirstRule(env: FlagEnv, f: Feature, rules: seq<Rule>, c: Context, d: Context)
    requires SameView(c, d)
    ensures FirstRule(env, f, rules, c) == FirstRule(env, f, rules, d)
  {
    hide RuleValue, SameView;
    if rules != [] {
      SameMatch(env, f, rules[0], c, d);
      SameFirstRule(env, f, rules[1..], c, d);
    }
  }

  lemma SameViewSameAnswer(env: FlagEnv, f: Feature, a: Assignments, c: Context, d: Context)
    requires SameView(c, d)
    ensures Evaluate(env, f, a, c) == Evaluate(env, f, a, d)
  {
    hide Admitted, FirstRule, LastOverride, IntText, SafeDefault;
    SameOverrides(f.overrides, "user", c, d);
    SameOverrides(f.overrides, "anonymous", c, d);
    SameOverrides(f.overrides, "global", c, d);
    SameFirstRule(env, f, f.rules, c, d);
    SameGate(env, f, if f.key in Previews(c) then Some(S(Previews(c)[f.key])) else None, Preview, c, d);
    SameGate(env, f, AsValue(StoredOverride(f.overrides, c)), DbOverride, c, d);
    SameGate(env, f, AsValue(Assigned(env, f, a, c)), StickyRow, c, d);
  }

  /** Any OpenFeature context, the service's own or another's: signed in exactly if it has a user id, staff only
      then; anonymous under its anonymous id, or, if it has none, under an identity that spells one. */
  predicate SpelledBy(o: OfContext, id: string) {
    && id != ""
    && if o.anonymousId.Some? then o.anonymousId == Some(id)
       else if o.targetingKey.Some? && o.targetingKey.value != "" then o.targetingKey.value == "anon:" + id
       else o.identityKey == Some("anon:" + id)
  }

  lemma ForeignContextExactly(o: OfContext)
    ensures var c := FromOpenFeature(Some(o));
            && UserId(c) == o.userId && (IsStaff(c) <==> o.userId.Some? && o.isStaff == Some(true))
            && (forall id | id != "" :: AnonymousId(c) == id <==> SpelledBy(o, id))
            && c.page == (if o.page.Some? then o.page.value else "")
            && Previews(c) == (if o.overrides.Some? then o.overrides.value else map[])
  {
    var identity := if Truthy(o.targetingKey) then o.targetingKey.value else if Truthy(o.identityKey) then o.identityKey.value else "";
    if "anon:" <= identity { assert identity == "anon:" + identity[5..]; }
    forall id | identity == "anon:" + id ensures "anon:" <= identity && identity[5..] == id { }
  }

  /** A flag on its own: its evaluation if it is defined, else its registered default as the registered kind
      reads it, else off. */
  lemma AloneExactly(env: FlagEnv, defs: Definitions, a: Assignments, c: Context, key: string)
    ensures var v := ValueAlone(env, defs, a, c, key);
            && (key in defs ==> v == Some(Evaluate(env, defs[key], a, c).value)
                                && AfterAlone(env, defs, a, c, key) == Evaluate(env, defs[key], a, c).assignments)
            && (key !in defs && key !in env.reg ==> v == Some(B(false)))
            && (key !in defs ==> AfterAlone(env, defs, a, c, key) == a)
            && (key !in defs && key in env.reg ==>
                  var spec := env.reg[key];
                  var default := DefaultValue(spec, env.settings);
                  v == if spec.kind == "variant" then Some(S(StrOf(default)))
                       else if default.B? then Some(default)
                       else if Spelled(default.s).Some? then Some(B(Spelled(default.s).value)) else None)
  {
    hide Evaluate;
  }

  /** The kind the provider's resolver must be asked for: the definition's, or the registry's. */
  function ResolverKind(env: FlagEnv, defs: Definitions, key: string): string
    requires key in defs || key in env.reg
  {
    if key in defs then defs[key].kind else DefaultKind(env.reg[key])
  }

  /** The provider, asked for a known flag by its kind with the visitor's own context, gives the
      value direct evaluation gives; asked for the other kind, it hands back the caller's default. */
  lemma ProviderIsDirect(env: FlagEnv, defs: Definitions, a: Assignments, c: Context, key: string, kind: string,
                         given: FlagValue)
    requires key in defs || key in env.reg
    ensures var details := Provide(env, defs, a, key, kind, given, Some(ToOpenFeature(c)));
            var alone := ValueAlone(env, defs, a, c, key);
            && (details.Some? <==> alone.Some?)
            && (details.Some? && kind == ResolverKind(env, defs, key) ==> details.value == Details(alone.value, None))
            && (details.Some? && kind != ResolverKind(env, defs, key) ==> details.value == Details(given, Some("TYPE_MISMATCH")))
  {
    hide Evaluate, RegistryDefault, ToOpenFeature, FromOpenFeature, SameView;
    RoundTripKeepsView(c);
    if key in defs { SameViewSameAnswer(env, defs[key], a, FromOpenFeature(Some(ToOpenFeature(c))), c); }
  }
}
