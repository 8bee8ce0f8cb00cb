/** What validation asks of a registry entry, written out, and what an entry without a policy may do. */
module FlagValidation {
  import opened Prelude
  import opened R = FlagRegistry

  /** Some value in the list has this token. */
  predicate HasToken(values: seq<FlagValue>, token: string) {
    exists v | v in values :: Canonical(v) == token
  }

  /** The default in force: the setting's value if the entry names a setting that has one. */
  function DefaultInForce(spec: Spec, settings: Settings): FlagValue {
    match spec.defaultEnv
    case Some(name) => if name != "" && name in settings then settings[name] else spec.fallback
    case None => spec.fallback
  }

  /** A policy that contradicts neither itself nor its entry. */
  predicate Coherent(spec: Spec, policy: Policy) {
    && policy.audiences != []
    && (forall a | a in policy.audiences :: a in {"group", "user_allowlist", "staff", "authenticated", "percentage", "everyone"})
    && (policy.allowPublic <==> "everyone" in policy.audiences)
    && (policy.requiredGroup.Some? && policy.requiredGroup.value != "" ==> "group" in policy.audiences)
    && (policy.labels != [] ==>
          && (forall v | v in spec.variants :: exists l | l in policy.labels :: Canonical(l.0) == Canonical(v))
          && (forall l | l in policy.labels :: HasToken(spec.variants, Canonical(l.0))))
  }

  /** A guarded value that nothing but the policy can give: a different safe default, which is the default in
      force and cannot be set from outside, both registered, and no stickiness the policy does not allow. */
  predicate SafelyDeclared(spec: Spec, policy: Policy, settings: Settings) {
    policy.guarded.Some? ==>
      && policy.safeDefault.Some?
      && HasToken(spec.variants, Canonical(policy.guarded.value)) && HasToken(spec.variants, Canonical(policy.safeDefault.value))
      && Canonical(policy.guarded.value) != Canonical(policy.safeDefault.value)
      && Canonical(DefaultInForce(spec, settings)) == Canonical(policy.safeDefault.value)
      && (spec.sticky ==> policy.allowSticky)
      && (spec.defaultEnv == None || spec.defaultEnv == Some(""))
  }

  lemma TokenExactly(values: seq<FlagValue>, token: string)
    ensures token in Tokens(values) <==> HasToken(values, token)
  {
    hide Canonical;
  }

  lemma LabelsExactly(labels: seq<(FlagValue, string)>, variants: seq<FlagValue>)
    ensures LabelTokens(labels) == Tokens(variants) <==>
              && (forall v | v in variants :: exists l | l in labels :: Canonical(l.0) == Canonical(v))
              && (forall l | l in labels :: HasToken(variants, Canonical(l.0)))
  {
    hide Canonical;
    if LabelTokens(labels) == Tokens(variants) {
      forall v | v in variants ensures exists l | l in labels :: Canonical(l.0) == Canonical(v) {
        assert Canonical(v) in Tokens(variants);
        assert Canonical(v) in LabelTokens(labels);
      }
      forall l | l in labels ensures HasToken(variants, Canonical(l.0)) {
        assert Canonical(l.0) in LabelTokens(labels);
        assert Canonical(l.0) in Tokens(variants);
      }
    }
  }

  lemma PolicyExactly(spec: Spec)
    ensures PolicyError(spec).None? <==> Coherent(spec, PolicyOf(spec))
  {
    hide Canonical, LabelTokens, Tokens, HasToken, PolicyOf;
    LabelsExactly(PolicyOf(spec).labels, spec.variants);
    GuidedExactly(PolicyOf(spec).audiences);
  }

  lemma GuidedExactly(audiences: seq<string>)
    ensures (exists a | a in audiences :: a !in GUIDED_AUDIENCES) <==>
              !(forall a | a in audiences :: a in {"group", "user_allowlist", "staff", "authenticated", "percentage", "everyone"})
  {
    var guided := {"group", "user_allowlist", "staff", "authenticated", "percentage", "everyone"};
    forall a ensures a in GUIDED_AUDIENCES <==> a in guided {
      assert GUIDED_AUDIENCES[0] == "group" && GUIDED_AUDIENCES[1] == "user_allowlist" && GUIDED_AUDIENCES[2] == "staff";
      assert GUIDED_AUDIENCES[3] == "authenticated" && GUIDED_AUDIENCES[4] == "percentage" && GUIDED_AUDIENCES[5] == "everyone";
    }
  }

  lemma GuardExactly(spec: Spec, settings: Settings)
    ensures GuardError(spec, settings).None? <==> SafelyDeclared(spec, PolicyOf(spec), settings)
  {
    hide Canonical, Tokens, HasToken, PolicyOf;
    var policy := PolicyOf(spec);
    if policy.guarded.Some? { TokenExactly(spec.variants, Canonical(policy.guarded.value)); }
    if policy.safeDefault.Some? { TokenExactly(spec.variants, Canonical(policy.safeDefault.value)); }
  }

  /** An entry is valid exactly if: its kind is known, its title, description and impact say something, its
      default in force is one of its variants, it has pages, its policy is coherent, a guarded value is safely
      declared, and a design policy comes with exactly the two design variants. */
  lemma EntryExactly(spec: Spec, settings: Settings)
    ensures EntryError(spec, settings).None? <==>
              && (spec.kind == "boolean" || spec.kind == "variant")
              && Strip(spec.title) != "" && Strip(spec.description) != "" && Strip(spec.visualImpact) != ""
              && DefaultInForce(spec, settings) in spec.variants && spec.pages != []
              && Coherent(spec, PolicyOf(spec)) && SafelyDeclared(spec, PolicyOf(spec), settings)
              && (PolicyOf(spec) == DesignPolicy() || PolicyOf(spec) == ContactPolicy() ==> spec.variants == [S("legacy"), S("v2")])
  {
    hide Strip, PolicyError, GuardError, Coherent, SafelyDeclared, DesignPolicy, ContactPolicy, PolicyOf;
    PolicyExactly(spec);
    GuardExactly(spec, settings);
  }

  /** An entry without a policy is open: every guided audience, no group, nothing guarded, previews, public and
      sticky answers allowed. */
  lemma NoPolicyIsOpen(spec: Spec)
    ensures spec.policy.Some? ==> PolicyOf(spec) == spec.policy.value
    ensures spec.policy.None? ==>
              var policy := PolicyOf(spec);
              && (forall a :: a in policy.audiences <==>
                    a in {"group", "user_allowlist", "staff", "authenticated", "percentage", "everyone"})
              && policy.requiredGroup.None? && policy.guarded.None? && policy.safeDefault.None? && policy.labels == []
              && policy.allowStaffPreview && policy.allowPublic && policy.allowSticky
  {
    forall a: string ensures a in GUIDED_AUDIENCES <==>
                             a in {"group", "user_allowlist", "staff", "authenticated", "percentage", "everyone"}
    {
      GuidedExactly([a]);
      assert a in [a];
    }
  }
}
