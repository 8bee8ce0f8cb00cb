/** The code-first registry of feature flags: values, rollout policies and their validation. */
module FlagRegistry {
  import opened Prelude

  // ---------------------------------------------------------------- values

  /** A flag value: a boolean or a variant name. */
  datatype FlagValue = B(b: bool) | S(s: string)

  /** `str(value)`. */
  function StrOf(v: FlagValue): string {
    match v
    case B(true) => "True"
    case B(false) => "False"
    case S(s) => s
  }

  predicate IsSpace(c: char) {
    c == ' ' || '\t' <= c <= '\r' || (28 as char) <= c <= (31 as char)
  }

  lemma SpacesExactly(c: char)
    ensures IsSpace(c) <==> c as int in {9, 10, 11, 12, 13, 28, 29, 30, 31, 32}
  {
  }

  function StripLeft(s: string): (r: string)
    ensures |r| <= |s| && r == s[|s| - |r|..]
    ensures r != "" ==> !IsSpace(r[0])
  {
    if s != "" && IsSpace(s[0]) then StripLeft(s[1..]) else s
  }

  function StripRight(s: string): (r: string)
    ensures |r| <= |s| && r == s[..|r|]
    ensures r != "" ==> !IsSpace(r[|r| - 1])
  {
    if s != "" && IsSpace(s[|s| - 1]) then StripRight(s[..|s| - 1]) else s
  }

  /** `s.strip()`, over ASCII white space. */
  function Strip(s: string): (r: string)
    ensures r != "" ==> !IsSpace(r[0]) && !IsSpace(r[|r| - 1])
  {
    StripRight(StripLeft(s))
  }

  function LowerChar(c: char): char {
    if 'A' <= c <= 'Z' then (c as int + 32) as char else c
  }

  /** `s.lower()`, over ASCII letters. */
  function Lower(s: string): (r: string)
    ensures |r| == |s|
  {
    seq(|s|, i requires 0 <= i < |s| => LowerChar(s[i]))
  }

  lemma StripStripped(s: string)
    requires s != "" ==> !IsSpace(s[0]) && !IsSpace(s[|s| - 1])
    ensures Strip(s) == s
  {
  }

  lemma StripIdempotent(s: string)
    ensures Strip(Strip(s)) == Strip(s)
  {
    StripStripped(Strip(s));
  }

  const TRUE_WORDS := {"true", "1", "yes", "on"}
  const FALSE_WORDS := {"false", "0", "no", "off"}

  /** The boolean a text spells, if any. */
  function Spelled(s: string): Option<bool> {
    var word := Lower(Strip(s));
    if word in TRUE_WORDS then Some(true) else if word in FALSE_WORDS then Some(false) else None
  }

  /** `canonical_variant_token`. */
  function Canonical(v: FlagValue): string {
    match v
    case B(b) => if b then "true" else "false"
    case S(s) =>
      var word := Spelled(s);
      if word == Some(true) then "true" else if word == Some(false) then "false" else Strip(s)
  }

  /** The boolean a trimmed word spells once lower-cased. */
  lemma SpelledWord(s: string, word: string)
    requires s != "" && !IsSpace(s[0]) && !IsSpace(s[|s| - 1]) && Lower(s) == word
    ensures Spelled(s) == if word in TRUE_WORDS then Some(true) else if word in FALSE_WORDS then Some(false) else None
  {
    StripStripped(s);
  }

  lemma LowerTrue()
    ensures Lower("True") == "true" && Lower("true") == "true"
  {
  }

  lemma LowerFalse()
    ensures Lower("False") == "false" && Lower("false") == "false"
  {
  }

  lemma SpelledGround()
    ensures Spelled("True") == Some(true) && Spelled("False") == Some(false)
    ensures Spelled("true") == Some(true) && Spelled("false") == Some(false)
  {
    hide Lower, Spelled;
    LowerTrue();
    LowerFalse();
    SpelledWord("True", "true");
    SpelledWord("true", "true");
    SpelledWord("False", "false");
    SpelledWord("false", "false");
  }

  lemma SpelledOfStrip(s: string)
    ensures Spelled(Strip(s)) == Spelled(s)
  {
    hide Strip, Lower;
    StripIdempotent(s);
  }

  /** A canonical token is its own token, and the token of a value's stored text is the value's. */
  lemma CanonicalIsStable(v: FlagValue)
    ensures Canonical(S(Canonical(v))) == Canonical(v)
    ensures Canonical(S(StrOf(v))) == Canonical(v)
  {
    hide Spelled, Strip;
    SpelledGround();
    if v.S? {
      StripIdempotent(v.s);
      SpelledOfStrip(v.s);
    }
  }

  // ---------------------------------------------------------------- registry entries

  const GUIDED_AUDIENCES: seq<string> := ["group", "user_allowlist", "staff", "authenticated", "percentage", "everyone"]

  datatype Policy = Policy(
    audiences: seq<string>,
    requiredGroup: Option<string>,
    guarded: Option<FlagValue>,
    safeDefault: Option<FlagValue>,
    allowStaffPreview: bool,
    allowPublic: bool,
    allowSticky: bool,
    labels: seq<(FlagValue, string)>)

  datatype Spec = Spec(
    kind: string,
    title: string,
    description: string,
    visualImpact: string,
    defaultEnv: Option<string>,
    fallback: FlagValue,
    variants: seq<FlagValue>,
    pages: seq<string>,
    sticky: bool,
    policy: Option<Policy>)

  type Registry = map<string, Spec>

  /** Django settings consulted for defaults; an absent or None setting is not in the map. */
  type Settings = map<string, FlagValue>

  function DefaultPolicy(): Policy {
    Policy(GUIDED_AUDIENCES, None, None, None, true, true, true, [])
  }

  function PolicyOf(spec: Spec): Policy {
    if spec.policy.Some? then spec.policy.value else DefaultPolicy()
  }

  /** A text that is not None and not empty. */
  predicate Truthy(o: Option<string>) {
    o.Some? && o.value != ""
  }

  /** `get_default_value` of a registered flag. */
  function DefaultValue(spec: Spec, settings: Settings): FlagValue {
    if Truthy(spec.defaultEnv) && spec.defaultEnv.value in settings then settings[spec.defaultEnv.value] else spec.fallback
  }

  function Tokens(values: seq<FlagValue>): set<string> {
    set v | v in values :: Canonical(v)
  }

  function Texts(values: seq<FlagValue>): set<string> {
    set v | v in values :: StrOf(v)
  }

  function LabelTokens(labels: seq<(FlagValue, string)>): set<string> {
    set l | l in labels :: Canonical(l.0)
  }

  /** `is_valid_override_value`. */
  predicate ValidValue(reg: Registry, key: string, v: FlagValue) {
    key in reg &&
    if reg[key].kind == "boolean" then v.B? || Spelled(v.s).Some?
    else StrOf(v) in Texts(reg[key].variants)
  }

  // ---------------------------------------------------------------- validation

  function GuardError(spec: Spec, settings: Settings): Option<string> {
    var policy := PolicyOf(spec);
    if policy.guarded.None? then None
    else if policy.safeDefault.None?
      || Canonical(policy.guarded.value) !in Tokens(spec.variants)
      || Canonical(policy.safeDefault.value) !in Tokens(spec.variants)
      || Canonical(policy.guarded.value) == Canonical(policy.safeDefault.value)
    then Some("guarded rollout values are inconsistent")
    else if Canonical(DefaultValue(spec, settings)) != Canonical(policy.safeDefault.value)
      || (spec.sticky && !policy.allowSticky)
      || Truthy(spec.defaultEnv)
    then Some("guarded rollout default can drift unsafe")
    else None
  }

  function PolicyError(spec: Spec): Option<string> {
    var policy := PolicyOf(spec);
    if policy.audiences == [] || exists a | a in policy.audiences :: a !in GUIDED_AUDIENCES
    then Some("rollout policy contains unsupported audiences")
    else if policy.allowPublic != ("everyone" in policy.audiences)
    then Some("public rollout policy contradicts audiences")
    else if Truthy(policy.requiredGroup) && "group" !in policy.audiences
    then Some("required group audience is not allowed")
    else if policy.labels != [] && LabelTokens(policy.labels) != Tokens(spec.variants)
    then Some("policy labels must cover every variant")
    else None
  }

  /** What `validate_registry` raises for one entry, in its order of checks. */
  function EntryError(spec: Spec, settings: Settings): Option<string> {
    if spec.kind !in {"boolean", "variant"} then Some("unsupported feature kind")
    else if Strip(spec.title) == "" then Some("operator title is required")
    else if Strip(spec.description) == "" then Some("operator description is required")
    else if Strip(spec.visualImpact) == "" then Some("operator visual_impact is required")
    else if DefaultValue(spec, settings) !in spec.variants then Some("default is not a valid variant")
    else if spec.pages == [] then Some("pages must not be empty")
    else if PolicyError(spec).Some? then PolicyError(spec)
    else if GuardError(spec, settings).Some? then GuardError(spec, settings)
    else if PolicyOf(spec) in {DesignPolicy(), ContactPolicy()} && spec.variants != [S("legacy"), S("v2")]
    then Some("design rollout variants must be legacy and v2")
    else None
  }

  predicate ValidRegistry(reg: Registry, settings: Settings) {
    forall key | key in reg :: EntryError(reg[key], settings).None?
  }

  function DesignPolicy(): Policy {
    Policy(["group"], Some("website-design-testers"), Some(S("v2")), Some(S("legacy")), true, false, false,
           [(S("legacy"), "Current version (legacy)"), (S("v2"), "New version (v2)")])
  }

  function ContactPolicy(): Policy {
    DesignPolicy().(audiences := ["group", "everyone"], allowPublic := true)
  }

  /** What validation buys the evaluator: the fallback of a guarded flag is never its guarded value. */
  lemma ValidGuard(reg: Registry, settings: Settings, key: string)
    requires ValidRegistry(reg, settings) && key in reg && PolicyOf(reg[key]).guarded.Some?
    ensures var policy := PolicyOf(reg[key]);
            && policy.safeDefault.Some?
            && Canonical(policy.safeDefault.value) != Canonical(policy.guarded.value)
            && Canonical(DefaultValue(reg[key], settings)) == Canonical(policy.safeDefault.value)
  {
    hide Canonical, Tokens, Strip, PolicyError, DefaultValue, DesignPolicy, ContactPolicy;
    assert EntryError(reg[key], settings).None?;
  }

  lemma VariantTokens()
    ensures Canonical(S("legacy")) == "legacy" && Canonical(S("v2")) == "v2"
  {
    assert Lower("legacy") == "legacy" && Lower("v2") == "v2";
    hide Lower, Spelled, Strip;
    SpelledWord("legacy", "legacy");
    SpelledWord("v2", "v2");
    StripStripped("legacy");
    StripStripped("v2");
  }

  /** A page-version entry under one of the two design policies, as the registry declares them. */
  function PageVersion(title: string, description: string, impact: string, page: string, policy: Policy): Spec {
    Spec("variant", title, description, impact, None, S("legacy"), [S("legacy"), S("v2")], [page], false, Some(policy))
  }

  /** Such entries pass validation whatever the settings, so validation does not refuse what it guards. */
  lemma DesignEntriesAreValid(title: string, description: string, impact: string, page: string,
                              policy: Policy, settings: Settings)
    requires policy == DesignPolicy() || policy == ContactPolicy()
    requires Strip(title) != "" && Strip(description) != "" && Strip(impact) != ""
    ensures EntryError(PageVersion(title, description, impact, page, policy), settings) == None
  {
    hide Strip, Canonical;
    VariantTokens();
    var spec := PageVersion(title, description, impact, page, policy);
    assert S("legacy") in spec.variants && S("v2") in spec.variants;
    DesignLabels(policy);
    assert "group" in GUIDED_AUDIENCES && "everyone" in GUIDED_AUDIENCES;
    assert PolicyError(spec) == None;
    assert GuardError(spec, settings) == None;
  }

  lemma DesignLabels(policy: Policy)
    requires policy == DesignPolicy() || policy == ContactPolicy()
    ensures LabelTokens(policy.labels) == Tokens([S("legacy"), S("v2")])
    ensures "legacy" in Tokens([S("legacy"), S("v2")]) && "v2" in Tokens([S("legacy"), S("v2")])
  {
    hide Canonical;
    VariantTokens();
    var variants := [S("legacy"), S("v2")];
    assert variants[0] in variants && variants[1] in variants;
    assert policy.labels[0] in policy.labels && policy.labels[1] in policy.labels;
    assert forall l | l in policy.labels :: l == policy.labels[0] || l == policy.labels[1];
  }
}
