/** When the order of a flag's rules cannot matter. */
module FlagOrder {
  import opened Prelude
  import opened R = FlagRegistry
  import opened E = FlagEvaluation

  /** Two page scopes that some page falls into both of; the empty scope is every page. */
  predicate Overlap(p: string, q: string) {
    p == "" || q == "" || p == q
  }

  /** No two enabled rules can apply to one page. */
  predicate PageDisjoint(rules: seq<Rule>) {
    forall i, j | 0 <= i < j < |rules| :: rules[i].enabled && rules[j].enabled ==> !Overlap(rules[i].page, rules[j].page)
  }

  /** One list holds the same rules as the other, as any permutation of it does. */
  predicate SameRules(rules: seq<Rule>, others: seq<Rule>) {
    (forall r | r in rules :: r in others) && (forall r | r in others :: r in rules)
  }

  lemma PermutedRules(rules: seq<Rule>, others: seq<Rule>)
    requires multiset(rules) == multiset(others)
    ensures SameRules(rules, others)
  {
    forall r ensures r in rules <==> r in others {
      assert r in multiset(rules) <==> r in multiset(others);
    }
  }

  lemma OneRuleSupplies(env: FlagEnv, f: Feature, rules: seq<Rule>, c: Context, i: nat, j: nat)
    requires PageDisjoint(rules) && i < |rules| && j < |rules|
    requires RuleValue(env, f, rules[i], c).Some? && RuleValue(env, f, rules[j], c).Some?
    ensures i == j
  {
    hide Admitted, RuleResult, AudienceMatches;
  }

  /** The first rule to supply a value is then the only one, in any arrangement of the same rules. */
  lemma FirstRuleAnywhere(env: FlagEnv, f: Feature, rules: seq<Rule>, others: seq<Rule>, c: Context)
    requires PageDisjoint(rules) && SameRules(rules, others)
    ensures FirstRule(env, f, rules, c) == FirstRule(env, f, others, c)
  {
    hide RuleValue, FirstRule, PageDisjoint;
    FirstRuleIsOne(env, f, rules, c);
    FirstRuleIsOne(env, f, others, c);
    var r, s := FirstRule(env, f, rules, c), FirstRule(env, f, others, c);
    if r.Some? {
      var i :| 0 <= i < |rules| && r.value.0 == rules[i] && RuleValue(env, f, rules[i], c) == Some(r.value.1);
      assert rules[i] in others;
      var k :| 0 <= k < |others| && others[k] == rules[i];
      var h :| 0 <= h < |others| && s.value.0 == others[h] && RuleValue(env, f, others[h], c) == Some(s.value.1);
      assert others[h] in rules;
      var j :| 0 <= j < |rules| && rules[j] == others[h];
      OneRuleSupplies(env, f, rules, c, i, j);
    } else {
      forall h | 0 <= h < |others| ensures RuleValue(env, f, others[h], c).None? {
        assert others[h] in rules;
        var j :| 0 <= j < |rules| && rules[j] == others[h];
      }
    }
  }

  lemma RuleIgnoresRules(env: FlagEnv, f: Feature, g: Feature, rule: Rule, c: Context)
    requires g == f.(rules := g.rules)
    ensures RuleValue(env, f, rule, c) == RuleValue(env, g, rule, c)
  {
    hide RuleMatches, ValidValue, Coerce, IsGuarded, RuleMayGuard, PolicyFor;
  }

  lemma {:induction false} RulesFieldIgnored(env: FlagEnv, f: Feature, g: Feature, rules: seq<Rule>, c: Context)
    requires g == f.(rules := g.rules)
    ensures FirstRule(env, f, rules, c) == FirstRule(env, g, rules, c)
  {
    hide RuleValue;
    if rules != [] {
      RuleIgnoresRules(env, f, g, rules[0], c);
      RulesFieldIgnored(env, f, g, rules[1..], c);
    }
  }

  /** Evaluating a flag whose enabled rules are page-disjoint gives the same answer, reason and
      stored assignment for every order of its rules. */
  lemma OrderCannotMatter(env: FlagEnv, f: Feature, others: seq<Rule>, a: Assignments, c: Context)
    requires PageDisjoint(f.rules) && SameRules(f.rules, others)
    ensures Evaluate(env, f.(rules := others), a, c) == Evaluate(env, f, a, c)
  {
    hide PageDisjoint, SameRules, FirstRule, RuleValue, Validated, PolicyAllows, StoredOverride;
    FirstRuleAnywhere(env, f, f.rules, others, c);
    RulesFieldIgnored(env, f, f.(rules := others), others, c);
    PiecesIgnoreRules(env, f, others, a, c);
  }

  lemma PiecesIgnoreRules(env: FlagEnv, f: Feature, others: seq<Rule>, a: Assignments, c: Context)
    ensures var g := f.(rules := others);
            && PreviewValue(env, g, c) == PreviewValue(env, f, c)
            && OverrideValue(env, g, c) == OverrideValue(env, f, c)
            && StickyValue(env, g, a, c) == StickyValue(env, f, a, c)
            && SafeDefault(env, g) == SafeDefault(env, f)
            && Slot(env, g, c) == Slot(env, f, c)
  {
    hide StoredOverride, ValidValue, Coerce, IsGuarded, RuleMayGuard;
  }

  /** Overlapping rules make order matter: the same two rules, swapped, answer differently. */
  lemma OverlapMakesOrderMatter(env: FlagEnv, f: Feature, c: Context, first: Rule, second: Rule)
    requires f.key in env.reg && PolicyOf(env.reg[f.key]).guarded.None? && f.kind == "variant"
    requires f.overrides == [] && !f.sticky && Previews(c) == map[] && f.rules == [first, second]
    requires RuleMatches(env, f.key, first, c) && RuleMatches(env, f.key, second, c)
    requires first.ruleType == second.ruleType == "everyone" && first.value != second.value
    requires ValidValue(env.reg, f.key, S(first.value)) && ValidValue(env.reg, f.key, S(second.value))
    ensures Evaluate(env, f, map[], c).value != Evaluate(env, f.(rules := [second, first]), map[], c).value
  {
    hide RuleMatches, ValidValue, Canonical;
    var g := f.(rules := [second, first]);
    assert RuleValue(env, f, first, c) == Some(S(first.value));
    assert RuleValue(env, g, second, c) == Some(S(second.value));
    assert LastOverride(f.overrides, "user", c).None? && LastOverride(f.overrides, "anonymous", c).None?;
  }
}
