/** What seeding and unseeding the contact rollout leave behind, over tables and histories in
    which anything else may have happened. */
module SeedOutcomes {
  import opened Prelude
  import opened ContactSeed

  // ---------------------------------------------------------------- the history rows consulted

  predicate OfDefinition(s: DefinitionSnapshot, pk: nat) {
    s.id == pk && s.reason == "Contact rollout pre-migration definition"
  }

  predicate OfRule(s: RuleSnapshot, id: nat, feature: nat) {
    s.id == id && s.row.feature == feature && s.reason == "Contact rollout pre-migration rule"
  }

  /** A row that the seed itself wrote when it created or changed a rule of the feature. */
  predicate Migrated(s: RuleSnapshot, feature: nat) {
    s.row.feature == feature && s.reason == "Add contact page design rollout" && (s.kind == '+' || s.kind == '~')
  }

  /** The i-th history row is the latest of its sort. */
  ghost predicate LastDefinition(log: seq<DefinitionSnapshot>, i: nat, pk: nat) {
    i < |log| && OfDefinition(log[i], pk) && forall j | i < j < |log| :: !OfDefinition(log[j], pk)
  }

  ghost predicate LastRule(log: seq<RuleSnapshot>, i: nat, id: nat, feature: nat) {
    i < |log| && OfRule(log[i], id, feature) && forall j | i < j < |log| :: !OfRule(log[j], id, feature)
  }

  ghost predicate LastMigrated(log: seq<RuleSnapshot>, i: nat, feature: nat) {
    i < |log| && Migrated(log[i], feature) && forall j | i < j < |log| :: !Migrated(log[j], feature)
  }

  lemma {:induction false} DefinitionFound(log: seq<DefinitionSnapshot>, pk: nat)
    ensures forall i: nat | LastDefinition(log, i, pk) :: LatestDefinition(log, pk, PREVIOUS_DEFINITION) == Some(log[i].row)
    ensures (forall s | s in log :: !OfDefinition(s, pk)) ==> LatestDefinition(log, pk, PREVIOUS_DEFINITION) == None
  {
    if log != [] {
      var last := |log| - 1;
      assert log[last] in log;
      if !OfDefinition(log[last], pk) {
        DefinitionFound(log[..last], pk);
        forall i: nat | LastDefinition(log, i, pk) ensures LastDefinition(log[..last], i, pk) {
        }
      }
    }
  }

  lemma {:induction false} RuleFound(log: seq<RuleSnapshot>, id: nat, feature: nat)
    ensures forall i: nat | LastRule(log, i, id, feature) :: LatestRule(log, id, feature, PREVIOUS_RULE) == Some(log[i].row)
    ensures (forall s | s in log :: !OfRule(s, id, feature)) ==> LatestRule(log, id, feature, PREVIOUS_RULE) == None
  {
    if log != [] {
      var last := |log| - 1;
      assert log[last] in log;
      if !OfRule(log[last], id, feature) {
        RuleFound(log[..last], id, feature);
        forall i: nat | LastRule(log, i, id, feature) ensures LastRule(log[..last], i, id, feature) {
        }
      }
    }
  }

  lemma {:induction false} MigratedFound(log: seq<RuleSnapshot>, feature: nat)
    ensures forall i: nat | LastMigrated(log, i, feature) :: MigrationRule(log, feature) == Some(log[i])
    ensures (forall s | s in log :: !Migrated(s, feature)) ==> MigrationRule(log, feature) == None
  {
    if log != [] {
      var last := |log| - 1;
      assert log[last] in log;
      if !Migrated(log[last], feature) {
        MigratedFound(log[..last], feature);
        forall i: nat | LastMigrated(log, i, feature) ensures LastMigrated(log[..last], i, feature) {
        }
      }
    }
  }

  // ---------------------------------------------------------------- reverse

  predicate IsFlag(t: Tables, pk: nat) {
    pk in t.definitions && t.definitions[pk].key == "site_contact_page_version"
  }

  lemma FlagFound(t: Tables, pk: nat)
    requires Sound(t) && IsFlag(t, pk)
    ensures FlagPk(t) == Some(pk)
  {
    OneWithKey(t.definitions, pk);
  }

  lemma NoFlagFound(t: Tables)
    requires forall pk | pk in t.definitions :: !IsFlag(t, pk)
    ensures FlagPk(t) == None
  {
    assert WithKey(t.definitions, FLAG_KEY) == {};
  }

  /** The rule table and its history once the rule that the seed last wrote has been undone. */
  ghost predicate RulesUndone(t: Tables, pk: nat, rules: map<nat, RuleRow>, log: seq<RuleSnapshot>) {
    && ((forall s | s in t.ruleLog :: !Migrated(s, pk)) ==> (rules, log) == (t.rules, t.ruleLog))
    && forall i: nat | LastMigrated(t.ruleLog, i, pk) :: SeededUndone(t, pk, t.ruleLog[i], rules, log)
  }

  /** A rule that is gone stays gone. Otherwise it goes back to its last pre-migration row; without
      one it goes if the seed created it, and stays if the seed changed it. */
  ghost predicate SeededUndone(t: Tables, pk: nat, seeded: RuleSnapshot, rules: map<nat, RuleRow>, log: seq<RuleSnapshot>) {
    var id := seeded.id;
    if id !in t.rules then (rules, log) == (t.rules, t.ruleLog)
    else
      && (forall j: nat | LastRule(t.ruleLog, j, id, pk) ::
            && rules == t.rules[id := t.ruleLog[j].row]
            && log == t.ruleLog + [RuleSnapshot(id, t.ruleLog[j].row, '~', "Rollback contact page design rollout")])
      && ((forall s | s in t.ruleLog :: !OfRule(s, id, pk)) ==>
            if seeded.kind == '+' then
              && rules == t.rules - {id}
              && log == t.ruleLog + [RuleSnapshot(id, t.rules[id], '-', "Rollback contact page design rollout")]
            else (rules, log) == (t.rules, t.ruleLog))
  }

  lemma UnseedRuleExactly(t: Tables, pk: nat)
    ensures var u := UnseedRule(t, pk);
            && RulesUndone(t, pk, u.rules, u.ruleLog)
            && u == t.(rules := u.rules, ruleLog := u.ruleLog)
  {
    hide MigrationRule, LatestRule;
    MigratedFound(t.ruleLog, pk);
    var u := UnseedRule(t, pk);
    forall i: nat | LastMigrated(t.ruleLog, i, pk) ensures SeededUndone(t, pk, t.ruleLog[i], u.rules, u.ruleLog) {
      RuleFound(t.ruleLog, t.ruleLog[i].id, pk);
    }
  }

  /** Reversing, over any tables and histories. Without the flag nothing happens. With a
      pre-migration definition the flag goes back to the last one; without, it goes, and all its
      rules go with it. */
  lemma ReverseExactly(t: Tables)
    requires Sound(t)
    ensures (forall pk | pk in t.definitions :: !IsFlag(t, pk)) ==> Reverse(t) == t
    ensures forall pk: nat, j: nat | IsFlag(t, pk) && LastDefinition(t.definitionLog, j, pk) ::
              var r, row := Reverse(t), t.definitionLog[j].row;
              && r.definitions == t.definitions[pk := row]
              && r.definitionLog == t.definitionLog + [DefinitionSnapshot(pk, row, '~', "Rollback contact page design rollout")]
              && RulesUndone(t, pk, r.rules, r.ruleLog)
    ensures forall pk: nat | IsFlag(t, pk) && (forall s | s in t.definitionLog :: !OfDefinition(s, pk)) ::
              var r := Reverse(t);
              && r.definitions == t.definitions - {pk}
              && r.definitionLog == t.definitionLog + [DefinitionSnapshot(pk, t.definitions[pk], '-', "Add contact page design rollout")]
              && exists rules: map<nat, RuleRow> :: RulesUndone(t, pk, rules, r.ruleLog)
                                 && r.rules == map id | id in rules && rules[id].feature != pk :: rules[id]
  {
    hide UnseedRule, LatestDefinition, FlagPk;
    if forall pk | pk in t.definitions :: !IsFlag(t, pk) { NoFlagFound(t); }
    forall pk: nat | IsFlag(t, pk)
      ensures FlagPk(t) == Some(pk)
      ensures forall j: nat | LastDefinition(t.definitionLog, j, pk) ::
                LatestDefinition(t.definitionLog, pk, PREVIOUS_DEFINITION) == Some(t.definitionLog[j].row)
      ensures (forall s | s in t.definitionLog :: !OfDefinition(s, pk)) ==>
                LatestDefinition(t.definitionLog, pk, PREVIOUS_DEFINITION) == None
      ensures RulesUndone(t, pk, UnseedRule(t, pk).rules, UnseedRule(t, pk).ruleLog)
      ensures UnseedRule(t, pk) == t.(rules := UnseedRule(t, pk).rules, ruleLog := UnseedRule(t, pk).ruleLog)
    {
      FlagFound(t, pk);
      DefinitionFound(t.definitionLog, pk);
      UnseedRuleExactly(t, pk);
    }
  }

  // ---------------------------------------------------------------- forward

  predicate OfTesters(rules: map<nat, RuleRow>, pk: nat, id: nat) {
    && id in rules && rules[id].feature == pk
    && rules[id].rule.name == "Website design testers" && rules[id].rule.page == "contact"
  }

  /** The testers' rule the seed takes over: least priority, then least primary key. */
  ghost predicate FirstOfTesters(rules: map<nat, RuleRow>, pk: nat, id: nat) {
    && OfTesters(rules, pk, id)
    && forall o: nat | OfTesters(rules, pk, o) && o != id ::
         var mine, other := rules[id].rule.priority, rules[o].rule.priority;
         mine < other || (mine == other && id < o)
  }

  /** A new or taken-over rule of the flag, written at that time. */
  predicate Written(row: RuleRow, pk: nat, group: nat, created: int, now: int) {
    row.feature == pk && ForTesters(row.rule, group) && row.created == created && row.updated == now
  }

  /** What seeding does to the rules of the flag, with the history rows it leaves. */
  ghost predicate RulesSeeded(t: Tables, f: Tables, pk: nat, group: nat, now: int) {
    && (forall id: nat | FirstOfTesters(t.rules, pk, id) ::
          && id in f.rules && Written(f.rules[id], pk, group, t.rules[id].created, now)
          && f.rules == t.rules[id := f.rules[id]] && f.nextRule == t.nextRule
          && f.ruleLog == t.ruleLog + [RuleSnapshot(id, t.rules[id], '~', "Contact rollout pre-migration rule"),
                                       RuleSnapshot(id, f.rules[id], '~', "Add contact page design rollout")])
    && ((forall id | id in t.rules :: !OfTesters(t.rules, pk, id)) ==>
          && t.nextRule in f.rules && Written(f.rules[t.nextRule], pk, group, now, now)
          && f.rules == t.rules[t.nextRule := f.rules[t.nextRule]] && f.nextRule == t.nextRule + 1
          && f.ruleLog == t.ruleLog + [RuleSnapshot(t.nextRule, f.rules[t.nextRule], '+', "Add contact page design rollout")])
  }

  lemma FirstIsFound(rules: map<nat, RuleRow>, pk: nat, id: nat)
    requires FirstOfTesters(rules, pk, id)
    ensures SeedRule(rules, pk) == Some(id)
  {
    var ids := SeedRules(rules, pk);
    assert id in ids && forall o | o in ids :: OfTesters(rules, pk, o);
    var lowest := rules[id].rule.priority;
    var priorities := Priorities(rules, ids);
    assert lowest in priorities;
    assert IsLeast(lowest, priorities);
    assert First(priorities) == Some(lowest);
    var best := set o | o in ids && rules[o].rule.priority == lowest;
    assert IsLeast(id, best);
    assert First(best) == Some(id);
  }

  lemma RulesSeededExactly(t: Tables, pk: nat, group: nat, now: int)
    ensures var f := SeedRuleRow(t, pk, group, now);
            && RulesSeeded(t, f, pk, group, now)
            && f.definitions == t.definitions && f.definitionLog == t.definitionLog && f.nextDefinition == t.nextDefinition
  {
    hide SeedRule;
    forall id: nat | FirstOfTesters(t.rules, pk, id) ensures SeedRule(t.rules, pk) == Some(id) {
      FirstIsFound(t.rules, pk, id);
    }
    if forall id | id in t.rules :: !OfTesters(t.rules, pk, id) {
      assert SeedRules(t.rules, pk) == {};
    }
  }

  /** The flag with its code-first values. */
  function Seeded(created: int, now: int): DefinitionRow {
    DefinitionRow("site_contact_page_version", "Switches the /contact page.", "variant", "legacy", true, false, created, now)
  }

  /** Seeding, over any tables and histories: the definition of that key is taken over with a row
      of history before and after, or created with one; then its testers' rule likewise. */
  lemma ForwardExactly(t: Tables, group: nat, now: int)
    requires Sound(t)
    ensures forall pk: nat | IsFlag(t, pk) ::
              var f, row := Forward(t, group, now), Seeded(t.definitions[pk].created, now);
              && f.definitions == t.definitions[pk := row] && f.nextDefinition == t.nextDefinition
              && f.definitionLog == t.definitionLog + [DefinitionSnapshot(pk, t.definitions[pk], '~', "Contact rollout pre-migration definition"),
                                                       DefinitionSnapshot(pk, row, '~', "Add contact page design rollout")]
              && RulesSeeded(t, f, pk, group, now)
    ensures (forall pk | pk in t.definitions :: !IsFlag(t, pk)) ==>
              var f, pk, row := Forward(t, group, now), t.nextDefinition, Seeded(now, now);
              && f.definitions == t.definitions[pk := row] && f.nextDefinition == pk + 1
              && f.definitionLog == t.definitionLog + [DefinitionSnapshot(pk, row, '+', "Add contact page design rollout")]
              && RulesSeeded(t, f, pk, group, now)
  {
    hide FlagPk, Sound, FirstOfTesters, OfTesters, ForTesters, SeedRuleRow;
    if pk: nat :| IsFlag(t, pk) {
      forall pk: nat | IsFlag(t, pk) ensures FlagPk(t) == Some(pk) {
        FlagFound(t, pk);
      }
    } else {
      NoFlagFound(t);
    }
    var (t1, pk) := SeedDefinition(t, now);
    RulesSeededExactly(t1, pk, group, now);
    assert Forward(t, group, now) == SeedRuleRow(t1, pk, group, now);
  }
}
