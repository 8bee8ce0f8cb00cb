/** Migration 0006: the contact-page rollout is seeded over whatever was there, and reversing
    restores that from history snapshots. */
module ContactSeed {
  import opened Prelude
  import E = FlagEvaluation
  import D = Decimals

  const FLAG_KEY := "site_contact_page_version"
  const FLAG_DESCRIPTION := "Switches the /contact page."
  const RULE_NAME := "Website design testers"
  const PAGE := "contact"
  const HISTORY_REASON := "Add contact page design rollout"
  const PREVIOUS_DEFINITION := "Contact rollout pre-migration definition"
  const PREVIOUS_RULE := "Contact rollout pre-migration rule"
  const ROLLBACK_REASON := "Rollback contact page design rollout"

  datatype DefinitionRow = DefinitionRow(key: string, description: string, kind: string, defaultValue: string,
                                         active: bool, sticky: bool, created: int, updated: int)

  datatype RuleRow = RuleRow(feature: nat, rule: E.Rule, created: int, updated: int)

  /** A history row: of which primary key, with which type and reason, and the values it keeps. */
  datatype DefinitionSnapshot = DefinitionSnapshot(id: nat, row: DefinitionRow, kind: char, reason: string)
  datatype RuleSnapshot = RuleSnapshot(id: nat, row: RuleRow, kind: char, reason: string)

  /** The tables; histories in the order of their (date, id). */
  datatype Tables = Tables(definitions: map<nat, DefinitionRow>, rules: map<nat, RuleRow>,
                           definitionLog: seq<DefinitionSnapshot>, ruleLog: seq<RuleSnapshot>,
                           nextDefinition: nat, nextRule: nat)

  // ---------------------------------------------------------------- lookups

  function WithKey(definitions: map<nat, DefinitionRow>, key: string): set<nat> {
    set pk | pk in definitions && definitions[pk].key == key
  }

  /** Keys are unique, so this is the definition of that key. */
  function FlagPk(t: Tables): Option<nat> {
    First(WithKey(t.definitions, FLAG_KEY))
  }

  function SeedRules(rules: map<nat, RuleRow>, feature: nat): set<nat> {
    set id | id in rules && rules[id].feature == feature && rules[id].rule.name == RULE_NAME && rules[id].rule.page == PAGE
  }

  function Priorities(rules: map<nat, RuleRow>, ids: set<nat>): set<nat> {
    set id | id in ids && id in rules :: rules[id].rule.priority
  }

  /** The first seed rule by priority, then primary key. */
  function SeedRule(rules: map<nat, RuleRow>, feature: nat): (r: Option<nat>)
    ensures r.Some? ==> r.value in SeedRules(rules, feature)
    ensures r.None? ==> SeedRules(rules, feature) == {}
  {
    var ids := SeedRules(rules, feature);
    var lowest := First(Priorities(rules, ids));
    if lowest.None? then
      assert forall id | id in ids :: rules[id].rule.priority in Priorities(rules, ids);
      None
    else
      var best := set id | id in ids && rules[id].rule.priority == lowest.value;
      assert best != {} by {
        assert lowest.value in Priorities(rules, ids);
        var id :| id in ids && rules[id].rule.priority == lowest.value;
        assert id in best;
      }
      First(best)
  }

  /** The latest snapshot of a definition for a reason. */
  function LatestDefinition(log: seq<DefinitionSnapshot>, id: nat, reason: string): Option<DefinitionRow> {
    if log == [] then None
    else
      var last := log[|log| - 1];
      if last.id == id && last.reason == reason then Some(last.row)
      else LatestDefinition(log[..|log| - 1], id, reason)
  }

  function LatestRule(log: seq<RuleSnapshot>, id: nat, feature: nat, reason: string): Option<RuleRow> {
    if log == [] then None
    else
      var last := log[|log| - 1];
      if last.id == id && last.row.feature == feature && last.reason == reason then Some(last.row)
      else LatestRule(log[..|log| - 1], id, feature, reason)
  }

  /** The latest rule snapshot this migration itself took of the feature. */
  function MigrationRule(log: seq<RuleSnapshot>, feature: nat): Option<RuleSnapshot> {
    if log == [] then None
    else
      var last := log[|log| - 1];
      if last.row.feature == feature && last.reason == HISTORY_REASON && last.kind in {'+', '~'} then Some(last)
      else MigrationRule(log[..|log| - 1], feature)
  }

  // ---------------------------------------------------------------- forward

  function SeededDefinition(created: int, now: int): DefinitionRow {
    DefinitionRow(FLAG_KEY, FLAG_DESCRIPTION, "variant", "legacy", true, false, created, now)
  }

  /** A rule with the migration's targeting, keeping its name and page. */
  function SeededRule(r: E.Rule, group: nat): E.Rule {
    r.(priority := 10, ruleType := "group", value := "v2", actorIds := [],
       groupIds := [E.RawId(D.IntText(group), Some(group), group != 0, if group > 0 then Some(group) else None)],
       percentage := None, enabled := true)
  }

  function NewRule(group: nat): E.Rule {
    SeededRule(E.Rule(RULE_NAME, 0, "", "", PAGE, [], [], None, true), group)
  }

  function SeedDefinition(t: Tables, now: int): (Tables, nat) {
    var found := FlagPk(t);
    if found.None? then
      var pk, row := t.nextDefinition, SeededDefinition(now, now);
      (t.(definitions := t.definitions[pk := row], nextDefinition := pk + 1,
          definitionLog := t.definitionLog + [DefinitionSnapshot(pk, row, '+', HISTORY_REASON)]), pk)
    else
      var pk := found.value;
      var previous := t.definitions[pk];
      var row := SeededDefinition(previous.created, now).(key := previous.key);
      (t.(definitions := t.definitions[pk := row],
          definitionLog := t.definitionLog + [DefinitionSnapshot(pk, previous, '~', PREVIOUS_DEFINITION),
                                              DefinitionSnapshot(pk, row, '~', HISTORY_REASON)]), pk)
  }

  function SeedRuleRow(t: Tables, feature: nat, group: nat, now: int): Tables {
    var found := SeedRule(t.rules, feature);
    if found.None? then
      var id, row := t.nextRule, RuleRow(feature, NewRule(group), now, now);
      t.(rules := t.rules[id := row], nextRule := id + 1,
         ruleLog := t.ruleLog + [RuleSnapshot(id, row, '+', HISTORY_REASON)])
    else
      var id := found.value;
      var previous := t.rules[id];
      var row := previous.(rule := SeededRule(previous.rule, group), updated := now);
      t.(rules := t.rules[id := row],
         ruleLog := t.ruleLog + [RuleSnapshot(id, previous, '~', PREVIOUS_RULE), RuleSnapshot(id, row, '~', HISTORY_REASON)])
  }

  /** `forward`; group is the tester group's primary key, found or created. */
  function Forward(t: Tables, group: nat, now: int): Tables {
    var (t1, pk) := SeedDefinition(t, now);
    SeedRuleRow(t1, pk, group, now)
  }

  // ---------------------------------------------------------------- reverse

  function UnseedRule(t: Tables, feature: nat): Tables {
    var migrated := MigrationRule(t.ruleLog, feature);
    if migrated.None? || migrated.value.id !in t.rules then t
    else
      var id := migrated.value.id;
      var previous := LatestRule(t.ruleLog, id, feature, PREVIOUS_RULE);
      if previous.Some? then
        var row := previous.value.(feature := feature);
        t.(rules := t.rules[id := row], ruleLog := t.ruleLog + [RuleSnapshot(id, row, '~', ROLLBACK_REASON)])
      else if migrated.value.kind == '+' then
        t.(rules := t.rules - {id}, ruleLog := t.ruleLog + [RuleSnapshot(id, t.rules[id], '-', ROLLBACK_REASON)])
      else t
  }

  /** Rules of a definition, which its deletion takes along. */
  function RulesOf(t: Tables, feature: nat): set<nat> {
    set id | id in t.rules && t.rules[id].feature == feature
  }

  function UnseedDefinition(t: Tables, pk: nat): Tables
    requires pk in t.definitions
  {
    var previous := LatestDefinition(t.definitionLog, pk, PREVIOUS_DEFINITION);
    if previous.Some? then
      t.(definitions := t.definitions[pk := previous.value],
         definitionLog := t.definitionLog + [DefinitionSnapshot(pk, previous.value, '~', ROLLBACK_REASON)])
    else
      t.(definitions := t.definitions - {pk}, rules := t.rules - RulesOf(t, pk),
         definitionLog := t.definitionLog + [DefinitionSnapshot(pk, t.definitions[pk], '-', HISTORY_REASON)])
  }

  function Reverse(t: Tables): Tables {
    var found := FlagPk(t);
    if found.None? then t else UnseedDefinition(UnseedRule(t, found.value), found.value)
  }

  // ---------------------------------------------------------------- in place

  class SeedMigration {
    var definitions: map<nat, DefinitionRow>
    var rules: map<nat, RuleRow>
    var definitionLog: seq<DefinitionSnapshot>
    var ruleLog: seq<RuleSnapshot>
    var nextDefinition: nat
    var nextRule: nat

    constructor (t: Tables)
      ensures State() == t
    {
      definitions, rules := t.definitions, t.rules;
      definitionLog, ruleLog := t.definitionLog, t.ruleLog;
      nextDefinition, nextRule := t.nextDefinition, t.nextRule;
    }

    function State(): Tables
      reads this
    {
      Tables(definitions, rules, definitionLog, ruleLog, nextDefinition, nextRule)
    }

    method SnapshotDefinition(pk: nat, kind: char, reason: string)
      requires pk in definitions
      modifies this`definitionLog
      ensures definitionLog == old(definitionLog) + [DefinitionSnapshot(pk, definitions[pk], kind, reason)]
    {
      definitionLog := definitionLog + [DefinitionSnapshot(pk, definitions[pk], kind, reason)];
    }

    method SnapshotRule(id: nat, kind: char, reason: string)
      requires id in rules
      modifies this`ruleLog
      ensures ruleLog == old(ruleLog) + [RuleSnapshot(id, rules[id], kind, reason)]
    {
      ruleLog := ruleLog + [RuleSnapshot(id, rules[id], kind, reason)];
    }

    method MigrateDefinition(now: int) returns (pk: nat)
      modifies this
      ensures (State(), pk) == SeedDefinition(old(State()), now)
    {
      ghost var log := definitionLog;
      var found := First(WithKey(definitions, FLAG_KEY));
      if found.None? {
        pk := nextDefinition;
        definitions := definitions[pk := SeededDefinition(now, now)];
        nextDefinition := nextDefinition + 1;
        SnapshotDefinition(pk, '+', HISTORY_REASON);
      } else {
        pk := found.value;
        SnapshotDefinition(pk, '~', PREVIOUS_DEFINITION);
        definitions := definitions[pk := definitions[pk].(
          description := FLAG_DESCRIPTION, kind := "variant", defaultValue := "legacy", active := true, sticky := false,
          updated := now)];
        SnapshotDefinition(pk, '~', HISTORY_REASON);
        assert definitionLog == log + [DefinitionSnapshot(pk, old(definitions)[pk], '~', PREVIOUS_DEFINITION),
                                       DefinitionSnapshot(pk, definitions[pk], '~', HISTORY_REASON)];
      }
    }

    method Migrate(group: nat, now: int)
      modifies this
      ensures State() == Forward(old(State()), group, now)
    {
      hide SeedDefinition, SeededRule, SeededDefinition;
      var pk := MigrateDefinition(now);
      ghost var log := ruleLog;
      ghost var before := rules;
      var found := SeedRule(rules, pk);
      var id: nat;
      if found.None? {
        id := nextRule;
        rules := rules[id := RuleRow(pk, NewRule(group), now, now)];
        nextRule := nextRule + 1;
        SnapshotRule(id, '+', HISTORY_REASON);
      } else {
        id := found.value;
        SnapshotRule(id, '~', PREVIOUS_RULE);
        rules := rules[id := rules[id].(rule := SeededRule(rules[id].rule, group), updated := now)];
        SnapshotRule(id, '~', HISTORY_REASON);
        assert ruleLog == log + [RuleSnapshot(id, before[id], '~', PREVIOUS_RULE),
                                 RuleSnapshot(id, rules[id], '~', HISTORY_REASON)];
      }
    }

    method Unmigrate()
      modifies this
      ensures State() == Reverse(old(State()))
    {
      hide LatestRule, LatestDefinition, MigrationRule;
      var found := First(WithKey(definitions, FLAG_KEY));
      if found.None? { return; }
      var pk := found.value;
      var migrated := MigrationRule(ruleLog, pk);
      if migrated.Some? && migrated.value.id in rules {
        var id := migrated.value.id;
        var previous := LatestRule(ruleLog, id, pk, PREVIOUS_RULE);
        if previous.Some? {
          rules := rules[id := previous.value.(feature := pk)];
          SnapshotRule(id, '~', ROLLBACK_REASON);
        } else if migrated.value.kind == '+' {
          SnapshotRule(id, '-', ROLLBACK_REASON);
          rules := rules - {id};
        }
      }
      assert State() == UnseedRule(old(State()), pk);
      var previous := LatestDefinition(definitionLog, pk, PREVIOUS_DEFINITION);
      if previous.Some? {
        definitions := definitions[pk := previous.value];
        SnapshotDefinition(pk, '~', ROLLBACK_REASON);
      } else {
        SnapshotDefinition(pk, '-', HISTORY_REASON);
        rules := rules - (set id | id in rules && rules[id].feature == pk);
        definitions := definitions - {pk};
      }
    }
  }

  // ---------------------------------------------------------------- what is assumed of the tables

  /** Keys are unique, rules belong to definitions, and primary keys are never reused. */
  predicate Sound(t: Tables) {
    && (forall p, q | p in t.definitions && q in t.definitions && p != q :: t.definitions[p].key != t.definitions[q].key)
    && (forall id | id in t.rules :: t.rules[id].feature in t.definitions)
    && (forall pk | pk in t.definitions :: pk < t.nextDefinition)
    && (forall id | id in t.rules :: id < t.nextRule)
    && (forall s | s in t.definitionLog :: s.id < t.nextDefinition)
    && (forall s | s in t.ruleLog :: s.id < t.nextRule)
  }

  lemma {:induction false} NoOldDefinition(log: seq<DefinitionSnapshot>, id: nat, reason: string)
    requires forall s | s in log :: s.id != id
    ensures LatestDefinition(log, id, reason) == None
  {
    if log != [] {
      assert log[|log| - 1] in log;
      assert forall s | s in log[..|log| - 1] :: s in log;
      NoOldDefinition(log[..|log| - 1], id, reason);
    }
  }

  lemma {:induction false} NoOldRule(log: seq<RuleSnapshot>, id: nat, feature: nat, reason: string)
    requires forall s | s in log :: s.id != id
    ensures LatestRule(log, id, feature, reason) == None
  {
    if log != [] {
      assert log[|log| - 1] in log;
      assert forall s | s in log[..|log| - 1] :: s in log;
      NoOldRule(log[..|log| - 1], id, feature, reason);
    }
  }

  lemma OneWithKey(definitions: map<nat, DefinitionRow>, pk: nat)
    requires pk in definitions && definitions[pk].key == FLAG_KEY
    requires forall q | q in definitions && q != pk :: definitions[q].key != FLAG_KEY
    ensures First(WithKey(definitions, FLAG_KEY)) == Some(pk)
  {
    assert WithKey(definitions, FLAG_KEY) == {pk};
  }

  // ---------------------------------------------------------------- round trip

  /** Undoing the rule part puts the rule table back. */
  lemma UnseedAfterSeed(t: Tables, feature: nat, group: nat, now: int)
    requires forall id | id in t.rules :: id < t.nextRule
    requires forall s | s in t.ruleLog :: s.id < t.nextRule
    ensures var u := UnseedRule(SeedRuleRow(t, feature, group, now), feature);
            && u.rules == t.rules && u.definitions == t.definitions && u.definitionLog == t.definitionLog
            && u.nextDefinition == t.nextDefinition && u.nextRule >= t.nextRule
            && |u.ruleLog| >= |t.ruleLog| && u.ruleLog[..|t.ruleLog|] == t.ruleLog
            && forall s | s in u.ruleLog :: s.id < u.nextRule
  {
    hide SeededRule, SeedRule, NewRule;
    var s := SeedRuleRow(t, feature, group, now);
    var found := SeedRule(t.rules, feature);
    var last := s.ruleLog[|s.ruleLog| - 1];
    assert MigrationRule(s.ruleLog, feature) == Some(last);
    if found.None? {
      assert s.ruleLog[..|s.ruleLog| - 1] == t.ruleLog;
      NoOldRule(t.ruleLog, t.nextRule, feature, PREVIOUS_RULE);
    } else {
      var one := s.ruleLog[..|s.ruleLog| - 1];
      assert one[|one| - 1] == RuleSnapshot(found.value, t.rules[found.value], '~', PREVIOUS_RULE);
      assert LatestRule(one, found.value, feature, PREVIOUS_RULE) == Some(t.rules[found.value]);
    }
    var u := UnseedRule(s, feature);
    assert u.rules == t.rules;
  }

  lemma SeedHasOneFlag(t: Tables, now: int)
    requires Sound(t)
    ensures var (t1, pk) := SeedDefinition(t, now);
            && FlagPk(t1) == Some(pk)
            && (FlagPk(t).None? ==> pk == t.nextDefinition && pk !in t.definitions)
            && (FlagPk(t).Some? ==> pk in t.definitions)
  {
    var (t1, pk) := SeedDefinition(t, now);
    forall q | q in t.definitions && t.definitions[q].key == FLAG_KEY ensures q in WithKey(t.definitions, FLAG_KEY) {
    }
    OneWithKey(t1.definitions, pk);
  }

  lemma LatestAfterSeed(t: Tables, now: int)
    requires Sound(t)
    ensures var (t1, pk) := SeedDefinition(t, now);
            LatestDefinition(t1.definitionLog, pk, PREVIOUS_DEFINITION)
              == if FlagPk(t).Some? && pk in t.definitions then Some(t.definitions[pk]) else None
  {
    SeedHasOneFlag(t, now);
    var (t1, pk) := SeedDefinition(t, now);
    var log := t1.definitionLog;
    var one := log[..|log| - 1];
    if FlagPk(t).None? {
      assert one == t.definitionLog;
      NoOldDefinition(t.definitionLog, pk, PREVIOUS_DEFINITION);
    } else {
      assert one[|one| - 1] == DefinitionSnapshot(pk, t.definitions[pk], '~', PREVIOUS_DEFINITION);
    }
  }

  lemma SeedAppends(t: Tables, now: int)
    ensures var (t1, pk) := SeedDefinition(t, now);
            && |t1.definitionLog| >= |t.definitionLog| && t1.definitionLog[..|t.definitionLog|] == t.definitionLog
            && forall s | s in t1.definitionLog :: s in t.definitionLog || s.id == pk
    ensures var (t1, pk) := SeedDefinition(t, now);
            pk in t1.definitions && forall q | q != pk :: q in t1.definitions <==> q in t.definitions
    ensures var (t1, pk) := SeedDefinition(t, now);
            forall q | q in t.definitions && q != pk :: t1.definitions[q] == t.definitions[q]
  {
  }

  /** Undoing the definition part puts the definition table back, and takes no rule along. */
  lemma UnseedDefinitionAfterSeed(t: Tables, now: int, u: Tables)
    requires Sound(t)
    requires var (t1, pk) := SeedDefinition(t, now);
             u.definitions == t1.definitions && u.definitionLog == t1.definitionLog && u.rules == t.rules
    ensures var pk := SeedDefinition(t, now).1;
            && pk in u.definitions && FlagPk(u) == Some(pk)
            && var r := UnseedDefinition(u, pk);
               && r.definitions == t.definitions && r.rules == t.rules
               && r.nextDefinition == u.nextDefinition && r.nextRule == u.nextRule && r.ruleLog == u.ruleLog
               && |r.definitionLog| >= |t.definitionLog| && r.definitionLog[..|t.definitionLog|] == t.definitionLog
               && forall s | s in r.definitionLog :: s in t.definitionLog || s.id == pk
  {
    hide SeedDefinition, LatestDefinition, FlagPk;
    var (t1, pk) := SeedDefinition(t, now);
    SeedHasOneFlag(t, now);
    SeedAppends(t, now);
    LatestAfterSeed(t, now);
    FlagPkSees(u, t1);
    if FlagPk(t).None? { assert RulesOf(u, pk) == {}; }
    assert UnseedDefinition(u, pk).definitions == t.definitions;
  }

  /** Reversing the seed restores the definition and rule tables exactly: what was overwritten
      comes back, timestamps included, and what was created is gone. History is only appended to,
      and the tables are sound again. */
  lemma ReverseOfForward(t: Tables, group: nat, now: int)
    requires Sound(t)
    ensures var r := Reverse(Forward(t, group, now));
            && r.definitions == t.definitions && r.rules == t.rules
            && |r.definitionLog| >= |t.definitionLog| && r.definitionLog[..|t.definitionLog|] == t.definitionLog
            && |r.ruleLog| >= |t.ruleLog| && r.ruleLog[..|t.ruleLog|] == t.ruleLog
            && Sound(r)
  {
    hide SeedRuleRow, UnseedRule, UnseedDefinition, FlagPk, LatestDefinition;
    var (t1, pk) := SeedDefinition(t, now);
    SeedKeepsCounters(t, now);
    UnseedAfterSeed(t1, pk, group, now);
    var f := SeedRuleRow(t1, pk, group, now);
    SeedRuleKeepsDefinitions(t1, pk, group, now);
    UnseedDefinitionAfterSeed(t, now, UnseedRule(f, pk));
    assert FlagPk(f) == Some(pk) by { FlagPkSees(f, UnseedRule(f, pk)); }
    var r := Reverse(f);
    assert r == UnseedDefinition(UnseedRule(f, pk), pk);
  }

  lemma FlagPkSees(t: Tables, u: Tables)
    requires t.definitions == u.definitions
    ensures FlagPk(t) == FlagPk(u)
  {
  }

  lemma SeedKeepsCounters(t: Tables, now: int)
    requires Sound(t)
    ensures var (t1, pk) := SeedDefinition(t, now);
            && t1.rules == t.rules && t1.ruleLog == t.ruleLog && t1.nextRule == t.nextRule
            && t.nextDefinition <= t1.nextDefinition && pk < t1.nextDefinition
  {
  }

  lemma SeedRuleKeepsDefinitions(t: Tables, feature: nat, group: nat, now: int)
    ensures SeedRuleRow(t, feature, group, now).definitions == t.definitions
  {
  }

  /** Any number of forward-and-reverse cycles. */
  function Cycles(t: Tables, group: nat, times: seq<int>): Tables
    decreases |times|
  {
    if times == [] then t else Cycles(Reverse(Forward(t, group, times[0])), group, times[1..])
  }

  /** Repeated cycles restore the tables as well: earlier cycles' snapshots never mislead a later one. */
  lemma {:induction false} CyclesRestore(t: Tables, group: nat, times: seq<int>)
    requires Sound(t)
    ensures var r := Cycles(t, group, times);
            r.definitions == t.definitions && r.rules == t.rules && Sound(r)
    decreases |times|
  {
    hide Forward, Reverse, Sound;
    if times != [] {
      ReverseOfForward(t, group, times[0]);
      CyclesRestore(Reverse(Forward(t, group, times[0])), group, times[1..]);
    }
  }

  /** The testers' rule: version two of the contact page for the members of one group, switched on. */
  predicate ForTesters(r: E.Rule, group: nat) {
    && r.name == "Website design testers" && r.page == "contact" && r.value == "v2" && r.priority == 10 && r.enabled
    && r.ruleType == "group" && r.actorIds == [] && r.percentage.None?
    && |r.groupIds| == 1 && r.groupIds[0].text == D.IntText(group) && r.groupIds[0].number == Some(group)
    && (r.groupIds[0].truthy <==> group != 0) && r.groupIds[0].strict == (if group == 0 then None else Some(group))
  }

  /** After the seed, the flag is active with its code-first values and the testers' rule is on. */
  lemma ForwardSeeds(t: Tables, group: nat, now: int)
    requires Sound(t)
    ensures var f := Forward(t, group, now);
            FlagPk(f).Some? &&
            var pk := FlagPk(f).value;
            && f.definitions[pk].active && !f.definitions[pk].sticky && f.definitions[pk].defaultValue == "legacy"
            && f.definitions[pk].key == "site_contact_page_version" && f.definitions[pk].kind == "variant"
            && f.definitions[pk].updated == now
            && (exists id | id in f.rules :: f.rules[id].feature == pk && ForTesters(f.rules[id].rule, group))
            && (forall q | q in t.definitions && q != pk :: q in f.definitions && f.definitions[q] == t.definitions[q])
  {
    var (t1, pk) := SeedDefinition(t, now);
    SeedHasOneFlag(t, now);
    SeedRuleKeepsDefinitions(t1, pk, group, now);
    hide FlagPk;
    FlagPkSees(SeedRuleRow(t1, pk, group, now), t1);
    var f := SeedRuleRow(t1, pk, group, now);
    var found := SeedRule(t1.rules, pk);
    var id := if found.Some? then found.value else t1.nextRule;
    assert id in f.rules && f.rules[id].feature == pk && ForTesters(f.rules[id].rule, group);
  }
}
