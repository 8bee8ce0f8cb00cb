/** Operators at work concurrently: creating and starting hold the feature's row lock, starting
    and stopping the rule's, and every read between sees what others have committed. The service's
    stop locks the joined feature row too; here it takes the rule's lock alone, which allows more runs. */
module RolloutRaces {
  import opened Prelude
  import opened R = FlagRegistry
  import opened E = FlagEvaluation
  import opened O = FlagOrder
  import opened Rollouts

  /** Where an operator's transaction stands. Locks are held from the step that takes them to the end. */
  datatype Phase =
    | Creating(form: Form, perms: set<string>)                          // holds the feature lock
    | Inserting(feature: nat, rule: Rule)                               // has found no conflict and no draft
    | Starting(id: nat, feature: nat, perms: set<string>, reason: string)  // holds the feature lock
    | StartingRule(id: nat, feature: nat, perms: set<string>, reason: string)  // holds the rule lock as well
    | Enabling(id: nat, feature: nat)                                   // has found no conflict
    | Stopping(id: nat, reason: string)                                 // holds the rule lock

  datatype World = World(features: Features, rules: Rules, operators: map<nat, Phase>, nextId: nat)

  datatype Event =
    | LockToCreate(op: nat, form: Form, perms: set<string>)
    | DecideCreate(op: nat)
    | CommitInsert(op: nat)
    | LockToStart(op: nat, id: nat, perms: set<string>, reason: string)
    | LockRule(op: nat)
    | DecideStart(op: nat)
    | CommitEnable(op: nat)
    | LockToStop(op: nat, id: nat, reason: string)
    | CommitStop(op: nat)
    | Fail(op: nat)                                                      // any error: roll back, release

  function FeatureLock(p: Phase): Option<nat> {
    match p
    case Creating(form, _) => Some(form.feature)
    case Inserting(feature, _) => Some(feature)
    case Starting(_, feature, _, _) => Some(feature)
    case StartingRule(_, feature, _, _) => Some(feature)
    case Enabling(_, feature) => Some(feature)
    case Stopping(_, _) => None
  }

  function RuleLock(p: Phase): Option<nat> {
    match p
    case StartingRule(id, _, _, _) => Some(id)
    case Enabling(id, _) => Some(id)
    case Stopping(id, _) => Some(id)
    case _ => None
  }

  predicate FeatureFree(w: World, feature: nat) {
    forall op | op in w.operators :: FeatureLock(w.operators[op]) != Some(feature)
  }

  predicate RuleFree(w: World, id: nat) {
    forall op | op in w.operators :: RuleLock(w.operators[op]) != Some(id)
  }

  function Release(w: World, op: nat): World {
    w.(operators := w.operators - {op})
  }

  function Enter(w: World, op: nat, p: Phase): World {
    w.(operators := w.operators[op := p])
  }

  predicate Possible(w: World, e: Event) {
    match e
    case LockToCreate(op, form, _) => op !in w.operators && FeatureFree(w, form.feature)
    case LockToStart(op, id, _, _) => op !in w.operators && id in w.rules && FeatureFree(w, w.rules[id].feature)
    case LockToStop(op, id, _) => op !in w.operators && id in w.rules && RuleFree(w, id)
    case DecideCreate(op) => op in w.operators && w.operators[op].Creating?
    case CommitInsert(op) => op in w.operators && w.operators[op].Inserting?
    case LockRule(op) => op in w.operators && w.operators[op].Starting? && RuleFree(w, w.operators[op].id)
    case DecideStart(op) => op in w.operators && w.operators[op].StartingRule?
    case CommitEnable(op) => op in w.operators && w.operators[op].Enabling? && w.operators[op].id in w.rules
    case CommitStop(op) => op in w.operators && w.operators[op].Stopping? && w.operators[op].id in w.rules
    case Fail(op) => op in w.operators
  }

  function DecideCreateStep(w: World, reg: Registry, groups: map<nat, Group>, op: nat): World
    requires op in w.operators && w.operators[op].Creating?
  {
    var p := w.operators[op];
    var d := CreateDecision(reg, w.features, w.rules, groups, p.form, p.perms);
    if d.Insert? then Enter(w, op, Inserting(p.form.feature, d.rule)) else Release(w, op)
  }

  function DecideStartStep(w: World, reg: Registry, groups: map<nat, Group>, op: nat): World
    requires op in w.operators && w.operators[op].StartingRule?
  {
    var p := w.operators[op];
    if StartDecision(reg, w.features, w.rules, groups, p.id, p.perms, p.reason).Open?
    then Enter(w, op, Enabling(p.id, p.feature)) else Release(w, op)
  }

  function Step(w: World, reg: Registry, groups: map<nat, Group>, e: Event): World {
    if !Possible(w, e) then w
    else match e
      case LockToCreate(op, form, perms) => Enter(w, op, Creating(form, perms))
      case DecideCreate(op) => DecideCreateStep(w, reg, groups, op)
      case CommitInsert(op) =>
        Release(w, op).(rules := Added(w.rules, w.nextId, w.operators[op].feature, w.operators[op].rule), nextId := w.nextId + 1)
      case LockToStart(op, id, perms, reason) => Enter(w, op, Starting(id, w.rules[id].feature, perms, reason))
      case LockRule(op) =>
        var p := w.operators[op];
        Enter(w, op, StartingRule(p.id, p.feature, p.perms, p.reason))
      case DecideStart(op) => DecideStartStep(w, reg, groups, op)
      case CommitEnable(op) => Release(w, op).(rules := Switch(w.rules, w.operators[op].id, true))
      case LockToStop(op, id, reason) => Enter(w, op, Stopping(id, reason))
      case CommitStop(op) =>
        var p := w.operators[op];
        if StopDecision(reg, w.features, w.rules, p.id, p.reason).Open?
        then Release(w, op).(rules := Switch(w.rules, p.id, false)) else Release(w, op)
      case Fail(op) => Release(w, op)
  }

  function Run(w: World, reg: Registry, groups: map<nat, Group>, events: seq<Event>): World
    decreases |events|
  {
    if events == [] then w else Run(Step(w, reg, groups, events[0]), reg, groups, events[1..])
  }

  // ---------------------------------------------------------------- the invariant

  /** Off, then on, then off: at most one active interval. */
  predicate OneInterval(history: seq<bool>) {
    forall i, j, k | 0 <= i <= j <= k < |history| :: history[i] && history[k] ==> history[j]
  }

  predicate HistoriesSound(rules: Rules) {
    forall id | id in rules ::
      var row := rules[id];
      row.history != [] && row.history[|row.history| - 1] == row.rule.enabled && OneInterval(row.history)
  }

  predicate Scoped(rules: Rules, i: nat, j: nat)
    requires i in rules && j in rules
  {
    && rules[i].feature == rules[j].feature && rules[i].rule.enabled && rules[j].rule.enabled
    ==> !Overlap(rules[i].rule.page, rules[j].rule.page)
  }

  /** The enabled rules of every feature are pairwise page-disjoint. */
  predicate Disjoint(rules: Rules) {
    forall i, j | i in rules && j in rules && i != j :: Scoped(rules, i, j)
  }

  predicate Draft(row: RuleRow) { NeverStarted(row.history) }

  predicate SameDraft(rules: Rules, i: nat, j: nat)
    requires i in rules && j in rules
  {
    rules[i].feature == rules[j].feature && rules[i].rule == rules[j].rule && Draft(rules[i]) && Draft(rules[j])
  }

  /** No two never-started drafts of a feature have the same parameters, whatever their histories. */
  predicate DraftsDiffer(rules: Rules) {
    forall i, j | i in rules && j in rules && i != j :: !SameDraft(rules, i, j)
  }

  predicate LocksExclude(w: World) {
    && (forall p, q | p in w.operators && q in w.operators && p != q ::
          FeatureLock(w.operators[p]).Some? ==> FeatureLock(w.operators[p]) != FeatureLock(w.operators[q]))
    && (forall p, q | p in w.operators && q in w.operators && p != q ::
          RuleLock(w.operators[p]).Some? ==> RuleLock(w.operators[p]) != RuleLock(w.operators[q]))
  }

  /** What an operator has found stays true until it commits. */
  predicate PhaseHolds(rules: Rules, p: Phase) {
    match p
    case Inserting(feature, rule) =>
      if rule.enabled then Conflicts(rules, feature, rule.page) == {} else Drafts(rules, feature, rule) == {}
    case Starting(id, feature, _, _) => id in rules && rules[id].feature == feature
    case StartingRule(id, feature, _, _) => id in rules && rules[id].feature == feature
    case Enabling(id, feature) =>
      && id in rules && rules[id].feature == feature
      && !rules[id].rule.enabled && NeverStarted(rules[id].history)
      && Conflicts(rules, feature, rules[id].rule.page) - {id} == {}
    case Stopping(id, _) => id in rules
    case _ => true
  }

  predicate PhasesHold(w: World) {
    forall op | op in w.operators :: PhaseHolds(w.rules, w.operators[op])
  }

  predicate Sound(w: World) {
    && HistoriesSound(w.rules) && Disjoint(w.rules) && DraftsDiffer(w.rules)
    && LocksExclude(w) && PhasesHold(w)
    && (forall id | id in w.rules :: id < w.nextId)
  }

  // ---------------------------------------------------------------- locks

  lemma EnterKeepsLocks(w: World, op: nat, p: Phase)
    requires LocksExclude(w)
    requires FeatureLock(p).Some? ==>
               FeatureFree(w, FeatureLock(p).value) || (op in w.operators && FeatureLock(w.operators[op]) == FeatureLock(p))
    requires RuleLock(p).Some? ==>
               RuleFree(w, RuleLock(p).value) || (op in w.operators && RuleLock(w.operators[op]) == RuleLock(p))
    ensures LocksExclude(Enter(w, op, p))
  {
  }

  lemma ReleaseKeepsLocks(w: World, op: nat)
    requires LocksExclude(w)
    ensures LocksExclude(Release(w, op))
  {
  }

  lemma LocksStay(w: World, reg: Registry, groups: map<nat, Group>, e: Event)
    requires LocksExclude(w) && PhasesHold(w)
    ensures LocksExclude(Step(w, reg, groups, e))
  {
    hide LocksExclude, CreateDecision, StartDecision, StopDecision, Switch, Added, FeatureFree, RuleFree;
    if Possible(w, e) {
      match e
      case LockToCreate(op, form, perms) => EnterKeepsLocks(w, op, Creating(form, perms));
      case LockToStart(op, id, perms, reason) => EnterKeepsLocks(w, op, Starting(id, w.rules[id].feature, perms, reason));
      case LockToStop(op, id, reason) => EnterKeepsLocks(w, op, Stopping(id, reason));
      case LockRule(op) =>
        var p := w.operators[op];
        EnterKeepsLocks(w, op, StartingRule(p.id, p.feature, p.perms, p.reason));
      case DecideCreate(op) =>
        var p := w.operators[op];
        var d := CreateDecision(reg, w.features, w.rules, groups, p.form, p.perms);
        if d.Insert? { EnterKeepsLocks(w, op, Inserting(p.form.feature, d.rule)); } else { ReleaseKeepsLocks(w, op); }
      case DecideStart(op) =>
        EnterKeepsLocks(w, op, Enabling(w.operators[op].id, w.operators[op].feature));
        ReleaseKeepsLocks(w, op);
      case CommitInsert(op) => ReleaseKeepsTables(w, op, Step(w, reg, groups, e));
      case CommitEnable(op) => ReleaseKeepsTables(w, op, Step(w, reg, groups, e));
      case CommitStop(op) => ReleaseKeepsTables(w, op, Step(w, reg, groups, e));
      case Fail(op) => ReleaseKeepsLocks(w, op);
    }
  }

  lemma ReleaseKeepsTables(w: World, op: nat, w1: World)
    requires LocksExclude(w) && w1.operators == Release(w, op).operators
    ensures LocksExclude(w1)
  {
  }

  // ---------------------------------------------------------------- one table write

  lemma SwitchedHistory(history: seq<bool>, enabled: bool)
    requires history != [] && OneInterval(history)
    requires if enabled then NeverStarted(history) else history[|history| - 1]
    ensures OneInterval(history + [enabled])
  {
    var h := history + [enabled];
    assert forall i | 0 <= i < |history| :: h[i] == history[i] && h[i] in history;
    forall i, j, k | 0 <= i <= j <= k < |h| && h[i] && h[k] ensures h[j] {
      if !enabled { assert history[|history| - 1] && h[j] == history[j]; }
    }
  }

  lemma SingleInterval(enabled: bool)
    ensures OneInterval([enabled])
  {
  }

  lemma AddKeepsDisjoint(rules: Rules, id: nat, feature: nat, rule: Rule)
    requires Disjoint(rules) && id !in rules && (rule.enabled ==> Conflicts(rules, feature, rule.page) == {})
    ensures Disjoint(Added(rules, id, feature, rule))
  {
    var after := Added(rules, id, feature, rule);
    forall j | j in rules ensures Scoped(after, id, j) && Scoped(after, j, id) {
      assert j !in Conflicts(rules, feature, rule.page) || !rule.enabled;
    }
    forall i, j | i in after && j in after && i != j ensures Scoped(after, i, j) {
      if i in rules && j in rules { assert Scoped(rules, i, j); }
    }
  }

  lemma SwitchKeepsDisjoint(rules: Rules, id: nat, enabled: bool)
    requires Disjoint(rules) && id in rules
    requires enabled ==> Conflicts(rules, rules[id].feature, rules[id].rule.page) - {id} == {}
    ensures Disjoint(Switch(rules, id, enabled))
  {
    var after := Switch(rules, id, enabled);
    forall j | j in rules && j != id ensures Scoped(after, id, j) && Scoped(after, j, id) {
      assert j !in Conflicts(rules, rules[id].feature, rules[id].rule.page) - {id} || !enabled;
    }
    forall i, j | i in after && j in after && i != j ensures Scoped(after, i, j) {
      if i != id && j != id { assert Scoped(rules, i, j); }
    }
  }

  lemma AddKeepsDrafts(rules: Rules, id: nat, feature: nat, rule: Rule)
    requires DraftsDiffer(rules) && id !in rules && (!rule.enabled ==> Drafts(rules, feature, rule) == {})
    ensures DraftsDiffer(Added(rules, id, feature, rule))
  {
    var after := Added(rules, id, feature, rule);
    forall i, j | i in after && j in after && i != j ensures !SameDraft(after, i, j) {
      if i in rules && j in rules {
        assert !SameDraft(rules, i, j);
      } else {
        var k := if i in rules then i else j;
        assert k !in Drafts(rules, feature, rule) || rule.enabled;
      }
    }
  }

  lemma SwitchKeepsDrafts(rules: Rules, id: nat, enabled: bool)
    requires DraftsDiffer(rules) && id in rules && (enabled || true in rules[id].history)
    ensures DraftsDiffer(Switch(rules, id, enabled))
  {
    var after := Switch(rules, id, enabled);
    assert true in after[id].history by { assert after[id].history[|rules[id].history|] == enabled; }
    forall i, j | i in after && j in after && i != j ensures !SameDraft(after, i, j) {
      if i != id && j != id { assert !SameDraft(rules, i, j); }
    }
  }

  lemma PhaseSurvivesAdd(rules: Rules, id: nat, feature: nat, rule: Rule, p: Phase)
    requires PhaseHolds(rules, p) && id !in rules && FeatureLock(p) != Some(feature)
    ensures PhaseHolds(Added(rules, id, feature, rule), p)
  {
    var after := Added(rules, id, feature, rule);
    if p.Inserting? {
      assert Conflicts(after, p.feature, p.rule.page) == Conflicts(rules, p.feature, p.rule.page);
      assert Drafts(after, p.feature, p.rule) == Drafts(rules, p.feature, p.rule);
    } else if p.Enabling? {
      assert Conflicts(after, p.feature, rules[p.id].rule.page) == Conflicts(rules, p.feature, rules[p.id].rule.page);
    }
  }

  lemma StartedStays(history: seq<bool>, enabled: bool)
    requires enabled || true in history
    ensures !NeverStarted(history + [enabled])
  {
    assert (history + [enabled])[|history|] == enabled;
  }

  lemma PhaseSurvivesSwitch(rules: Rules, id: nat, enabled: bool, p: Phase)
    requires PhaseHolds(rules, p) && id in rules && RuleLock(p) != Some(id)
    requires enabled ==> FeatureLock(p) != Some(rules[id].feature)
    requires !enabled ==> true in rules[id].history
    ensures PhaseHolds(Switch(rules, id, enabled), p)
  {
    var after := Switch(rules, id, enabled);
    if p.Inserting? {
      assert Conflicts(after, p.feature, p.rule.page) <= Conflicts(rules, p.feature, p.rule.page);
      StartedStays(rules[id].history, enabled);
      forall k | k in Drafts(after, p.feature, p.rule) ensures k in Drafts(rules, p.feature, p.rule) {
        assert k != id ==> after[k] == rules[k];
      }
    } else if p.Enabling? {
      assert Conflicts(after, p.feature, rules[p.id].rule.page) <= Conflicts(rules, p.feature, rules[p.id].rule.page);
    }
  }

  // ---------------------------------------------------------------- one step

  /** What the step does to the rule table. */
  datatype Write = Nothing | Adds(feature: nat, rule: Rule) | Switches(id: nat, enabled: bool)

  function WriteOf(w: World, reg: Registry, e: Event): Write {
    if !Possible(w, e) then Nothing
    else match e
      case CommitInsert(op) => Adds(w.operators[op].feature, w.operators[op].rule)
      case CommitEnable(op) => Switches(w.operators[op].id, true)
      case CommitStop(op) =>
        var p := w.operators[op];
        if StopDecision(reg, w.features, w.rules, p.id, p.reason).Open? then Switches(p.id, false) else Nothing
      case _ => Nothing
  }

  /** A step writes only under the locks and findings its write needs. */
  lemma WritesAreCovered(w: World, reg: Registry, groups: map<nat, Group>, e: Event)
    requires HistoriesSound(w.rules) && PhasesHold(w)
    ensures var w1, write := Step(w, reg, groups, e), WriteOf(w, reg, e);
            match write
            case Nothing => w1.rules == w.rules && w1.nextId == w.nextId
            case Adds(feature, rule) =>
              && w1.rules == Added(w.rules, w.nextId, feature, rule) && w1.nextId == w.nextId + 1
              && FeatureLock(w.operators[e.op]) == Some(feature)
              && (if rule.enabled then Conflicts(w.rules, feature, rule.page) == {} else Drafts(w.rules, feature, rule) == {})
            case Switches(id, enabled) =>
              && id in w.rules && w1.rules == Switch(w.rules, id, enabled) && w1.nextId == w.nextId
              && RuleLock(w.operators[e.op]) == Some(id)
              && (if enabled
                  then && FeatureLock(w.operators[e.op]) == Some(w.rules[id].feature) && NeverStarted(w.rules[id].history)
                       && Conflicts(w.rules, w.rules[id].feature, w.rules[id].rule.page) - {id} == {}
                  else w.rules[id].history[|w.rules[id].history| - 1])
    ensures WriteOf(w, reg, e) != Nothing ==>
              e.op in w.operators && Step(w, reg, groups, e).operators == w.operators - {e.op}
  {
    hide CreateDecision, StartDecision, Switch, Added, Conflicts, Drafts, NeverStarted, OneInterval, FeatureFree, RuleFree;
    hide Available, LongReason, Clean;
    if Possible(w, e) && e.op in w.operators { assert PhaseHolds(w.rules, w.operators[e.op]); }
  }

  lemma TablesStaySound(w: World, reg: Registry, groups: map<nat, Group>, e: Event)
    requires Sound(w)
    ensures var rules := Step(w, reg, groups, e).rules;
            HistoriesSound(rules) && Disjoint(rules) && DraftsDiffer(rules)
    ensures forall id | id in Step(w, reg, groups, e).rules :: id < Step(w, reg, groups, e).nextId
  {
    hide Step, WriteOf, Disjoint, DraftsDiffer, LocksExclude, OneInterval, Conflicts, Drafts;
    WritesAreCovered(w, reg, groups, e);
    match WriteOf(w, reg, e)
    case Nothing =>
    case Adds(feature, rule) =>
      AddKeepsDisjoint(w.rules, w.nextId, feature, rule);
      AddKeepsDrafts(w.rules, w.nextId, feature, rule);
      SingleInterval(rule.enabled);
    case Switches(id, enabled) =>
      var history := w.rules[id].history;
      if !enabled { assert history[|history| - 1] in history; }
      SwitchedHistory(history, enabled);
      SwitchKeepsDisjoint(w.rules, id, enabled);
      SwitchKeepsDrafts(w.rules, id, enabled);
  }

  /** Another operator's step cannot spoil what this one has found. */
  lemma OthersPhasesStay(w: World, reg: Registry, groups: map<nat, Group>, e: Event, op: nat)
    requires Sound(w) && op in w.operators
    requires WriteOf(w, reg, e) != Nothing && op != e.op
    ensures PhaseHolds(Step(w, reg, groups, e).rules, w.operators[op])
  {
    hide Step, WriteOf, Disjoint, DraftsDiffer, OneInterval, Conflicts, Drafts, PhaseHolds;
    WritesAreCovered(w, reg, groups, e);
    var p := w.operators[op];
    match WriteOf(w, reg, e)
    case Adds(feature, rule) => PhaseSurvivesAdd(w.rules, w.nextId, feature, rule, p);
    case Switches(id, enabled) =>
      var history := w.rules[id].history;
      if !enabled { assert history[|history| - 1] in history; }
      PhaseSurvivesSwitch(w.rules, id, enabled, p);
  }

  /** A decision that lets an operator go on has found what its next phase needs. */
  lemma OwnPhaseHolds(w: World, reg: Registry, groups: map<nat, Group>, e: Event, op: nat)
    requires PhasesHold(w) && WriteOf(w, reg, e) == Nothing && op in Step(w, reg, groups, e).operators
    ensures PhaseHolds(Step(w, reg, groups, e).rules, Step(w, reg, groups, e).operators[op])
  {
    hide FeatureFree, RuleFree, Conflicts, Drafts, NeverStarted, TargetingError, AudienceError, Clean, LongReason, Available;
    if op in w.operators { assert PhaseHolds(w.rules, w.operators[op]); }
    if e.DecideCreate? && Possible(w, e) { RuleKeepsForm(w.features, w.operators[e.op].form); }
  }

  lemma RuleKeepsForm(features: Features, form: Form)
    ensures form.feature in features ==>
              var rule := RuleFor(features[form.feature].key, form);
              rule.enabled == form.enabled && rule.page == form.page
  {
  }

  lemma StepStaysSound(w: World, reg: Registry, groups: map<nat, Group>, e: Event)
    requires Sound(w)
    ensures Sound(Step(w, reg, groups, e))
  {
    hide Step, WriteOf, HistoriesSound, Disjoint, DraftsDiffer, LocksExclude, PhaseHolds;
    var w1 := Step(w, reg, groups, e);
    TablesStaySound(w, reg, groups, e);
    LocksStay(w, reg, groups, e);
    WritesAreCovered(w, reg, groups, e);
    forall op | op in w1.operators ensures PhaseHolds(w1.rules, w1.operators[op]) {
      if WriteOf(w, reg, e) == Nothing {
        OwnPhaseHolds(w, reg, groups, e, op);
      } else {
        OthersPhasesStay(w, reg, groups, e, op);
      }
    }
  }

  // ---------------------------------------------------------------- main results

  /** However operators interleave, and even if stopping takes no feature lock: the enabled rules
      of each feature stay page-disjoint, each rule has at most one active interval, and no two
      never-started drafts are alike. */
  lemma {:induction false} EveryRunIsSound(w: World, reg: Registry, groups: map<nat, Group>, events: seq<Event>)
    requires Sound(w)
    ensures Sound(Run(w, reg, groups, events))
    decreases |events|
  {
    hide Step, Sound;
    if events != [] {
      StepStaysSound(w, reg, groups, events[0]);
      EveryRunIsSound(Step(w, reg, groups, events[0]), reg, groups, events[1..]);
    }
  }

  /** Some listing of a feature's rules, each row once. */
  predicate Lists(rules: Rules, feature: nat, ids: seq<nat>) {
    && (forall i | 0 <= i < |ids| :: ids[i] in rules && rules[ids[i]].feature == feature)
    && (forall i, j | 0 <= i < j < |ids| :: ids[i] != ids[j])
    && (forall id | id in rules && rules[id].feature == feature :: id in ids)
  }

  function Listed(rules: Rules, ids: seq<nat>): (r: seq<Rule>)
    requires forall i | 0 <= i < |ids| :: ids[i] in rules
    ensures |r| == |ids|
  {
    seq(|ids|, i requires 0 <= i < |ids| => rules[ids[i]].rule)
  }

  lemma ListingIsDisjoint(rules: Rules, feature: nat, ids: seq<nat>)
    requires Disjoint(rules) && Lists(rules, feature, ids)
    ensures PageDisjoint(Listed(rules, ids))
  {
    var listed := Listed(rules, ids);
    forall i, j | 0 <= i < j < |listed| && listed[i].enabled && listed[j].enabled
      ensures !Overlap(listed[i].page, listed[j].page)
    {
      assert Scoped(rules, ids[i], ids[j]);
    }
  }

  lemma ListingsAgree(rules: Rules, feature: nat, ids: seq<nat>, others: seq<nat>)
    requires Lists(rules, feature, ids) && Lists(rules, feature, others)
    ensures SameRules(Listed(rules, ids), Listed(rules, others))
  {
    var a, b := Listed(rules, ids), Listed(rules, others);
    forall r | r in a ensures r in b {
      var i :| 0 <= i < |a| && a[i] == r;
      assert ids[i] in others;
      var j :| 0 <= j < |others| && others[j] == ids[i];
      assert b[j] == r;
    }
    forall r | r in b ensures r in a {
      var i :| 0 <= i < |b| && b[i] == r;
      assert others[i] in ids;
      var j :| 0 <= j < |ids| && ids[j] == others[i];
      assert a[j] == r;
    }
  }

  /** So whatever operators have done through guided rollouts, evaluation does not depend on the
      order in which a flag's rules are read. */
  lemma RolloutsMakeOrderIrrelevant(w: World, reg: Registry, groups: map<nat, Group>, events: seq<Event>,
                                    env: FlagEnv, f: Feature, feature: nat, ids: seq<nat>, others: seq<nat>,
                                    a: Assignments, c: Context)
    requires Sound(w)
    requires var rules := Run(w, reg, groups, events).rules;
             Lists(rules, feature, ids) && Lists(rules, feature, others)
    ensures var rules := Run(w, reg, groups, events).rules;
            Evaluate(env, f.(rules := Listed(rules, ids)), a, c) == Evaluate(env, f.(rules := Listed(rules, others)), a, c)
  {
    hide Run, Evaluate, Disjoint, PageDisjoint, SameRules;
    EveryRunIsSound(w, reg, groups, events);
    var rules := Run(w, reg, groups, events).rules;
    assert Disjoint(rules);
    ListingIsDisjoint(rules, feature, ids);
    ListingsAgree(rules, feature, ids, others);
    var listed := f.(rules := Listed(rules, ids));
    OrderCannotMatter(env, listed, Listed(rules, others), a, c);
    assert listed.(rules := Listed(rules, others)) == f.(rules := Listed(rules, others));
  }
}
