/** The steps of operators are the service's operations taken apart: run without interruption, they end as
    the operation does. */
module RolloutSteps {
  import opened Prelude
  import opened R = FlagRegistry
  import opened E = FlagEvaluation
  import opened Rollouts
  import opened RolloutRaces

  lemma RunFirst(w: World, reg: Registry, groups: map<nat, Group>, e: Event, rest: seq<Event>)
    ensures Run(w, reg, groups, [e] + rest) == Run(Step(w, reg, groups, e), reg, groups, rest)
  {
    hide Step;
    assert ([e] + rest)[1..] == rest;
  }

  lemma RunTwo(w: World, reg: Registry, groups: map<nat, Group>, a: Event, b: Event)
    ensures Run(w, reg, groups, [a, b]) == Step(Step(w, reg, groups, a), reg, groups, b)
  {
    hide Step;
    assert [a, b] == [a] + ([b] + []);
    RunFirst(w, reg, groups, a, [b] + []);
    RunFirst(Step(w, reg, groups, a), reg, groups, b, []);
  }

  lemma RunThree(w: World, reg: Registry, groups: map<nat, Group>, a: Event, b: Event, c: Event)
    ensures Run(w, reg, groups, [a, b, c]) == Step(Step(Step(w, reg, groups, a), reg, groups, b), reg, groups, c)
  {
    hide Step, Run;
    assert [a, b, c] == [a] + [b, c];
    RunFirst(w, reg, groups, a, [b, c]);
    RunTwo(Step(w, reg, groups, a), reg, groups, b, c);
  }

  lemma RunFour(w: World, reg: Registry, groups: map<nat, Group>, a: Event, b: Event, c: Event, d: Event)
    ensures Run(w, reg, groups, [a, b, c, d])
         == Step(Step(Step(Step(w, reg, groups, a), reg, groups, b), reg, groups, c), reg, groups, d)
  {
    hide Step, Run;
    assert [a, b, c, d] == [a] + [b, c, d];
    RunFirst(w, reg, groups, a, [b, c, d]);
    RunThree(Step(w, reg, groups, a), reg, groups, b, c, d);
  }

  /** An operator who starts when the feature's lock is free, alone, creates what the service decides. */
  lemma UninterruptedIsCreate(w: World, reg: Registry, groups: map<nat, Group>, op: nat, form: Form, perms: set<string>)
    requires op !in w.operators && FeatureFree(w, form.feature)
    ensures var w1 := Run(w, reg, groups, [LockToCreate(op, form, perms), DecideCreate(op), CommitInsert(op)]);
            var d := CreateDecision(reg, w.features, w.rules, groups, form, perms);
            w1 == if d.Insert? then w.(rules := Added(w.rules, w.nextId, form.feature, d.rule), nextId := w.nextId + 1) else w
  {
    RunThree(w, reg, groups, LockToCreate(op, form, perms), DecideCreate(op), CommitInsert(op));
    hide Run, CreateDecision, Added, FeatureFree;
    assert w.operators[op := Creating(form, perms)] - {op} == w.operators;
    var d := CreateDecision(reg, w.features, w.rules, groups, form, perms);
    if d.Insert? {
      var p := Inserting(form.feature, d.rule);
      assert w.operators[op := Creating(form, perms)][op := p] - {op} == w.operators;
    }
  }

  /** Likewise for starting, when the rule's lock is free as well. */
  lemma UninterruptedIsStart(w: World, reg: Registry, groups: map<nat, Group>, op: nat, id: nat, perms: set<string>,
                             reason: string)
    requires op !in w.operators && id in w.rules && FeatureFree(w, w.rules[id].feature) && RuleFree(w, id)
    ensures var w1 := Run(w, reg, groups, [LockToStart(op, id, perms, reason), LockRule(op), DecideStart(op), CommitEnable(op)]);
            w1 == if StartDecision(reg, w.features, w.rules, groups, id, perms, reason).Open?
                  then w.(rules := Switch(w.rules, id, true)) else w
  {
    hide Run, Step, StartDecision, Switch, FeatureFree, RuleFree;
    RunFour(w, reg, groups, LockToStart(op, id, perms, reason), LockRule(op), DecideStart(op), CommitEnable(op));
    StartingLocks(w, reg, groups, op, id, perms, reason);
    StartingCommits(w, reg, groups, op, id, perms, reason);
  }

  lemma StartingCommits(w: World, reg: Registry, groups: map<nat, Group>, op: nat, id: nat, perms: set<string>, reason: string)
    requires op !in w.operators && id in w.rules
    ensures var locked := w.(operators := w.operators[op := StartingRule(id, w.rules[id].feature, perms, reason)]);
            Step(Step(locked, reg, groups, DecideStart(op)), reg, groups, CommitEnable(op))
              == if StartDecision(reg, w.features, w.rules, groups, id, perms, reason).Open?
                 then w.(rules := Switch(w.rules, id, true)) else w
  {
    hide StartDecision, CreateDecision, StopDecision, Switch, Added;
    var locked := w.operators[op := StartingRule(id, w.rules[id].feature, perms, reason)];
    assert locked - {op} == w.operators;
    assert locked[op := Enabling(id, w.rules[id].feature)] - {op} == w.operators;
  }

  lemma StartingLocks(w: World, reg: Registry, groups: map<nat, Group>, op: nat, id: nat, perms: set<string>, reason: string)
    requires op !in w.operators && id in w.rules && FeatureFree(w, w.rules[id].feature) && RuleFree(w, id)
    ensures Step(Step(w, reg, groups, LockToStart(op, id, perms, reason)), reg, groups, LockRule(op))
         == w.(operators := w.operators[op := StartingRule(id, w.rules[id].feature, perms, reason)])
  {
    hide StartDecision, CreateDecision, StopDecision, Switch, Added;
    var first := w.operators[op := Starting(id, w.rules[id].feature, perms, reason)];
    assert first[op := StartingRule(id, w.rules[id].feature, perms, reason)]
        == w.operators[op := StartingRule(id, w.rules[id].feature, perms, reason)];
  }

  /** And for stopping. */
  lemma UninterruptedIsStop(w: World, reg: Registry, groups: map<nat, Group>, op: nat, id: nat, reason: string)
    requires op !in w.operators && id in w.rules && RuleFree(w, id)
    ensures var w1 := Run(w, reg, groups, [LockToStop(op, id, reason), CommitStop(op)]);
            w1 == if StopDecision(reg, w.features, w.rules, id, reason).Open? then w.(rules := Switch(w.rules, id, false)) else w
  {
    RunTwo(w, reg, groups, LockToStop(op, id, reason), CommitStop(op));
    hide Run, StopDecision, Switch, RuleFree;
    assert w.operators[op := Stopping(id, reason)] - {op} == w.operators;
  }

  /** An operation that takes its locks and fails leaves everything as it was, its locks free again. */
  lemma FailedIsNothing(w: World, reg: Registry, groups: map<nat, Group>, op: nat, e: Event)
    requires op !in w.operators
    requires e.LockToCreate? || e.LockToStart? || e.LockToStop?
    requires e.op == op
    ensures Step(Step(w, reg, groups, e), reg, groups, Fail(op)) == w
  {
    hide CreateDecision, StartDecision, StopDecision, Switch, Added, FeatureFree, RuleFree;
    if op in Step(w, reg, groups, e).operators {
      assert Step(w, reg, groups, e).operators - {op} == w.operators;
    }
  }
}
