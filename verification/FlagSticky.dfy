/** Sticky assignments: a rule's answer, once stored, stays the answer while everything around
    it is edited. */
module FlagSticky {
  import opened Prelude
  import opened R = FlagRegistry
  import opened E = FlagEvaluation

  // ---------------------------------------------------------------- the stored text

  /** A value read back from its stored text. */
  predicate ReadsBack(env: FlagEnv, f: Feature, v: FlagValue) {
    Validated(env, f, S(StrOf(v))) == Some(v)
  }

  /** Storing `str(value)` and validating it again gives the value back, except for one family: a
      boolean definition of a flag registered as a variant, whose variants do not include the
      text Python gives that boolean. */
  lemma ReadsBackExactly(env: FlagEnv, f: Feature, x: FlagValue, v: FlagValue)
    requires Validated(env, f, x) == Some(v)
    ensures ReadsBack(env, f, v) <==>
              !(f.kind == "boolean" && env.reg[f.key].kind != "boolean" && StrOf(v) !in Texts(env.reg[f.key].variants))
  {
    hide Spelled;
    SpelledGround();
  }

  /** So it always does when the definition's kind is the registered one. */
  lemma MatchingKindReadsBack(env: FlagEnv, f: Feature, x: FlagValue, v: FlagValue)
    requires Validated(env, f, x) == Some(v) && f.kind == env.reg[f.key].kind
    ensures ReadsBack(env, f, v)
  {
    hide ValidValue, Coerce, ReadsBack;
    ReadsBackExactly(env, f, x, v);
  }

  lemma SpelledOn()
    ensures Spelled("on") == Some(true)
  {
    assert Lower("on") == "on";
    SpelledWord("on", "on");
  }

  /** One of that family: the variants "on" and "off" under a boolean definition. */
  lemma MismatchForgets(env: FlagEnv, f: Feature)
    requires f.kind == "boolean" && f.key in env.reg && env.reg[f.key].kind == "variant"
    requires env.reg[f.key].variants == [S("on"), S("off")]
    ensures Validated(env, f, S("on")) == Some(B(true))
    ensures Validated(env, f, S(StrOf(B(true)))) == None
  {
    hide Spelled, Lower;
    SpelledGround();
    SpelledOn();
    assert S("on") in env.reg[f.key].variants;
  }

  // ---------------------------------------------------------------- one later visit

  /** No preview and no stored override decides this visit. */
  predicate Unoverridden(env: FlagEnv, f: Feature, c: Context) {
    PreviewValue(env, f, c).None? && OverrideValue(env, f, c).None?
  }

  /** The slot holds a value that reads back. */
  predicate Holds(env: FlagEnv, f: Feature, a: Assignments, slot: AssignKey, v: FlagValue) {
    slot in a && a[slot] == StrOf(v) && ReadsBack(env, f, v) && StickyOn(env, f) && f.key in env.reg
  }

  /** A rule's answer that is stored is held. */
  lemma RuleAnswerIsHeld(env: FlagEnv, f: Feature, a: Assignments, c: Context)
    requires Evaluate(env, f, a, c).source.ByRule? && Slot(env, f, c).Some?
    requires f.key in env.reg && f.kind == env.reg[f.key].kind
    ensures var e := Evaluate(env, f, a, c);
            Holds(env, f, e.assignments, Slot(env, f, c).value, e.value)
  {
    hide RuleMatches, RuleResult, Validated, PolicyAllows, ReadsBack;
    FirstRuleIsOne(env, f, f.rules, c);
    var e := Evaluate(env, f, a, c);
    assert e.source.ByRule?;
    MatchingKindReadsBack(env, f, RuleResult(env, f, e.source.rule), e.value);
  }

  /** Under any later edits of rules, overrides, defaults and groups, a visit to that slot that no
      override decides answers the held value and writes nothing. */
  lemma HeldAnswers(env: FlagEnv, f: Feature, a: Assignments, c: Context, slot: AssignKey, v: FlagValue)
    requires Holds(env, f, a, slot, v) && Slot(env, f, c) == Some(slot) && Unoverridden(env, f, c)
    ensures Evaluate(env, f, a, c) == Evaluation(v, Cached, StickyRow, a)
  {
    hide Validated, FirstRule, PreviewValue, OverrideValue, IsGuarded;
  }

  /** No visit at all disturbs a held slot. */
  lemma VisitKeepsHeld(env: FlagEnv, f: Feature, a: Assignments, c: Context, slot: AssignKey, v: FlagValue)
    requires Holds(env, f, a, slot, v)
    ensures Holds(env, f, Evaluate(env, f, a, c).assignments, slot, v)
  {
    hide PreviewValue, OverrideValue, FirstRule, ReadsBack;
    if Slot(env, f, c) == Some(slot) && Unoverridden(env, f, c) {
      HeldAnswers(env, f, a, c, slot, v);
    }
  }

  // ---------------------------------------------------------------- whole runs

  datatype World = World(env: FlagEnv, flag: Feature, assignments: Assignments)

  datatype Event =
    | Visit(c: Context)
    | Edit(rules: seq<Rule>, overrides: seq<Override>, defaultValue: string)
    | Regroup(groups: map<nat, Group>)

  function Step(w: World, e: Event): World {
    match e
    case Visit(c) => w.(assignments := Evaluate(w.env, w.flag, w.assignments, c).assignments)
    case Edit(rules, overrides, defaultValue) =>
      w.(flag := w.flag.(rules := rules, overrides := overrides, defaultValue := defaultValue))
    case Regroup(groups) => w.(env := w.env.(groups := groups))
  }

  function Run(w: World, events: seq<Event>): World
    decreases |events|
  {
    if events == [] then w else Run(Step(w, events[0]), events[1..])
  }

  /** Every visit to the slot in the run answers v, unless a preview or an override decides it. */
  predicate Steady(w: World, events: seq<Event>, slot: AssignKey, v: FlagValue)
    decreases |events|
  {
    events == [] ||
    (&& (events[0].Visit? && Slot(w.env, w.flag, events[0].c) == Some(slot) ==>
           var e := Evaluate(w.env, w.flag, w.assignments, events[0].c);
           e.source.Preview? || e.source.DbOverride? || (e.value == v && e.assignments == w.assignments))
     && Steady(Step(w, events[0]), events[1..], slot, v))
  }

  predicate HeldIn(w: World, slot: AssignKey, v: FlagValue) {
    Holds(w.env, w.flag, w.assignments, slot, v)
  }

  lemma StepKeepsHeld(w: World, e: Event, slot: AssignKey, v: FlagValue)
    requires HeldIn(w, slot, v)
    ensures HeldIn(Step(w, e), slot, v)
  {
    hide Evaluate, ValidValue;
    if e.Visit? { VisitKeepsHeld(w.env, w.flag, w.assignments, e.c, slot, v); }
  }

  lemma VisitIsSteady(w: World, c: Context, slot: AssignKey, v: FlagValue)
    requires HeldIn(w, slot, v) && Slot(w.env, w.flag, c) == Some(slot)
    ensures var e := Evaluate(w.env, w.flag, w.assignments, c);
            e.source.Preview? || e.source.DbOverride? || (e.value == v && e.assignments == w.assignments)
  {
    hide PreviewValue, OverrideValue, FirstRule, Holds;
    if Unoverridden(w.env, w.flag, c) { HeldAnswers(w.env, w.flag, w.assignments, c, slot, v); }
  }

  lemma {:induction false} HeldRunIsSteady(w: World, events: seq<Event>, slot: AssignKey, v: FlagValue)
    requires HeldIn(w, slot, v)
    ensures Steady(w, events, slot, v) && HeldIn(Run(w, events), slot, v)
    decreases |events|
  {
    hide Evaluate, HeldIn, Step, Slot;
    if events != [] {
      if events[0].Visit? && Slot(w.env, w.flag, events[0].c) == Some(slot) { VisitIsSteady(w, events[0].c, slot, v); }
      StepKeepsHeld(w, events[0], slot, v);
      HeldRunIsSteady(Step(w, events[0]), events[1..], slot, v);
    }
  }

  /** Once a rule has answered a visitor whose assignment is kept, every later visit of that
      visitor to that page gives the same answer, through any edits and any other visits, except
      where a preview or a stored override decides; and the stored row never changes. */
  lemma AnswersStick(w: World, c: Context, events: seq<Event>)
    requires w.flag.key in w.env.reg && w.flag.kind == w.env.reg[w.flag.key].kind
    requires Slot(w.env, w.flag, c).Some? && Evaluate(w.env, w.flag, w.assignments, c).source.ByRule?
    ensures var slot, v := Slot(w.env, w.flag, c).value, Evaluate(w.env, w.flag, w.assignments, c).value;
            && Steady(Step(w, Visit(c)), events, slot, v)
            && slot in Run(Step(w, Visit(c)), events).assignments
            && Run(Step(w, Visit(c)), events).assignments[slot] == StrOf(v)
  {
    hide Evaluate, Steady, Run, Slot;
    RuleAnswerIsHeld(w.env, w.flag, w.assignments, c);
    HeldRunIsSteady(Step(w, Visit(c)), events, Slot(w.env, w.flag, c).value, Evaluate(w.env, w.flag, w.assignments, c).value);
  }
}
