/** One admin login from beginning to end: exactly when it leaves a session verified. */
module AdminMfaLogin {
  import opened Prelude
  import opened W = WebAuthn
  import opened M = AdminMfa
  import opened AdminMfaRuns
  import opened AdminMfaOutcomes

  lemma RunFirst(w: World, settings: Settings, e: Event, rest: seq<Event>)
    ensures Run(w, settings, [e] + rest) == Run(Step(w, settings, e), settings, rest)
  {
    hide Step;
    assert ([e] + rest)[1..] == rest;
  }

  lemma RunThree(w: World, settings: Settings, a: Event, b: Event, c: Event)
    ensures Run(w, settings, [a, b, c]) == Step(Step(Step(w, settings, a), settings, b), settings, c)
  {
    hide Step;
    assert [a, b, c] == [a] + ([b] + ([c] + []));
    var w1 := Step(w, settings, a);
    RunFirst(w, settings, a, [b] + ([c] + []));
    RunFirst(w1, settings, b, [c] + []);
    RunFirst(Step(w1, settings, b), settings, c, []);
  }

  /** The password stage of user in a new session, and a pause. */
  function Stage(user: int, next: Value, flow: string, pause: real): seq<Event> {
    [Load(0, 0), PasswordStage(0, user, next, flow), Tick(pause)]
  }

  /** The second stage: the flow is loaded, a factor verified, and the login completed. */
  function Finish(factor: Factor): seq<Event> {
    [LoadPending(0), VerifyFactor(0, factor), CompleteLogin(0, Open(()))]
  }

  /** What the password stage of an eligible account leaves. */
  function Staged(db: Db, now: real, user: int, next: Value, flow: string, pause: real): World {
    World(map[], map[0 := Request(0, map[PENDING_KEY := PendingValue(user, now, next, flow)], None)], db, now + pause,
          [Started(0, user, now, flow)], [])
  }

  lemma StageRun(db: Db, settings: Settings, now: real, user: int, next: Value, flow: string, pause: real)
    requires |flow| >= 16 && pause >= 0.0
    ensures var w := Run(Initial(db, now), settings, Stage(user, next, flow, pause));
            w == if Eligible(db, user) then Staged(db, now, user, next, flow, pause)
                 else Initial(db, now).(requests := map[0 := Request(0, map[], None)], now := now + pause)
  {
    EligibleExactly(db, user);
    RunThree(Initial(db, now), settings, Load(0, 0), PasswordStage(0, user, next, flow), Tick(pause));
    hide Run, PendingValue, ActiveStaff, HasPrimary, Eligible;
    assert ClearAll(map[]) == map[];
  }

  /** The flow as the second stage loads it. */
  lemma LoadedFlow(db: Db, settings: Settings, now: real, user: int, next: Value, flow: string, pause: real)
    requires |flow| >= 16 && pause >= 0.0 && Eligible(db, user)
    ensures var w := Staged(db, now, user, next, flow, pause);
            var w1 := Step(w, settings, LoadPending(0));
            && 0 in w1.requests && w1.done == [] && w1.db == db && w1.now == now + pause
            && (if pause <= settings.pendingTtl as real
                then w1.requests[0] == w.requests[0].(loaded := Some(Loaded(Pending(user, now, next, flow), now + pause, None)))
                else w1.requests[0].loaded == None && NothingLeft(w1.requests[0].store))
  {
    EligibleExactly(db, user);
    var w := Staged(db, now, user, next, flow, pause);
    PendingReadsBackExactly(w.requests[0].store, db, user, now, next, flow, settings.pendingTtl, now + pause);
    hide PendingValue, ReadPending, ActiveStaff, HasPrimary, Eligible;
  }

  /** Neither a pending flow nor an assurance is there. */
  predicate NothingLeft(s: Entries) {
    PENDING_KEY !in s && ASSURANCE_KEY !in s
  }

  lemma Completes(w: World, settings: Settings, user: int, factor: Factor, visitor: Visitor)
    requires 0 in w.requests && w.requests[0].loaded.Some? && w.requests[0].loaded.value.pending.user == user && w.done == []
    requires Eligible(w.db, user) && factor in w.db.factors && factor.user == user && MethodFor(factor.kind).Some?
    requires visitor == Visitor(user, true, true, true)
    ensures var w1 := Step(Step(w, settings, VerifyFactor(0, factor)), settings, CompleteLogin(0, Open(())));
            && 0 in w1.requests && |w1.done| == 1 && w1.now == w.now && PENDING_KEY !in w1.requests[0].store
            && ReadsVerified(w1.requests[0].store, Some(visitor), settings.assuranceTtl, w1.now)
  {
    var l, means := w.requests[0].loaded.value, MethodFor(factor.kind).value;
    CompletedExactly(w.requests[0].store, w.db, l.pending, factor, means, Open(()), w.now);
    CompletedLogin(w.requests[0].store, w.db, l.pending, factor, means, w.now, visitor, settings.assuranceTtl);
    hide Completed, ReadsVerified, Eligible, AssuranceValue, Without, StartOf;
  }

  lemma StaysOut(w: World, settings: Settings, factor: Factor)
    requires 0 in w.requests && w.requests[0].loaded.None?
    ensures Step(Step(w, settings, VerifyFactor(0, factor)), settings, CompleteLogin(0, Open(()))) == w
  {
  }

  /** A user gives the right password in a new session, pauses, and verifies a factor of their own: the session
      is verified for them exactly if the account is eligible and the pause no longer than a pending flow lasts,
      and in any case nothing of the flow is left. */
  lemma LoginExactly(db: Db, settings: Settings, now: real, user: int, next: Value, flow: string, pause: real, factor: Factor)
    requires |flow| >= 16 && pause >= 0.0
    requires factor in db.factors && factor.user == user && MethodFor(factor.kind).Some?
    ensures var w := Run(Run(Initial(db, now), settings, Stage(user, next, flow, pause)), settings, Finish(factor));
            && 0 in w.requests && var through := Eligible(db, user) && pause <= settings.pendingTtl as real;
            && ReadsVerified(w.requests[0].store, Some(Visitor(user, true, true, true)), settings.assuranceTtl, w.now) == through
            && |w.done| == (if through then 1 else 0)
            && PENDING_KEY !in w.requests[0].store
  {
    StageRun(db, settings, now, user, next, flow, pause);
    var w := Run(Initial(db, now), settings, Stage(user, next, flow, pause));
    var visitor := Visitor(user, true, true, true);
    RunThree(w, settings, LoadPending(0), VerifyFactor(0, factor), CompleteLogin(0, Open(())));
    var w1 := Step(w, settings, LoadPending(0));
    if Eligible(db, user) {
      LoadedFlow(db, settings, now, user, next, flow, pause);
      if pause <= settings.pendingTtl as real { Completes(w1, settings, user, factor, visitor); }
    } else {
      NothingToLoad(w, settings);
    }
    hide Run, Step, Eligible, MethodFor, Staged;
    if !(Eligible(db, user) && pause <= settings.pendingTtl as real) { StaysOut(w1, settings, factor); }
  }

  lemma NothingToLoad(w: World, settings: Settings)
    requires 0 in w.requests && w.requests[0].store == map[] && w.done == []
    ensures var w1 := Step(w, settings, LoadPending(0));
            0 in w1.requests && w1.requests[0].loaded == None && NothingLeft(w1.requests[0].store) && w1.done == []
  {
  }
}
