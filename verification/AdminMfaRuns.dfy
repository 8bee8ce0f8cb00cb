/** Admin assurance over whole runs of concurrent requests on session copies: what must have
    happened before a session counts as verified. */
module AdminMfaRuns {
  import opened Prelude
  import opened Decimals
  import opened W = WebAuthn
  import opened M = AdminMfa

  /** A password stage that started a pending flow. */
  datatype Started = Started(sid: nat, user: int, at: real, flow: string)

  /** A completed login: in which session, from which start, loaded when, with which factor, and
      the database it was checked against. */
  datatype Done = Done(sid: nat, user: int, at: real, start: nat, loadedAt: real, factor: Factor, means: string, db: Db)

  /** A pending flow as a request loaded it, and the factor the request then verified. */
  datatype Loaded = Loaded(pending: Pending, at: real, factor: Option<Factor>)

  datatype Request = Request(sid: nat, store: Entries, loaded: Option<Loaded>)

  datatype World = World(saved: map<nat, Entries>, requests: map<nat, Request>, db: Db, now: real,
                         starts: seq<Started>, done: seq<Done>)

  datatype Event =
    | Tick(elapsed: real)
    | EditDb(db: Db)                                    // roles and factors change at any time
    | Load(rid: nat, sid: nat)
    | Work(rid: nat, store: Entries)                    // application code, logins and logouts included
    | Save(rid: nat)                                    // the whole copy: last write wins
    | PasswordStage(rid: nat, user: int, next: Value, flow: string)
    | LoadPending(rid: nat)
    | VerifyFactor(rid: nat, factor: Factor)            // the library accepted this factor
    | CompleteLogin(rid: nat, rotated: Gate<()>)
    | Abort(rid: nat)
    | CheckVerified(rid: nat, visitor: Option<Visitor>)

  /** The two lifetimes, in seconds. */
  datatype Settings = Settings(pendingTtl: nat, assuranceTtl: nat)

  /** Application code may drop a pending flow or an assurance, but never writes one. */
  predicate KeepsMfa(s: Entries, t: Entries) {
    && (PENDING_KEY in t ==> PENDING_KEY in s && s[PENDING_KEY] == t[PENDING_KEY])
    && (ASSURANCE_KEY in t ==> ASSURANCE_KEY in s && s[ASSURANCE_KEY] == t[ASSURANCE_KEY])
  }

  predicate Possible(w: World, e: Event) {
    match e
    case Load(rid, _) => rid !in w.requests
    case Work(rid, store) => rid in w.requests && KeepsMfa(w.requests[rid].store, store)
    case Save(rid) => rid in w.requests
    case PasswordStage(rid, _, _, flow) => rid in w.requests && |flow| >= 16
    case LoadPending(rid) => rid in w.requests
    case VerifyFactor(rid, factor) => rid in w.requests && w.requests[rid].loaded.Some?
    case CompleteLogin(rid, _) => rid in w.requests && w.requests[rid].loaded.Some? && w.requests[rid].loaded.value.factor.Some?
    case Abort(rid) => rid in w.requests
    case CheckVerified(rid, _) => rid in w.requests
    case _ => true
  }

  function WithCopy(w: World, rid: nat, store: Entries): World
    requires rid in w.requests
  {
    w.(requests := w.requests[rid := w.requests[rid].(store := store)])
  }

  function StageStep(w: World, rid: nat, user: int, next: Value, flow: string): World
    requires rid in w.requests
  {
    var (store, r) := Start(w.requests[rid].store, w.db, user, w.now, next, flow);
    var w1 := WithCopy(w, rid, store);
    if r.Open? then w1.(starts := w.starts + [Started(w.requests[rid].sid, user, w.now, flow)]) else w1
  }

  function LoadPendingStep(w: World, settings: Settings, rid: nat): World
    requires rid in w.requests
  {
    var (store, p) := GetPending(w.requests[rid].store, w.db, settings.pendingTtl, w.now);
    var q := w.requests[rid].(store := store, loaded := if p.Some? then Some(Loaded(p.value, w.now, None)) else None);
    w.(requests := w.requests[rid := q])
  }

  /** The start a loaded flow descends from: user, time and flow id are those of the start. */
  predicate FromStart(w: World, sid: nat, p: Pending, i: nat) {
    i < |w.starts| && w.starts[i] == Started(sid, p.user, p.started, p.flow)
  }

  ghost function StartOf(w: World, sid: nat, p: Pending): nat {
    if exists i: nat :: FromStart(w, sid, p, i) then
      var i: nat :| FromStart(w, sid, p, i);
      i
    else 0
  }

  ghost function CompleteStep(w: World, rid: nat, rotated: Gate<()>): World
    requires rid in w.requests && w.requests[rid].loaded.Some? && w.requests[rid].loaded.value.factor.Some?
  {
    var q := w.requests[rid];
    var l := q.loaded.value;
    var means := MethodFor(l.factor.value.kind);
    if means.None? then w
    else
      var (store, r) := Completed(q.store, w.db, l.pending, l.factor.value, means.value, rotated, w.now);
      var w1 := w.(requests := w.requests[rid := q.(store := store, loaded := None)]);
      if r.Open?
      then w1.(done := w.done + [Done(q.sid, l.pending.user, w.now, StartOf(w, q.sid, l.pending), l.at,
                                      l.factor.value, means.value, w.db)])
      else w1
  }

  ghost function Step(w: World, settings: Settings, e: Event): World {
    if !Possible(w, e) then w
    else match e
      case Tick(elapsed) => if elapsed < 0.0 then w else w.(now := w.now + elapsed)
      case EditDb(db) => w.(db := db)
      case Load(rid, sid) =>
        w.(requests := w.requests[rid := Request(sid, if sid in w.saved then w.saved[sid] else map[], None)])
      case Work(rid, store) => WithCopy(w, rid, store)
      case Save(rid) => w.(saved := w.saved[w.requests[rid].sid := w.requests[rid].store])
      case PasswordStage(rid, user, next, flow) => StageStep(w, rid, user, next, flow)
      case LoadPending(rid) => LoadPendingStep(w, settings, rid)
      case VerifyFactor(rid, factor) =>
        var q := w.requests[rid];
        w.(requests := w.requests[rid := q.(loaded := Some(q.loaded.value.(factor := Some(factor))))])
      case CompleteLogin(rid, rotated) => CompleteStep(w, rid, rotated)
      case Abort(rid) => WithCopy(w, rid, ClearAll(w.requests[rid].store))
      case CheckVerified(rid, visitor) =>
        WithCopy(w, rid, IsVerified(w.requests[rid].store, visitor, settings.assuranceTtl, w.now).0)
  }

  ghost function Run(w: World, settings: Settings, events: seq<Event>): World
    decreases |events|
  {
    if events == [] then w else Run(Step(w, settings, events[0]), settings, events[1..])
  }

  function Initial(db: Db, now: real): World {
    World(map[], map[], db, now, [], [])
  }

  // ---------------------------------------------------------------- the invariant

  ghost predicate PendingTraced(starts: seq<Started>, sid: nat, s: Entries) {
    PENDING_KEY in s ==>
      exists i, next :: 0 <= i < |starts| && starts[i].sid == sid && |starts[i].flow| >= 16
        && s[PENDING_KEY] == PendingValue(starts[i].user, starts[i].at, next, starts[i].flow)
  }

  predicate AssuranceTraced(done: seq<Done>, sid: nat, s: Entries) {
    ASSURANCE_KEY in s ==>
      exists i :: 0 <= i < |done| && done[i].sid == sid
        && s[ASSURANCE_KEY] == AssuranceValue(done[i].user, done[i].at, done[i].means)
  }

  ghost predicate LoadedTraced(w: World, settings: Settings, q: Request) {
    q.loaded.Some? ==>
      var l := q.loaded.value;
      && (exists i: nat :: FromStart(w, q.sid, l.pending, i))
      && l.pending.started <= l.at <= l.pending.started + settings.pendingTtl as real && l.at <= w.now
  }

  /** What a completed login stands on: its session's own password stage, unexpired when loaded,
      an account that was active staff with a primary factor, and an enrolled factor of a known method
      that is the user's. */
  predicate WellDone(w: World, settings: Settings, d: Done) {
    && d.start < |w.starts|
    && w.starts[d.start].sid == d.sid && w.starts[d.start].user == d.user
    && w.starts[d.start].at <= d.loadedAt <= w.starts[d.start].at + settings.pendingTtl as real
    && d.loadedAt <= d.at <= w.now
    && ActiveStaff(d.db, d.user) && HasPrimary(d.db, d.user) && d.factor in d.db.factors
    && d.factor.user == d.user && MethodFor(d.factor.kind) == Some(d.means)
  }

  ghost predicate Sound(w: World, settings: Settings) {
    && (forall sid | sid in w.saved :: PendingTraced(w.starts, sid, w.saved[sid]) && AssuranceTraced(w.done, sid, w.saved[sid]))
    && (forall rid | rid in w.requests ::
          var q := w.requests[rid];
          PendingTraced(w.starts, q.sid, q.store) && AssuranceTraced(w.done, q.sid, q.store) && LoadedTraced(w, settings, q))
    && (forall i | 0 <= i < |w.done| :: WellDone(w, settings, w.done[i]))
  }

  // ---------------------------------------------------------------- steps

  lemma TracesGrow(starts: seq<Started>, more: seq<Started>, done: seq<Done>, extra: seq<Done>, sid: nat, s: Entries)
    ensures PendingTraced(starts, sid, s) ==> PendingTraced(starts + more, sid, s)
    ensures AssuranceTraced(done, sid, s) ==> AssuranceTraced(done + extra, sid, s)
  {
    assert forall i | 0 <= i < |starts| :: (starts + more)[i] == starts[i];
    assert forall i | 0 <= i < |done| :: (done + extra)[i] == done[i];
  }

  lemma Dropped(starts: seq<Started>, done: seq<Done>, sid: nat, s: Entries, t: Entries)
    requires PendingTraced(starts, sid, s) && AssuranceTraced(done, sid, s) && KeepsMfa(s, t)
    ensures PendingTraced(starts, sid, t) && AssuranceTraced(done, sid, t)
  {
  }

  /** The world's logs only grow, and everything already traced stays traced. */
  predicate Grows(w: World, w1: World) {
    w.starts <= w1.starts && w.done <= w1.done && w.now <= w1.now
  }

  lemma RestStaysSound(w: World, w1: World, settings: Settings)
    requires Sound(w, settings) && Grows(w, w1)
    ensures forall sid | sid in w.saved ::
              PendingTraced(w1.starts, sid, w.saved[sid]) && AssuranceTraced(w1.done, sid, w.saved[sid])
    ensures forall rid | rid in w.requests ::
              var q := w.requests[rid];
              PendingTraced(w1.starts, q.sid, q.store) && AssuranceTraced(w1.done, q.sid, q.store) && LoadedTraced(w1, settings, q)
    ensures forall i | 0 <= i < |w.done| :: WellDone(w1, settings, w.done[i])
  {
    hide PendingTraced, AssuranceTraced;
    var more, extra := w1.starts[|w.starts|..], w1.done[|w.done|..];
    assert w1.starts == w.starts + more && w1.done == w.done + extra;
    forall sid | sid in w.saved ensures PendingTraced(w1.starts, sid, w.saved[sid]) && AssuranceTraced(w1.done, sid, w.saved[sid]) {
      TracesGrow(w.starts, more, w.done, extra, sid, w.saved[sid]);
    }
    forall rid | rid in w.requests
      ensures var q := w.requests[rid];
              PendingTraced(w1.starts, q.sid, q.store) && AssuranceTraced(w1.done, q.sid, q.store) && LoadedTraced(w1, settings, q)
    {
      var q := w.requests[rid];
      TracesGrow(w.starts, more, w.done, extra, q.sid, q.store);
      if q.loaded.Some? {
        var i: nat :| FromStart(w, q.sid, q.loaded.value.pending, i);
        assert FromStart(w1, q.sid, q.loaded.value.pending, i);
      }
    }
  }

  /** Replacing one request's copy and loaded flow keeps the invariant when the new ones are traced. */
  lemma ReplaceKeepsSound(w: World, w1: World, settings: Settings, rid: nat, q: Request)
    requires Sound(w, settings) && Grows(w, w1) && w1.done == w.done
    requires w1.requests == w.requests[rid := q] && w1.saved == w.saved
    requires PendingTraced(w1.starts, q.sid, q.store) && AssuranceTraced(w1.done, q.sid, q.store) && LoadedTraced(w1, settings, q)
    ensures Sound(w1, settings)
  {
    hide PendingTraced, AssuranceTraced, LoadedTraced, WellDone;
    RestStaysSound(w, w1, settings);
  }

  lemma StageKeepsSound(w: World, settings: Settings, rid: nat, user: int, next: Value, flow: string)
    requires Sound(w, settings) && rid in w.requests && |flow| >= 16
    ensures Sound(StageStep(w, rid, user, next, flow), settings)
  {
    hide PendingValue, AssuranceValue, ActiveStaff, HasPrimary, FromStart;
    var w1 := StageStep(w, rid, user, next, flow);
    var q := w.requests[rid];
    var p := w1.requests[rid];
    if Start(q.store, w.db, user, w.now, next, flow).1.Open? {
      var i := |w.starts|;
      assert w1.starts[i] == Started(q.sid, user, w.now, flow);
      assert p.store[PENDING_KEY] == PendingValue(w1.starts[i].user, w1.starts[i].at, next, w1.starts[i].flow);
    }
    RestStaysSound(w, w1, settings);
    ReplaceKeepsSound(w, w1, settings, rid, p);
  }

  lemma LoadPendingKeepsSound(w: World, settings: Settings, rid: nat)
    requires Sound(w, settings) && rid in w.requests
    ensures Sound(LoadPendingStep(w, settings, rid), settings)
  {
    hide AssuranceTraced, PendingValue, WellDone;
    var w1 := LoadPendingStep(w, settings, rid);
    var s, sid := w.requests[rid].store, w.requests[rid].sid;
    var p := ReadPending(s, w.db, settings.pendingTtl, w.now);
    if p.Some? {
      assert PENDING_KEY in s;
      var i, next :| 0 <= i < |w.starts| && w.starts[i].sid == sid && |w.starts[i].flow| >= 16
        && s[PENDING_KEY] == PendingValue(w.starts[i].user, w.starts[i].at, next, w.starts[i].flow);
      PendingReadsBackExactly(s, w.db, w.starts[i].user, w.starts[i].at, next, w.starts[i].flow, settings.pendingTtl, w.now);
      assert FromStart(w1, sid, p.value, i);
    } else {
      Dropped(w.starts, w.done, sid, s, ClearPending(s));
    }
    ReplaceKeepsSound(w, w1, settings, rid, w1.requests[rid]);
  }

  lemma CompleteKeepsSound(w: World, settings: Settings, rid: nat, rotated: Gate<()>)
    requires Sound(w, settings) && Possible(w, CompleteLogin(rid, rotated))
    ensures Sound(CompleteStep(w, rid, rotated), settings)
  {
    hide PendingValue, AssuranceValue, PendingTraced, AssuranceTraced;
    var w1 := CompleteStep(w, rid, rotated);
    var q := w.requests[rid];
    var l := q.loaded.value;
    var means := MethodFor(l.factor.value.kind);
    if means.Some? {
      var (store, r) := Completed(q.store, w.db, l.pending, l.factor.value, means.value, rotated, w.now);
      assert LoadedTraced(w, settings, q);
      if r.Open? {
        var d := w1.done[|w.done|];
        assert WellDone(w1, settings, d);
        AssuredByLast(w.done, d, store);
        NothingPending(w.starts, q.sid, store);
        CompletedKeepsSound(w, w1, settings, rid, d);
      } else {
        Dropped(w.starts, w.done, q.sid, q.store, store);
        ReplaceKeepsSound(w, w1, settings, rid, w1.requests[rid]);
      }
    }
  }

  lemma AssuredByLast(done: seq<Done>, d: Done, s: Entries)
    requires ASSURANCE_KEY in s && s[ASSURANCE_KEY] == AssuranceValue(d.user, d.at, d.means)
    ensures AssuranceTraced(done + [d], d.sid, s)
  {
    assert (done + [d])[|done|] == d;
  }

  lemma NothingPending(starts: seq<Started>, sid: nat, s: Entries)
    requires PENDING_KEY !in s
    ensures PendingTraced(starts, sid, s)
  {
  }

  lemma CompletedKeepsSound(w: World, w1: World, settings: Settings, rid: nat, d: Done)
    requires Sound(w, settings) && rid in w.requests && rid in w1.requests
    requires w1 == w.(requests := w.requests[rid := w1.requests[rid]], done := w.done + [d])
    requires WellDone(w1, settings, d) && w1.requests[rid].loaded.None?
    requires PendingTraced(w1.starts, w1.requests[rid].sid, w1.requests[rid].store)
    requires AssuranceTraced(w1.done, w1.requests[rid].sid, w1.requests[rid].store)
    ensures Sound(w1, settings)
  {
    hide PendingTraced, AssuranceTraced, WellDone;
    RestStaysSound(w, w1, settings);
    assert forall i | 0 <= i < |w1.done| :: w1.done[i] == if i < |w.done| then w.done[i] else d;
  }

  /** Steps that only move time, edit the database, load, save or drop. */
  lemma OthersKeepSound(w: World, settings: Settings, e: Event)
    requires Sound(w, settings) && !e.PasswordStage? && !e.LoadPending? && !e.CompleteLogin?
    ensures Sound(Step(w, settings, e), settings)
  {
    hide PendingTraced, AssuranceTraced, WellDone, FromStart, ReadsVerified;
    var w1 := Step(w, settings, e);
    RestStaysSound(w, w1, settings);
    if Possible(w, e) {
      match e
      case Load(rid, sid) => EmptyTraced(w.starts, w.done, sid);
      case Work(rid, store) => Dropped(w.starts, w.done, w.requests[rid].sid, w.requests[rid].store, store);
      case Abort(rid) => Dropped(w.starts, w.done, w.requests[rid].sid, w.requests[rid].store, ClearAll(w.requests[rid].store));
      case CheckVerified(rid, visitor) =>
        Dropped(w.starts, w.done, w.requests[rid].sid, w.requests[rid].store, w1.requests[rid].store);
      case _ =>
    }
  }

  lemma EmptyTraced(starts: seq<Started>, done: seq<Done>, sid: nat)
    ensures PendingTraced(starts, sid, map[]) && AssuranceTraced(done, sid, map[])
  {
  }

  lemma StepKeepsSound(w: World, settings: Settings, e: Event)
    requires Sound(w, settings)
    ensures Sound(Step(w, settings, e), settings)
  {
    hide Sound, StageStep, LoadPendingStep, CompleteStep, KeepsMfa;
    if Possible(w, e) && e.PasswordStage? {
      StageKeepsSound(w, settings, e.rid, e.user, e.next, e.flow);
    } else if Possible(w, e) && e.LoadPending? {
      LoadPendingKeepsSound(w, settings, e.rid);
    } else if Possible(w, e) && e.CompleteLogin? {
      CompleteKeepsSound(w, settings, e.rid, e.rotated);
    } else if Possible(w, e) {
      OthersKeepSound(w, settings, e);
    }
  }

  lemma {:induction false} EveryRunIsSound(w: World, settings: Settings, events: seq<Event>)
    requires Sound(w, settings)
    ensures Sound(Run(w, settings, events), settings)
    decreases |events|
  {
    hide Sound, Step;
    if events != [] {
      StepKeepsSound(w, settings, events[0]);
      EveryRunIsSound(Step(w, settings, events[0]), settings, events[1..]);
    }
  }

  // ---------------------------------------------------------------- main result

  /** A login that entitles a visitor of this session. */
  predicate Entitles(w: World, settings: Settings, sid: nat, visitor: Visitor, d: Done) {
    && d.sid == sid && d.user == visitor.pk
    && d.at <= w.now <= d.at + settings.assuranceTtl as real
    && WellDone(w, settings, d)
  }

  /** In every reachable world, a session copy counts as verified for a visitor only because that
      same user completed a login in that very session within the assurance lifetime, from a
      password stage of that session that was unexpired when loaded, with a factor of their own. */
  lemma VerifiedOnlyAfterLogin(db: Db, start: real, settings: Settings, events: seq<Event>, rid: nat, visitor: Visitor)
    requires var w := Run(Initial(db, start), settings, events);
             rid in w.requests && ReadsVerified(w.requests[rid].store, Some(visitor), settings.assuranceTtl, w.now)
    ensures var w := Run(Initial(db, start), settings, events);
            exists i :: 0 <= i < |w.done| && Entitles(w, settings, w.requests[rid].sid, visitor, w.done[i])
  {
    hide Run, WellDone, AssuranceValue;
    EveryRunIsSound(Initial(db, start), settings, events);
    var w := Run(Initial(db, start), settings, events);
    var q := w.requests[rid];
    assert AssuranceTraced(w.done, q.sid, q.store) && ASSURANCE_KEY in q.store;
    var i :| 0 <= i < |w.done| && w.done[i].sid == q.sid
      && q.store[ASSURANCE_KEY] == AssuranceValue(w.done[i].user, w.done[i].at, w.done[i].means);
    AssuranceHoldsExactly(q.store, w.done[i].user, w.done[i].at, w.done[i].means, visitor, settings.assuranceTtl, w.now);
    assert Entitles(w, settings, q.sid, visitor, w.done[i]);
  }
}
