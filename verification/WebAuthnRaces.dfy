/** Concurrent requests over stale session copies: the shared replay cache alone decides who
    may use a challenge, and every use descends from an options response. */
module WebAuthnRaces {
  import opened Prelude
  import opened W = WebAuthn
  import B = Base64Url
  import C = SecurityCache

  /** An options response that stored a challenge. */
  datatype Issue = Issue(policy: Policy, at: real, challenge: seq<B.byte>, binding: string, subject: Option<string>,
                         nonce: string)

  /** A completion request that got past the boundary: its age check, its claim, what it presented,
      and the place of its claim among all claims. */
  datatype Pass = Pass(policy: Policy, checked: real, claimed: real, signed: Gate<seq<B.byte>>, binding: Option<string>,
                       subject: Option<string>, nonce: string, slot: nat)

  /** A request between its age check and the end of its claim. */
  datatype Claiming = Claiming(policy: Policy, body: Option<Value>, record: Entries, nonce: string, checked: real)

  /** A request holds its own copy of a session. */
  datatype Request = Request(sid: nat, store: Entries, claiming: Option<Claiming>)

  datatype World = World(saved: map<nat, Entries>, requests: map<nat, Request>, cache: C.World<bool>,
                         issues: seq<Issue>, passes: seq<Pass>)

  datatype Event =
    | Tick(elapsed: real)
    | Load(rid: nat, sid: nat)
    | Work(rid: nat, store: Entries)              // application code changes the copy
    | Save(rid: nat)                              // the whole copy: last write wins
    | ClearFirst(rid: nat, saves: bool)
    | Options(rid: nat, policy: Policy, payload: Option<Entries>, spare: string, nonce: string, saves: bool)
    | Begin(rid: nat, policy: Policy, body: Option<Value>, saves: bool)
    | CheckRoom(rid: nat)
    | WriteClaim(rid: nat, ok: bool)
    | Abandon(rid: nat)
    | Sweep                                       // expired claims are dropped

  // ---------------------------------------------------------------- steps

  function Copy(w: World, sid: nat): Entries {
    if sid in w.saved then w.saved[sid] else map[]
  }

  /** A request's copy, and possibly the saved session, become those of an effect. */
  function Apply<T>(w: World, rid: nat, e: Effect<T>): World
    requires rid in w.requests
  {
    var q := w.requests[rid];
    w.(requests := w.requests[rid := q.(store := e.store)],
       saved := if e.saved.Some? then w.saved[q.sid := e.saved.value] else w.saved)
  }

  /** The request runs ordinary code: it is not between its check and its claim. */
  predicate Free(w: World, rid: nat) {
    rid in w.requests && w.requests[rid].claiming.None?
  }

  predicate Busy(w: World, rid: nat) {
    rid in w.requests && w.requests[rid].claiming.Some?
  }

  function IssueOf(s: Entries, policy: Policy, payload: Option<Entries>, env: Env, now: real, spare: string, nonce: string): Issue
    requires RequireVerification(s, policy, payload).Open?
    requires Announced(RequireVerification(s, policy, payload).value.1, policy).Open?
    requires |spare| >= 32
  {
    var (t, sent) := RequireVerification(s, policy, payload).value;
    var b := Bound(t, spare);
    Issue(policy, now, Announced(sent, policy).value, Binding(b).value, Subject(b, policy, env), nonce)
  }

  /** The record is put in the copy; should the save fail, a later save of the copy can still keep it. */
  predicate Issued(s: Entries, policy: Policy, payload: Option<Entries>, env: Env, now: real, spare: string, nonce: string) {
    && OnOptions(s, policy, payload, env, now, spare, nonce, true).gate.Open?
    && RequireVerification(s, policy, payload).Open?
    && Announced(RequireVerification(s, policy, payload).value.1, policy).Open?
    && |spare| >= 32
  }

  function OptionsStep(w: World, env: Env, rid: nat, policy: Policy, payload: Option<Entries>, spare: string,
                       nonce: string, saves: bool): World
    requires rid in w.requests
  {
    var s, now := w.requests[rid].store, w.cache.now;
    var w1 := Apply(w, rid, OnOptions(s, policy, payload, env, now, spare, nonce, saves));
    if Issued(s, policy, payload, env, now, spare, nonce)
    then w1.(issues := w.issues + [IssueOf(s, policy, payload, env, now, spare, nonce)])
    else w1
  }

  function BeginStep(w: World, env: Env, rid: nat, policy: Policy, body: Option<Value>, saves: bool): World
    requires rid in w.requests
  {
    var s := w.requests[rid].store;
    var w1 := Apply(w, rid, TakeRecord(s, saves));
    var nonce := Presented(s, env, w.cache.now, saves);
    if nonce.Open? && At(s, CHALLENGE_KEY).Dict? then
      var c := Claiming(policy, body, s[CHALLENGE_KEY].entries, nonce.value, w.cache.now);
      w1.(requests := w1.requests[rid := w1.requests[rid].(claiming := Some(c))])
    else w1
  }

  /** The rest of a completion request whose claim is its own. */
  function Finish(w: World, env: Env, rid: nat, slot: nat): World
    requires Busy(w, rid)
  {
    var q := w.requests[rid];
    var c := q.claiming.value;
    var w1 := w.(requests := w.requests[rid := q.(claiming := None)]);
    var digest := ExpectedDigest(q.store, c.record, c.policy, env);
    if digest.Rejected? || MatchBody(c.body, digest.value, c.policy, env).Rejected? then w1
    else
      w1.(passes := w.passes + [Pass(c.policy, c.checked, w.cache.now, Signed(c.body, c.policy, env), Binding(q.store),
                                     Subject(q.store, c.policy, env), c.nonce, slot)])
  }

  function ClaimStep(w: World, capacity: nat, env: Env, rid: nat, ok: bool): World
    requires Busy(w, rid) && env.ttl.Int?
  {
    var slot := |w.cache.log|;
    var w1 := w.(cache := C.Step(w.cache, capacity, C.Write(rid, true, env.ttl.n, ok)));
    if |w1.cache.log| > slot then Finish(w1, env, rid, slot)
    else w1.(requests := w.requests[rid := w.requests[rid].(claiming := None)])
  }

  /** Application code never invents a challenge record. */
  predicate KeepsChallenge(s: Entries, t: Entries) {
    CHALLENGE_KEY in t ==> CHALLENGE_KEY in s && s[CHALLENGE_KEY] == t[CHALLENGE_KEY]
  }

  predicate Unused(w: World, nonce: string) {
    forall i | 0 <= i < |w.issues| :: w.issues[i].nonce != nonce
  }

  /** What an event needs to be one this system can take; random texts are long and new. */
  predicate Possible(w: World, e: Event) {
    match e
    case Load(rid, _) => rid !in w.requests
    case Work(rid, store) => Free(w, rid) && KeepsChallenge(w.requests[rid].store, store)
    case Save(rid) => Free(w, rid)
    case ClearFirst(rid, _) => Free(w, rid)
    case Options(rid, policy, _, spare, nonce, _) =>
      Free(w, rid) && KnownPolicy(policy) && |spare| >= 32 && 32 <= |nonce| <= 256 && Unused(w, nonce)
    case Begin(rid, policy, _, _) => Free(w, rid) && KnownPolicy(policy)
    case CheckRoom(rid) => Busy(w, rid)
    case WriteClaim(rid, _) => Busy(w, rid) && rid in w.cache.inflight
    case Abandon(rid) => Busy(w, rid)
    case _ => true
  }

  function Step(w: World, capacity: nat, env: Env, e: Event): World
    requires env.ttl.Int?
  {
    if !Possible(w, e) then w
    else match e
      case Tick(elapsed) => w.(cache := C.Step(w.cache, capacity, C.Advance(elapsed)))
      case Load(rid, sid) => w.(requests := w.requests[rid := Request(sid, Copy(w, sid), None)])
      case Work(rid, store) => w.(requests := w.requests[rid := w.requests[rid].(store := store)])
      case Save(rid) => w.(saved := w.saved[w.requests[rid].sid := w.requests[rid].store])
      case ClearFirst(rid, saves) => Apply(w, rid, Clear(w.requests[rid].store, saves))
      case Options(rid, policy, payload, spare, nonce, saves) =>
        OptionsStep(w, env, rid, policy, payload, spare, nonce, saves)
      case Begin(rid, policy, body, saves) => BeginStep(w, env, rid, policy, body, saves)
      case CheckRoom(rid) =>
        w.(cache := C.Step(w.cache, capacity, C.Check(rid, ClaimKey(w.requests[rid].claiming.value.nonce), C.AddMode)))
      case WriteClaim(rid, ok) => ClaimStep(w, capacity, env, rid, ok)
      case Abandon(rid) =>
        w.(cache := C.Step(w.cache, capacity, C.GiveUp(rid)),
           requests := w.requests[rid := w.requests[rid].(claiming := None)])
      case Sweep => w.(cache := C.Step(w.cache, capacity, C.DropExpired))
  }

  function Run(w: World, capacity: nat, env: Env, events: seq<Event>): World
    requires env.ttl.Int?
    decreases |events|
  {
    if events == [] then w else Run(Step(w, capacity, env, events[0]), capacity, env, events[1..])
  }

  function Initial(now: real): World {
    World(map[], map[], C.World(map[], map[], now, []), [], [])
  }

  // ---------------------------------------------------------------- the invariant

  function RecordOf(i: Issue): Value {
    Metadata(i.policy.purpose, i.at, i.challenge, i.binding, if i.subject.Some? then Some(Sha256(i.subject.value)) else None,
             i.nonce)
  }

  predicate WellIssued(i: Issue, now: real) {
    i.at <= now && KnownPolicy(i.policy) && 32 <= |i.nonce| <= 256
    && (i.subject.None? <==> i.policy.purpose == "account.login")
  }

  /** A session holds no challenge record but one an options response stored. */
  predicate Traced(issues: seq<Issue>, s: Entries) {
    CHALLENGE_KEY in s ==> exists i :: 0 <= i < |issues| && s[CHALLENGE_KEY] == RecordOf(issues[i])
  }

  predicate InTime(i: Issue, env: Env, checked: real)
    requires env.ttl.Int?
  {
    i.at <= checked <= i.at + env.ttl.n as real
  }

  predicate ClaimFor(i: Issue, env: Env, c: Claiming, s: Entries)
    requires env.ttl.Int?
  {
    Dict(c.record) == RecordOf(i) && c.nonce == i.nonce && InTime(i, env, c.checked) && Binding(s) == Some(i.binding)
  }

  /** A pass is the other half of the ceremony an options response began. */
  predicate PassFor(i: Issue, env: Env, p: Pass)
    requires env.ttl.Int?
  {
    && p.nonce == i.nonce && InTime(i, env, p.checked)
    && p.policy.purpose == i.policy.purpose && p.policy.surface == i.policy.surface
    && p.signed == Open(i.challenge) && p.binding == Some(i.binding)
    && (p.policy.purpose == "account.login" || p.subject == i.subject)
  }

  predicate TracedClaim(issues: seq<Issue>, env: Env, q: Request)
    requires env.ttl.Int? && q.claiming.Some?
  {
    exists i :: 0 <= i < |issues| && ClaimFor(issues[i], env, q.claiming.value, q.store)
  }

  predicate TracedPass(issues: seq<Issue>, env: Env, p: Pass)
    requires env.ttl.Int?
  {
    exists i :: 0 <= i < |issues| && PassFor(issues[i], env, p)
  }

  predicate SessionsTraced(w: World) {
    && (forall sid | sid in w.saved :: Traced(w.issues, w.saved[sid]))
    && (forall rid | rid in w.requests :: Traced(w.issues, w.requests[rid].store))
  }

  predicate ClaimsTraced(w: World, env: Env)
    requires env.ttl.Int?
  {
    forall rid | rid in w.requests && Busy(w, rid) ::
      var q := w.requests[rid];
      && KnownPolicy(q.claiming.value.policy) && q.claiming.value.checked <= w.cache.now
      && TracedClaim(w.issues, env, q)
  }

  predicate CacheTraced(w: World) {
    forall rid | rid in w.cache.inflight ::
      Busy(w, rid) && w.cache.inflight[rid] == C.Pending(ClaimKey(w.requests[rid].claiming.value.nonce), C.AddMode)
  }

  predicate PassesTraced(w: World, env: Env)
    requires env.ttl.Int?
  {
    forall j | 0 <= j < |w.passes| ::
      && TracedPass(w.issues, env, w.passes[j])
      && w.passes[j].checked <= w.passes[j].claimed
  }

  /** Every pass has a claim of its own in the cache's log. */
  predicate PassesLogged(w: World, env: Env)
    requires env.ttl.Int?
  {
    && (forall j | 0 <= j < |w.passes| ::
          var p := w.passes[j];
          p.slot < |w.cache.log| && w.cache.log[p.slot] == C.Claim(ClaimKey(p.nonce), p.claimed, env.ttl.n))
    && (forall j, k | 0 <= j < k < |w.passes| :: w.passes[j].slot < w.passes[k].slot)
  }

  predicate IssuesSound(w: World) {
    && (forall i | 0 <= i < |w.issues| :: WellIssued(w.issues[i], w.cache.now))
    && (forall i, j | 0 <= i < j < |w.issues| :: w.issues[i].nonce != w.issues[j].nonce)
  }

  predicate Sound(w: World, env: Env)
    requires env.ttl.Int?
  {
    IssuesSound(w) && SessionsTraced(w) && ClaimsTraced(w, env) && CacheTraced(w) && PassesTraced(w, env) && PassesLogged(w, env)
  }

  // ---------------------------------------------------------------- pieces of the invariant

  /** What an options request does to its copy: the record it may add is the issue's own. */
  lemma OptionsTraced(s: Entries, policy: Policy, payload: Option<Entries>, env: Env, now: real, spare: string,
                      nonce: string, saves: bool)
    requires KnownPolicy(policy) && |spare| >= 32 && 32 <= |nonce| <= 256
    ensures var e := OnOptions(s, policy, payload, env, now, spare, nonce, saves);
            && (e.saved.Some? ==> e.saved.value == e.store)
            && (if Issued(s, policy, payload, env, now, spare, nonce)
                then var i := IssueOf(s, policy, payload, env, now, spare, nonce);
                     && WellIssued(i, now) && i.nonce == nonce && i.at == now
                     && CHALLENGE_KEY in e.store && e.store[CHALLENGE_KEY] == RecordOf(i)
                else KeepsChallenge(s, e.store))
  {
    hide PublicKey, B.Decode, Metadata, Subject, WithPublicKey, Sha256;
    var verified := RequireVerification(s, policy, payload);
    if verified.Open? {
      var (t, sent) := verified.value;
      var e := StoreChallenge(t, policy, sent, env, now, spare, nonce, saves);
      var f := StoreChallenge(t, policy, sent, env, now, spare, nonce, true);
      assert e.store == f.store;
      if f.gate.Open? {
        StoredRecord(t, policy, sent, env, now, spare, nonce, true);
      }
    }
  }

  lemma TracedGrows(issues: seq<Issue>, more: seq<Issue>, s: Entries)
    requires Traced(issues, s)
    ensures Traced(issues + more, s)
  {
    if CHALLENGE_KEY in s {
      var i :| 0 <= i < |issues| && s[CHALLENGE_KEY] == RecordOf(issues[i]);
      assert (issues + more)[i] == issues[i];
    }
  }

  lemma TracedKept(issues: seq<Issue>, s: Entries, t: Entries)
    requires Traced(issues, s) && KeepsChallenge(s, t)
    ensures Traced(issues, t)
  {
  }

  lemma ApplyKeepsSessions<T>(w: World, rid: nat, e: Effect<T>)
    requires SessionsTraced(w) && rid in w.requests && Traced(w.issues, e.store)
    requires e.saved.Some? ==> e.saved.value == e.store
    ensures SessionsTraced(Apply(w, rid, e))
  {
    hide Traced;
  }

  lemma OptionsKeepsSessions(w: World, env: Env, rid: nat, policy: Policy, payload: Option<Entries>, spare: string,
                             nonce: string, saves: bool)
    requires SessionsTraced(w) && rid in w.requests && KnownPolicy(policy) && |spare| >= 32 && 32 <= |nonce| <= 256
    ensures SessionsTraced(OptionsStep(w, env, rid, policy, payload, spare, nonce, saves))
  {
    hide OnOptions, Announced, RequireVerification, IssueOf, Traced;
    var s, now := w.requests[rid].store, w.cache.now;
    var e := OnOptions(s, policy, payload, env, now, spare, nonce, saves);
    OptionsTraced(s, policy, payload, env, now, spare, nonce, saves);
    if Issued(s, policy, payload, env, now, spare, nonce) {
      var more := [IssueOf(s, policy, payload, env, now, spare, nonce)];
      var w1 := w.(issues := w.issues + more);
      forall sid | sid in w.saved ensures Traced(w1.issues, w.saved[sid]) { TracedGrows(w.issues, more, w.saved[sid]); }
      forall r | r in w.requests ensures Traced(w1.issues, w.requests[r].store) {
        TracedGrows(w.issues, more, w.requests[r].store);
      }
      NewestTraced(w.issues, more[0], e.store);
      ApplyKeepsSessions(w1, rid, e);
    } else {
      TracedKept(w.issues, s, e.store);
      ApplyKeepsSessions(w, rid, e);
    }
  }

  lemma NewestTraced(issues: seq<Issue>, i: Issue, s: Entries)
    requires CHALLENGE_KEY in s && s[CHALLENGE_KEY] == RecordOf(i)
    ensures Traced(issues + [i], s)
  {
    assert (issues + [i])[|issues|] == i;
  }

  lemma SessionsStayTraced(w: World, capacity: nat, env: Env, e: Event)
    requires env.ttl.Int? && SessionsTraced(w)
    ensures SessionsTraced(Step(w, capacity, env, e))
  {
    hide OptionsStep, Traced, RecordOf, Presented, ExpectedDigest, MatchBody, C.Step, KnownPolicy;
    if Possible(w, e) {
      match e
      case Options(rid, policy, payload, spare, nonce, saves) =>
        OptionsKeepsSessions(w, env, rid, policy, payload, spare, nonce, saves);
      case Load(rid, sid) => EmptyTraced(w.issues);
      case Work(rid, store) => TracedKept(w.issues, w.requests[rid].store, store);
      case ClearFirst(rid, saves) =>
        var s := w.requests[rid].store;
        TracedKept(w.issues, s, Clear(s, saves).store);
        ApplyKeepsSessions(w, rid, Clear(s, saves));
      case Begin(rid, policy, body, saves) =>
        var s := w.requests[rid].store;
        TracedKept(w.issues, s, TakeRecord(s, saves).store);
        ApplyKeepsSessions(w, rid, TakeRecord(s, saves));
      case _ =>
    }
  }

  lemma EmptyTraced(issues: seq<Issue>)
    ensures Traced(issues, map[])
  {
  }

  // ---------------------------------------------------------------- claims and passes

  /** A request that gets as far as its claim holds a record in time, under its own binding. */
  lemma BeginMatches(s: Entries, env: Env, now: real, policy: Policy, body: Option<Value>, saves: bool, i: Issue)
    requires CHALLENGE_KEY in s && s[CHALLENGE_KEY] == RecordOf(i) && WellIssued(i, now)
    requires Presented(s, env, now, saves).Open?
    ensures env.ttl.Int?
    ensures ClaimFor(i, env, Claiming(policy, body, s[CHALLENGE_KEY].entries, Presented(s, env, now, saves).value, now),
                     s - {CHALLENGE_KEY})
  {
    hide NonceToClaim, Metadata;
    PresentedFromRecord(s, env, now, saves);
    NonceExactly(s - {CHALLENGE_KEY}, env, now, i.policy.purpose, i.at, i.challenge, i.binding,
                 if i.subject.Some? then Some(Sha256(i.subject.value)) else None, i.nonce);
  }

  /** What the checks after the claim let through is the other half of the ceremony. */
  lemma FinishMatches(i: Issue, env: Env, c: Claiming, s: Entries, now: real, slot: nat)
    requires env.ttl.Int? && ClaimFor(i, env, c, s) && KnownPolicy(c.policy) && KnownPolicy(i.policy)
    requires i.subject.None? <==> i.policy.purpose == "account.login"
    requires var digest := ExpectedDigest(s, c.record, c.policy, env);
             digest.Open? && MatchBody(c.body, digest.value, c.policy, env).Open?
    ensures PassFor(i, env, Pass(c.policy, c.checked, now, Signed(c.body, c.policy, env), Binding(s), Subject(s, c.policy, env),
                                 c.nonce, slot))
  {
    hide Metadata, ExpectedDigest, MatchBody, Signed, Subject;
    DigestExactly(s, c.policy, env, i.policy, i.at, i.challenge, i.binding, i.subject, i.nonce);
    BodyExactly(c.body, c.policy, env, i.challenge);
  }

  lemma ClaimTraceGrows(issues: seq<Issue>, more: seq<Issue>, env: Env, q: Request)
    requires env.ttl.Int? && q.claiming.Some? && TracedClaim(issues, env, q)
    ensures TracedClaim(issues + more, env, q)
  {
    var i :| 0 <= i < |issues| && ClaimFor(issues[i], env, q.claiming.value, q.store);
    assert (issues + more)[i] == issues[i];
  }

  lemma BeginKeepsClaims(w: World, env: Env, rid: nat, policy: Policy, body: Option<Value>, saves: bool)
    requires env.ttl.Int? && ClaimsTraced(w, env) && SessionsTraced(w) && IssuesSound(w)
    requires Free(w, rid) && KnownPolicy(policy)
    ensures ClaimsTraced(BeginStep(w, env, rid, policy, body, saves), env)
  {
    hide Presented, ClaimFor, RecordOf, KnownPolicy;
    var s := w.requests[rid].store;
    var w1 := BeginStep(w, env, rid, policy, body, saves);
    if Busy(w1, rid) {
      PresentedFromRecord(s, env, w.cache.now, saves);
      assert Traced(w.issues, s);
      var i :| 0 <= i < |w.issues| && s[CHALLENGE_KEY] == RecordOf(w.issues[i]);
      assert WellIssued(w.issues[i], w.cache.now);
      BeginMatches(s, env, w.cache.now, policy, body, saves, w.issues[i]);
    }
    forall r | r in w1.requests && Busy(w1, r) ensures TracedClaim(w1.issues, env, w1.requests[r]) {
      if r != rid {
        assert w1.requests[r] == w.requests[r] && Busy(w, r);
        assert TracedClaim(w.issues, env, w.requests[r]);
      }
    }
  }

  /** Clocks and passes aside, a step other than Begin leaves every unfinished claim as it was. */
  lemma OthersKeepClaims(w: World, capacity: nat, env: Env, e: Event)
    requires env.ttl.Int? && ClaimsTraced(w, env) && !e.Begin?
    ensures ClaimsTraced(Step(w, capacity, env, e), env)
  {
    hide ClaimFor, OnOptions, Issued, IssueOf, ExpectedDigest, MatchBody, Subject, Signed, C.Step, KnownPolicy, Clear;
    var w1 := Step(w, capacity, env, e);
    ClockMoves(w, capacity, env, e);
    IssuesGrow(w, capacity, env, e);
    forall r | r in w1.requests && Busy(w1, r)
      ensures TracedClaim(w1.issues, env, w1.requests[r]) && KnownPolicy(w1.requests[r].claiming.value.policy)
      ensures w1.requests[r].claiming.value.checked <= w1.cache.now
    {
      assert Busy(w, r) && w1.requests[r] == w.requests[r];
      assert TracedClaim(w.issues, env, w.requests[r]);
      ClaimTraceGrows(w.issues, w1.issues[|w.issues|..], env, w.requests[r]);
    }
  }

  lemma IssuesGrow(w: World, capacity: nat, env: Env, e: Event)
    requires env.ttl.Int?
    ensures var w1 := Step(w, capacity, env, e);
            |w.issues| <= |w1.issues| && w1.issues == w.issues + w1.issues[|w.issues|..]
  {
    hide OnOptions, Issued, IssueOf, ExpectedDigest, MatchBody, Subject, Signed, C.Step, KnownPolicy, Clear, Presented;
  }

  /** Every step moves the cache by at most one of its own steps, and that only ever adds. */
  ghost function CacheEvent(w: World, env: Env, e: Event): seq<C.Event<bool>>
    requires env.ttl.Int?
  {
    if !Possible(w, e) then []
    else match e
      case Tick(elapsed) => [C.Advance(elapsed)]
      case CheckRoom(rid) => [C.Check(rid, ClaimKey(w.requests[rid].claiming.value.nonce), C.AddMode)]
      case WriteClaim(rid, ok) => [C.Write(rid, true, env.ttl.n, ok)]
      case Abandon(rid) => [C.GiveUp(rid)]
      case Sweep => [C.DropExpired]
      case _ => []
  }

  lemma CacheMoves(w: World, capacity: nat, env: Env, e: Event)
    requires env.ttl.Int?
    ensures var moves := CacheEvent(w, env, e);
            && Step(w, capacity, env, e).cache == (if moves == [] then w.cache else C.Step(w.cache, capacity, moves[0]))
            && (forall k :: C.AddOnly(k, moves))
  {
    hide OnOptions, Issued, IssueOf, ExpectedDigest, MatchBody, Subject, Signed, C.Step, KnownPolicy, Clear, Presented, ClaimKey;
  }

  lemma ClockMoves(w: World, capacity: nat, env: Env, e: Event)
    requires env.ttl.Int?
    ensures w.cache.now <= Step(w, capacity, env, e).cache.now
  {
    CacheMoves(w, capacity, env, e);
    hide Step, C.CanStore, C.BaseSet;
  }

  lemma CacheStaysTraced(w: World, capacity: nat, env: Env, e: Event)
    requires env.ttl.Int? && CacheTraced(w)
    ensures CacheTraced(Step(w, capacity, env, e))
  {
    hide OnOptions, Issued, IssueOf, ExpectedDigest, MatchBody, Subject, Signed, KnownPolicy, Clear, Presented, ClaimKey;
    hide C.BaseSet, C.CanStore;
  }

  lemma IssuesStaySound(w: World, capacity: nat, env: Env, e: Event)
    requires env.ttl.Int? && IssuesSound(w)
    ensures IssuesSound(Step(w, capacity, env, e))
  {
    hide OnOptions, Issued, IssueOf, ExpectedDigest, MatchBody, Subject, Signed, C.Step, KnownPolicy, Clear, Presented, ClaimKey;
    ClockMoves(w, capacity, env, e);
    if e.Options? && Possible(w, e) {
      OptionsTraced(w.requests[e.rid].store, e.policy, e.payload, env, w.cache.now, e.spare, e.nonce, e.saves);
    }
  }

  lemma PassTraceGrows(issues: seq<Issue>, more: seq<Issue>, env: Env, p: Pass)
    requires env.ttl.Int? && TracedPass(issues, env, p)
    ensures TracedPass(issues + more, env, p)
  {
    var i :| 0 <= i < |issues| && PassFor(issues[i], env, p);
    assert (issues + more)[i] == issues[i];
  }

  /** A step adds at most one pass, and only the claim of a busy request adds it. */
  lemma PassesGrow(w: World, capacity: nat, env: Env, e: Event)
    requires env.ttl.Int?
    ensures var w1 := Step(w, capacity, env, e);
            || w1.passes == w.passes
            || (&& e.WriteClaim? && Busy(w, e.rid)
                && |w1.cache.log| > |w.cache.log| && w1.issues == w.issues
                && var q := w.requests[e.rid];
                   var c := q.claiming.value;
                   var digest := ExpectedDigest(q.store, c.record, c.policy, env);
                   && digest.Open? && MatchBody(c.body, digest.value, c.policy, env).Open?
                   && w1.passes == w.passes + [Pass(c.policy, c.checked, w.cache.now, Signed(c.body, c.policy, env),
                                                    Binding(q.store), Subject(q.store, c.policy, env), c.nonce,
                                                    |w.cache.log|)])
  {
    hide OnOptions, Issued, IssueOf, ExpectedDigest, MatchBody, Subject, Signed, KnownPolicy, Clear, Presented, ClaimKey;
    hide C.BaseSet, C.CanStore;
  }

  lemma PassesStayTraced(w: World, capacity: nat, env: Env, e: Event)
    requires env.ttl.Int? && PassesTraced(w, env) && ClaimsTraced(w, env) && IssuesSound(w)
    ensures PassesTraced(Step(w, capacity, env, e), env)
  {
    hide PassFor, ClaimFor, Step, ExpectedDigest, MatchBody, Subject, Signed, KnownPolicy;
    var w1 := Step(w, capacity, env, e);
    IssuesGrow(w, capacity, env, e);
    PassesGrow(w, capacity, env, e);
    forall j | 0 <= j < |w.passes| ensures TracedPass(w1.issues, env, w.passes[j]) {
      assert TracedPass(w.issues, env, w.passes[j]);
      PassTraceGrows(w.issues, w1.issues[|w.issues|..], env, w.passes[j]);
    }
    if w1.passes != w.passes {
      var q := w.requests[e.rid];
      assert TracedClaim(w.issues, env, q);
      var i :| 0 <= i < |w.issues| && ClaimFor(w.issues[i], env, q.claiming.value, q.store);
      assert WellIssued(w.issues[i], w.cache.now);
      FinishMatches(w.issues[i], env, q.claiming.value, q.store, w.cache.now, |w.cache.log|);
      assert TracedPass(w1.issues, env, w1.passes[|w.passes|]);
    }
  }

  lemma PassesStayLogged(w: World, capacity: nat, env: Env, e: Event)
    requires env.ttl.Int? && PassesLogged(w, env) && CacheTraced(w)
    ensures PassesLogged(Step(w, capacity, env, e), env)
  {
    hide Step, ExpectedDigest, MatchBody, Subject, Signed, KnownPolicy, ClaimKey, C.BaseSet, C.CanStore;
    PassesGrow(w, capacity, env, e);
    CacheMoves(w, capacity, env, e);
  }

  lemma StepStaysSound(w: World, capacity: nat, env: Env, e: Event)
    requires env.ttl.Int? && Sound(w, env)
    ensures Sound(Step(w, capacity, env, e), env)
  {
    hide Step, IssuesSound, SessionsTraced, ClaimsTraced, CacheTraced, PassesTraced, PassesLogged;
    IssuesStaySound(w, capacity, env, e);
    SessionsStayTraced(w, capacity, env, e);
    if e.Begin? { BeginClaims(w, capacity, env, e); } else { OthersKeepClaims(w, capacity, env, e); }
    CacheStaysTraced(w, capacity, env, e);
    PassesStayTraced(w, capacity, env, e);
    PassesStayLogged(w, capacity, env, e);
  }

  lemma BeginClaims(w: World, capacity: nat, env: Env, e: Event)
    requires env.ttl.Int? && e.Begin? && ClaimsTraced(w, env) && SessionsTraced(w) && IssuesSound(w)
    ensures ClaimsTraced(Step(w, capacity, env, e), env)
  {
    hide BeginStep, ClaimsTraced, SessionsTraced, IssuesSound, KnownPolicy;
    if Possible(w, e) { BeginKeepsClaims(w, env, e.rid, e.policy, e.body, e.saves); }
  }

  ghost predicate AllClaimsHeld(w: World) {
    forall k :: C.ClaimsHeld(w.cache, k)
  }

  lemma StepHoldsClaims(w: World, capacity: nat, env: Env, e: Event)
    requires env.ttl.Int? && AllClaimsHeld(w)
    ensures AllClaimsHeld(Step(w, capacity, env, e))
  {
    hide Step, C.Step, C.ClaimsHeld, C.AddOnly, CacheEvent;
    CacheMoves(w, capacity, env, e);
    var moves := CacheEvent(w, env, e);
    forall k ensures C.ClaimsHeld(Step(w, capacity, env, e).cache, k) {
      if moves != [] {
        AtMostOne(w, env, e);
        assert moves == [moves[0]];
        C.StepKeepsClaims(w.cache, capacity, moves[0], k);
      }
    }
  }

  lemma AtMostOne(w: World, env: Env, e: Event)
    requires env.ttl.Int?
    ensures |CacheEvent(w, env, e)| <= 1
  {
  }

  // ---------------------------------------------------------------- main results

  lemma {:induction false} RunStaysSound(w: World, capacity: nat, env: Env, events: seq<Event>)
    requires env.ttl.Int? && Sound(w, env) && AllClaimsHeld(w)
    ensures Sound(Run(w, capacity, env, events), env) && AllClaimsHeld(Run(w, capacity, env, events))
    decreases |events|
  {
    hide Step, Sound, AllClaimsHeld;
    if events != [] {
      StepStaysSound(w, capacity, env, events[0]);
      StepHoldsClaims(w, capacity, env, events[0]);
      RunStaysSound(Step(w, capacity, env, events[0]), capacity, env, events[1..]);
    }
  }

  lemma InitialIsSound(start: real, env: Env)
    requires env.ttl.Int?
    ensures Sound(Initial(start), env) && AllClaimsHeld(Initial(start))
  {
  }

  /** Whatever requests race over whatever copies, each request past the boundary is the other
      half of one earlier options ceremony, within its lifetime: same purpose, surface, session
      binding and subject, and a signature over the very challenge announced. */
  lemma EveryPassDescends(start: real, capacity: nat, env: Env, events: seq<Event>)
    requires env.ttl.Int?
    ensures var w := Run(Initial(start), capacity, env, events);
            forall j | 0 <= j < |w.passes| :: TracedPass(w.issues, env, w.passes[j])
  {
    hide Run, PassFor, IssuesSound, SessionsTraced, ClaimsTraced, CacheTraced, PassesLogged;
    InitialIsSound(start, env);
    RunStaysSound(Initial(start), capacity, env, events);
  }

  /** Two requests past the boundary on one nonce: the later one claimed only after the whole
      second in which the challenge had already expired, and after the second of its own age
      check. So a request whose check and claim fall in one second is never a second use. */
  lemma SecondUseIsLate(start: real, capacity: nat, env: Env, events: seq<Event>, j: nat, k: nat)
    requires env.ttl.Int?
    requires var w := Run(Initial(start), capacity, env, events);
             j < k < |w.passes| && w.passes[j].nonce == w.passes[k].nonce
    ensures var w := Run(Initial(start), capacity, env, events);
            && (exists i :: 0 <= i < |w.issues| && PassFor(w.issues[i], env, w.passes[j]) && PassFor(w.issues[i], env, w.passes[k])
                            && C.ExpiresAt(w.issues[i].at, env.ttl.n) < C.Sec(w.passes[k].claimed))
            && C.Sec(w.passes[k].checked) < C.Sec(w.passes[k].claimed)
  {
    hide Run, ClaimKey, C.ExpiresAt, RecordOf, Traced, CacheTraced, SessionsTraced, ClaimsTraced;
    InitialIsSound(start, env);
    RunStaysSound(Initial(start), capacity, env, events);
    var w := Run(Initial(start), capacity, env, events);
    var p, q := w.passes[j], w.passes[k];
    var a, b := w.cache.log[p.slot], w.cache.log[q.slot];
    assert C.ClaimsHeld(w.cache, ClaimKey(p.nonce));
    assert p.slot < q.slot && a.key == b.key;
    assert C.ExpiresAt(p.claimed, env.ttl.n) < C.Sec(q.claimed);
    var i :| 0 <= i < |w.issues| && PassFor(w.issues[i], env, p);
    var h :| 0 <= h < |w.issues| && PassFor(w.issues[h], env, q);
    assert i == h;
    C.WholeSeconds(w.issues[i].at, p.claimed, env.ttl.n);
    C.WholeSeconds(p.claimed, p.claimed, env.ttl.n);
    C.WholeSeconds(q.checked, w.issues[i].at + env.ttl.n as real, env.ttl.n);
  }

  /** With the check and the claim of each request at one clock reading, or only in one second,
      no nonce lets two requests past, however many race for it. */
  lemma EachNonceOnce(start: real, capacity: nat, env: Env, events: seq<Event>)
    requires env.ttl.Int?
    requires forall p | p in Run(Initial(start), capacity, env, events).passes :: C.Sec(p.claimed) == C.Sec(p.checked)
    ensures var w := Run(Initial(start), capacity, env, events);
            forall j, k | 0 <= j < k < |w.passes| :: w.passes[j].nonce != w.passes[k].nonce
  {
    hide Run;
    var w := Run(Initial(start), capacity, env, events);
    forall j, k | 0 <= j < k < |w.passes| ensures w.passes[j].nonce != w.passes[k].nonce {
      assert w.passes[k] in w.passes;
      if w.passes[j].nonce == w.passes[k].nonce { SecondUseIsLate(start, capacity, env, events, j, k); }
    }
  }
}
