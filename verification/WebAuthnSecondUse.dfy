/** A challenge used twice: the exact condition over any run, and exactly when a request that stalls
    between its age check and its claim gets past after another has used the same challenge. */
module WebAuthnSecondUse {
  import opened Prelude
  import opened WebAuthn
  import opened WebAuthnRaces
  import B = Base64Url
  import C = SecurityCache

  // ---------------------------------------------------------------- one use

  /** The session st holds the record of issue i, and the request answers it. */
  predicate Fits(i: Issue, policy: Policy, body: Option<Value>, env: Env, st: Entries) {
    && ChallengeTtl(env).Open? && KnownPolicy(policy) && WellIssued(i, i.at)
    && CHALLENGE_KEY in st && st[CHALLENGE_KEY] == RecordOf(i)
    && policy.purpose == i.policy.purpose && Binding(st) == Some(i.binding)
    && (policy.purpose == "account.login" || Subject(st - {CHALLENGE_KEY}, policy, env) == i.subject)
    && Signed(body, policy, env) == Open(i.challenge)
  }

  /** The request has loaded st and does nothing yet. */
  predicate Ready(w: World, rid: nat, st: Entries) {
    Free(w, rid) && w.requests[rid].store == st && rid !in w.cache.inflight
  }

  /** A completion request that stalls between its age check and its claim. */
  function UseOf(rid: nat, policy: Policy, body: Option<Value>, stall: real): seq<Event> {
    [Begin(rid, policy, body, true), Tick(stall), CheckRoom(rid), WriteClaim(rid, true)]
  }

  /** The steps of one request leave those of every other alone. */
  predicate SparesOthers(w: World, w1: World, rid: nat) {
    forall r | r in w.requests && r != rid :: r in w1.requests && w1.requests[r] == w.requests[r]
  }

  predicate Adds(w: World, w1: World, nonce: string, passes: bool) {
    if passes then |w1.passes| == |w.passes| + 1 && w1.passes[..|w.passes|] == w.passes && w1.passes[|w.passes|].nonce == nonce
    else w1.passes == w.passes
  }

  function ClaimOf(i: Issue, policy: Policy, body: Option<Value>, now: real): Claiming {
    Claiming(policy, body, RecordOf(i).entries, i.nonce, now)
  }

  lemma BeginOutcome(w: World, capacity: nat, env: Env, rid: nat, st: Entries, i: Issue, policy: Policy, body: Option<Value>)
    requires Fits(i, policy, body, env, st) && Ready(w, rid, st)
    ensures var w1 := Step(w, capacity, env, Begin(rid, policy, body, true));
            && w1.cache == w.cache && w1.passes == w.passes && SparesOthers(w, w1, rid) && rid in w1.requests
            && (if InTime(i, env, w.cache.now)
                then w1.requests[rid] == w.requests[rid].(store := st - {CHALLENGE_KEY},
                                                          claiming := Some(ClaimOf(i, policy, body, w.cache.now)))
                else Free(w1, rid))
  {
    hide Metadata, NonceToClaim, KnownPolicy, Subject, Signed;
    NonceExactly(st - {CHALLENGE_KEY}, env, w.cache.now, i.policy.purpose, i.at, i.challenge, i.binding,
                 if i.subject.Some? then Some(Sha256(i.subject.value)) else None, i.nonce);
    assert Binding(st - {CHALLENGE_KEY}) == Binding(st);
    PresentedFromRecord(st, env, w.cache.now, true);
  }

  function AddAt(w: World, capacity: nat, env: Env, nonce: string): (map<string, C.Row<bool>>, C.AddResult)
    requires env.ttl.Int?
  {
    C.Add(w.cache.rows, capacity, ClaimKey(nonce), true, env.ttl.n, w.cache.now, w.cache.now, w.cache.now, true)
  }

  /** Room check and write, one after the other, are the cache's `add`. */
  lemma CheckThenWrite(c: C.World<bool>, capacity: nat, rid: nat, key: string, ttl: int)
    requires rid !in c.inflight
    ensures var c1 := C.Step(c, capacity, C.Check(rid, key, C.AddMode));
            var c2 := C.Step(c1, capacity, C.Write(rid, true, ttl, true));
            var add := C.Add(c.rows, capacity, key, true, ttl, c.now, c.now, c.now, true);
            && c2.rows == add.0 && c2.inflight == c.inflight && c2.now == c.now
            && c1.log == c.log && (|c2.log| > |c.log| <==> add.1.Stored?)
            && (rid !in c1.inflight ==> c1 == c2)
  {
    hide C.ExpiresAt, C.Expired;
    var c1 := C.Step(c, capacity, C.Check(rid, key, C.AddMode));
    if rid in c1.inflight { assert c1.inflight - {rid} == c.inflight; }
  }

  /** Once its claim is stored, a request that answers the issue gets past. */
  lemma FinishOutcome(w: World, env: Env, rid: nat, slot: nat, st: Entries, i: Issue, policy: Policy, body: Option<Value>,
                      checked: real)
    requires Fits(i, policy, body, env, st) && rid in w.requests
    requires w.requests[rid].store == st - {CHALLENGE_KEY} && w.requests[rid].claiming == Some(ClaimOf(i, policy, body, checked))
    ensures var w1 := Finish(w, env, rid, slot);
            w1.cache == w.cache && SparesOthers(w, w1, rid) && Adds(w, w1, i.nonce, true)
  {
    hide ExpectedDigest, MatchBody, KnownPolicy, Subject, Signed, Binding, Metadata;
    DigestExactly(st - {CHALLENGE_KEY}, policy, env, i.policy, i.at, i.challenge, i.binding, i.subject, i.nonce);
    BodyExactly(body, policy, env, i.challenge);
  }

  /** The claim and what follows it. */
  lemma ClaimOutcome(w: World, capacity: nat, env: Env, rid: nat, st: Entries, i: Issue, policy: Policy, body: Option<Value>,
                     checked: real)
    requires Fits(i, policy, body, env, st) && rid in w.requests && rid !in w.cache.inflight
    requires w.requests[rid].store == st - {CHALLENGE_KEY} && w.requests[rid].claiming == Some(ClaimOf(i, policy, body, checked))
    ensures var w2 := Step(Step(w, capacity, env, CheckRoom(rid)), capacity, env, WriteClaim(rid, true));
            var add := AddAt(w, capacity, env, i.nonce);
            && w2.cache.rows == add.0 && w2.cache.inflight == w.cache.inflight && w2.cache.now == w.cache.now
            && SparesOthers(w, w2, rid) && Adds(w, w2, i.nonce, add.1.Stored?)
  {
    hide Step, C.Step, C.Add, RecordOf, Fits, KnownPolicy, ClaimKey, Finish;
    assert env.ttl.Int? by { FitsTtl(i, policy, body, env, st); }
    CheckThenWrite(w.cache, capacity, rid, ClaimKey(i.nonce), env.ttl.n);
    CheckRoomStep(w, capacity, env, rid);
    var w1 := w.(cache := C.Step(w.cache, capacity, C.Check(rid, ClaimKey(i.nonce), C.AddMode)));
    WriteClaimStep(w1, capacity, env, rid);
    if rid in w1.cache.inflight {
      var w2 := w1.(cache := C.Step(w1.cache, capacity, C.Write(rid, true, env.ttl.n, true)));
      if |w2.cache.log| > |w.cache.log| { FinishOutcome(w2, env, rid, |w.cache.log|, st, i, policy, body, checked); }
    }
  }

  lemma FitsTtl(i: Issue, policy: Policy, body: Option<Value>, env: Env, st: Entries)
    requires Fits(i, policy, body, env, st)
    ensures env.ttl.Int?
  {
  }

  lemma WriteClaimStep(w: World, capacity: nat, env: Env, rid: nat)
    requires env.ttl.Int? && Busy(w, rid)
    ensures Step(w, capacity, env, WriteClaim(rid, true)) ==
              if rid in w.cache.inflight then ClaimStep(w, capacity, env, rid, true) else w
  {
    hide ClaimStep;
  }

  lemma CheckRoomStep(w: World, capacity: nat, env: Env, rid: nat)
    requires env.ttl.Int? && Busy(w, rid)
    ensures Step(w, capacity, env, CheckRoom(rid))
         == w.(cache := C.Step(w.cache, capacity, C.Check(rid, ClaimKey(w.requests[rid].claiming.value.nonce), C.AddMode)))
  {
    hide C.Step;
  }

  lemma IdleOutcome(w: World, capacity: nat, env: Env, rid: nat)
    requires env.ttl.Int? && Free(w, rid)
    ensures Step(Step(w, capacity, env, CheckRoom(rid)), capacity, env, WriteClaim(rid, true)) == w
  {
  }

  lemma TickOutcome(w: World, capacity: nat, env: Env, elapsed: real)
    requires env.ttl.Int? && elapsed >= 0.0
    ensures Step(w, capacity, env, Tick(elapsed)) == w.(cache := w.cache.(now := w.cache.now + elapsed))
  {
  }

  lemma RunFirst(w: World, capacity: nat, env: Env, e: Event, rest: seq<Event>)
    requires env.ttl.Int?
    ensures Run(w, capacity, env, [e] + rest) == Run(Step(w, capacity, env, e), capacity, env, rest)
  {
    hide Step;
    assert ([e] + rest)[1..] == rest;
  }

  lemma RunFour(w: World, capacity: nat, env: Env, a: Event, b: Event, c: Event, d: Event)
    requires env.ttl.Int?
    ensures Run(w, capacity, env, [a, b, c, d])
         == Step(Step(Step(Step(w, capacity, env, a), capacity, env, b), capacity, env, c), capacity, env, d)
  {
    hide Step;
    assert [a, b, c, d] == [a] + ([b] + ([c] + ([d] + [])));
    var w1 := Step(w, capacity, env, a);
    var w2 := Step(w1, capacity, env, b);
    RunFirst(w, capacity, env, a, [b] + ([c] + ([d] + [])));
    RunFirst(w1, capacity, env, b, [c] + ([d] + []));
    RunFirst(w2, capacity, env, c, [d] + []);
    RunFirst(Step(w2, capacity, env, c), capacity, env, d, []);
  }

  lemma {:induction false} RunConcat(w: World, capacity: nat, env: Env, first: seq<Event>, rest: seq<Event>)
    requires env.ttl.Int?
    ensures Run(w, capacity, env, first + rest) == Run(Run(w, capacity, env, first), capacity, env, rest)
    decreases |first|
  {
    hide Step;
    if first == [] {
      assert first + rest == rest;
    } else {
      RunConcat(Step(w, capacity, env, first[0]), capacity, env, first[1..], rest);
      assert (first + rest)[1..] == first[1..] + rest;
    }
  }

  /** A request that answers an issue gets past exactly when its age check is in time and its claim,
      written after the stall, is stored; nothing else of the run is disturbed. */
  lemma UseExactly(w: World, capacity: nat, env: Env, rid: nat, st: Entries, i: Issue, policy: Policy, body: Option<Value>,
                   stall: real)
    requires Fits(i, policy, body, env, st) && Ready(w, rid, st) && stall >= 0.0
    ensures var w1 := Run(w, capacity, env, UseOf(rid, policy, body, stall));
            var inTime := InTime(i, env, w.cache.now);
            var later := w.cache.now + stall;
            var add := C.Add(w.cache.rows, capacity, ClaimKey(i.nonce), true, env.ttl.n, later, later, later, true);
            && w1.cache.now == later && w1.cache.inflight == w.cache.inflight
            && w1.cache.rows == (if inTime then add.0 else w.cache.rows)
            && SparesOthers(w, w1, rid)
            && Adds(w, w1, i.nonce, inTime && add.1.Stored?)
  {
    hide Step, C.Add, Run, RecordOf, WellIssued, KnownPolicy, Subject, Signed, Binding, ClaimKey, ChallengeTtl;
    FitsTtl(i, policy, body, env, st);
    BeginOutcome(w, capacity, env, rid, st, i, policy, body);
    var w1 := Step(w, capacity, env, Begin(rid, policy, body, true));
    TickOutcome(w1, capacity, env, stall);
    var w2 := Step(w1, capacity, env, Tick(stall));
    RunFour(w, capacity, env, Begin(rid, policy, body, true), Tick(stall), CheckRoom(rid), WriteClaim(rid, true));
    if InTime(i, env, w.cache.now) {
      ClaimOutcome(w2, capacity, env, rid, st, i, policy, body, w.cache.now);
    } else {
      IdleOutcome(w2, capacity, env, rid);
    }
  }

  // ---------------------------------------------------------------- the ceremony and its two uses

  /** An options response for request 0 of session 0, which requests 1 and 2 then load. */
  function Opening(s0: Entries, issuing: Policy, payload: Option<Entries>, spare: string, nonce: string): seq<Event> {
    [Load(0, 0), Work(0, s0), Options(0, issuing, payload, spare, nonce, true), Load(1, 0), Load(2, 0)]
  }

  /** The options response over s0 succeeds, with long enough random texts. */
  predicate Opens(s0: Entries, issuing: Policy, payload: Option<Entries>, env: Env, start: real, spare: string, nonce: string) {
    && KnownPolicy(issuing) && CHALLENGE_KEY !in s0 && |spare| >= 32 && 32 <= |nonce| <= 256
    && Issued(s0, issuing, payload, env, start, spare, nonce)
  }

  /** The body signs the challenge that response announces, for the same purpose. */
  predicate Answers(s0: Entries, issuing: Policy, payload: Option<Entries>, env: Env, policy: Policy, body: Option<Value>) {
    && KnownPolicy(policy) && policy.purpose == issuing.purpose
    && RequireVerification(s0, issuing, payload).Open?
    && Signed(body, policy, env).Open?
    && Signed(body, policy, env) == Announced(RequireVerification(s0, issuing, payload).value.1, issuing)
  }

  /** What that response leaves in the session: a bound copy with the issue's record. */
  lemma OptionsStore(s0: Entries, issuing: Policy, payload: Option<Entries>, env: Env, start: real, spare: string, nonce: string)
    requires Opens(s0, issuing, payload, env, start, spare, nonce)
    ensures var i := IssueOf(s0, issuing, payload, env, start, spare, nonce);
            var b := Bound(RequireVerification(s0, issuing, payload).value.0, spare);
            && OnOptions(s0, issuing, payload, env, start, spare, nonce, true).store == b[CHALLENGE_KEY := RecordOf(i)]
            && CHALLENGE_KEY !in b && ChallengeTtl(env).Open? && WellIssued(i, start) && i.at == start && i.nonce == nonce
            && Binding(b) == Some(i.binding) && i.subject == Subject(b, issuing, env)
  {
    OptionsTraced(s0, issuing, payload, env, start, spare, nonce, true);
    var (t, sent) := RequireVerification(s0, issuing, payload).value;
    hide PublicKey, WithPublicKey, Announced, B.Decode, Subject, Metadata, KnownPolicy;
    StoredRecord(t, issuing, sent, env, start, spare, nonce, true);
  }

  lemma OptionsFit(s0: Entries, issuing: Policy, payload: Option<Entries>, env: Env, start: real, spare: string,
                   nonce: string, policy: Policy, body: Option<Value>)
    requires Opens(s0, issuing, payload, env, start, spare, nonce) && Answers(s0, issuing, payload, env, policy, body)
    ensures Fits(IssueOf(s0, issuing, payload, env, start, spare, nonce), policy, body, env,
                 OnOptions(s0, issuing, payload, env, start, spare, nonce, true).store)
  {
    hide Issued, OnOptions, RequireVerification, Bound, RecordOf, Announced, Signed, AdminSubject, PendingSubject,
         AuthenticatedSubject;
    OptionsStore(s0, issuing, payload, env, start, spare, nonce);
    var b := Bound(RequireVerification(s0, issuing, payload).value.0, spare);
    var st := OnOptions(s0, issuing, payload, env, start, spare, nonce, true).store;
    assert st - {CHALLENGE_KEY} == b;
  }

  function Opened(s0: Entries, issuing: Policy, payload: Option<Entries>, env: Env, start: real, spare: string, nonce: string): World
    requires Opens(s0, issuing, payload, env, start, spare, nonce)
  {
    var st := OnOptions(s0, issuing, payload, env, start, spare, nonce, true).store;
    var q := Request(0, st, None);
    World(map[0 := st], map[0 := q, 1 := q, 2 := q], C.World(map[], map[], start, []),
          [IssueOf(s0, issuing, payload, env, start, spare, nonce)], [])
  }

  /** The copy request 0 works on, before the options view answers. */
  function Preparing(s0: Entries, start: real): World {
    Initial(start).(requests := map[0 := Request(0, s0, None)])
  }

  lemma Prepared(s0: Entries, capacity: nat, env: Env, start: real)
    requires env.ttl.Int? && CHALLENGE_KEY !in s0
    ensures Step(Step(Initial(start), capacity, env, Load(0, 0)), capacity, env, Work(0, s0)) == Preparing(s0, start)
  {
  }

  lemma OptionsAnswer(s0: Entries, issuing: Policy, payload: Option<Entries>, capacity: nat, env: Env, start: real,
                      spare: string, nonce: string)
    requires Opens(s0, issuing, payload, env, start, spare, nonce) && env.ttl.Int?
    ensures var w := Step(Preparing(s0, start), capacity, env, Options(0, issuing, payload, spare, nonce, true));
            Step(Step(w, capacity, env, Load(1, 0)), capacity, env, Load(2, 0))
              == Opened(s0, issuing, payload, env, start, spare, nonce)
  {
    hide OnOptions, IssueOf, KnownPolicy, Announced, RequireVerification, RecordOf;
    OptionsSaves(s0, issuing, payload, env, start, spare, nonce);
  }

  lemma OptionsSaves(s0: Entries, issuing: Policy, payload: Option<Entries>, env: Env, start: real, spare: string, nonce: string)
    requires Issued(s0, issuing, payload, env, start, spare, nonce)
    ensures var e := OnOptions(s0, issuing, payload, env, start, spare, nonce, true); e.saved == Some(e.store)
  {
    hide PublicKey, WithPublicKey, B.Decode, Subject, Metadata, Bound;
  }

  lemma OpeningRun(s0: Entries, issuing: Policy, payload: Option<Entries>, capacity: nat, env: Env, start: real,
                   spare: string, nonce: string)
    requires Opens(s0, issuing, payload, env, start, spare, nonce) && env.ttl.Int?
    ensures Run(Initial(start), capacity, env, Opening(s0, issuing, payload, spare, nonce))
         == Opened(s0, issuing, payload, env, start, spare, nonce)
  {
    hide Step, Issued, Opened, Run;
    var answer := Options(0, issuing, payload, spare, nonce, true);
    var rest := [answer, Load(1, 0), Load(2, 0)];
    assert Opening(s0, issuing, payload, spare, nonce) == [Load(0, 0)] + ([Work(0, s0)] + rest);
    RunFirst(Initial(start), capacity, env, Load(0, 0), [Work(0, s0)] + rest);
    RunFirst(Step(Initial(start), capacity, env, Load(0, 0)), capacity, env, Work(0, s0), rest);
    Prepared(s0, capacity, env, start);
    RunThree(Preparing(s0, start), capacity, env, answer, Load(1, 0), Load(2, 0));
    OptionsAnswer(s0, issuing, payload, capacity, env, start, spare, nonce);
  }

  lemma RunThree(w: World, capacity: nat, env: Env, a: Event, b: Event, c: Event)
    requires env.ttl.Int?
    ensures Run(w, capacity, env, [a, b, c]) == Step(Step(Step(w, capacity, env, a), capacity, env, b), capacity, env, c)
  {
    hide Step;
    assert [a, b, c] == [a] + ([b] + ([c] + []));
    var w1 := Step(w, capacity, env, a);
    RunFirst(w, capacity, env, a, [b] + ([c] + []));
    RunFirst(w1, capacity, env, b, [c] + []);
    RunFirst(Step(w1, capacity, env, b), capacity, env, c, []);
  }

  /** Two requests answer one options response: the first at once; the second checks its age `wait`
      seconds later and writes its claim after another `stall` seconds. */
  function TwoUses(s0: Entries, issuing: Policy, payload: Option<Entries>, spare: string, nonce: string, policy: Policy,
                   body: Option<Value>, wait: real, stall: real): seq<Event>
  {
    Opening(s0, issuing, payload, spare, nonce) + (UseOf(1, policy, body, 0.0) + ([Tick(wait)] + UseOf(2, policy, body, stall)))
  }

  /** An empty cache stores the first claim. */
  lemma FirstClaim(w: World, capacity: nat, env: Env, nonce: string)
    requires env.ttl.Int? && w.cache.rows == map[] && capacity >= 1
    ensures AddAt(w, capacity, env, nonce).1.Stored?
    ensures AddAt(w, capacity, env, nonce).0 == map[ClaimKey(nonce) := C.Row(true, C.ExpiresAt(w.cache.now, env.ttl.n))]
  {
    hide C.ExpiresAt, ClaimKey;
    assert C.Purge(w.cache.rows, w.cache.now) == map[];
  }

  /** Both requests get past on one nonce exactly when the second's age check is in time and its claim
      comes after the whole second in which the first claim ends; otherwise the first alone does. */
  lemma StalledClaimIsSecondUse(s0: Entries, issuing: Policy, payload: Option<Entries>, capacity: nat, env: Env,
                                start: real, spare: string, nonce: string, policy: Policy, body: Option<Value>,
                                wait: real, stall: real)
    requires Opens(s0, issuing, payload, env, start, spare, nonce) && Answers(s0, issuing, payload, env, policy, body)
    requires env.ttl.Int? && capacity >= 1 && wait >= 0.0 && stall >= 0.0
    ensures var w := Run(Initial(start), capacity, env, TwoUses(s0, issuing, payload, spare, nonce, policy, body, wait, stall));
            var late := C.Sec(start) + env.ttl.n < C.Sec(start + wait + stall);
            && |w.passes| == (if wait <= env.ttl.n as real && late then 2 else 1)
            && (forall j | 0 <= j < |w.passes| :: w.passes[j].nonce == nonce)
  {
    hide Run, Step, Issued, Opening, UseOf, RecordOf, WellIssued, Binding, Signed, Announced, KnownPolicy, Subject,
         RequireVerification, C.Add, C.ExpiresAt, C.Sec, ClaimKey, ChallengeTtl, IssueOf;
    var w0 := Opened(s0, issuing, payload, env, start, spare, nonce);
    var i := w0.issues[0];
    var st := w0.saved[0];
    OpeningRun(s0, issuing, payload, capacity, env, start, spare, nonce);
    OptionsStore(s0, issuing, payload, env, start, spare, nonce);
    OptionsFit(s0, issuing, payload, env, start, spare, nonce, policy, body);
    var second := [Tick(wait)] + UseOf(2, policy, body, stall);
    RunConcat(Initial(start), capacity, env, Opening(s0, issuing, payload, spare, nonce), UseOf(1, policy, body, 0.0) + second);
    FirstUse(w0, capacity, env, st, i, policy, body);
    var w1 := Run(w0, capacity, env, UseOf(1, policy, body, 0.0));
    RunConcat(w0, capacity, env, UseOf(1, policy, body, 0.0), second);
    RunFirst(w1, capacity, env, Tick(wait), UseOf(2, policy, body, stall));
    TickOutcome(w1, capacity, env, wait);
    SecondUse(Step(w1, capacity, env, Tick(wait)), capacity, env, st, i, policy, body, stall);
  }

  lemma FirstUse(w: World, capacity: nat, env: Env, st: Entries, i: Issue, policy: Policy, body: Option<Value>)
    requires Fits(i, policy, body, env, st) && Ready(w, 1, st) && Ready(w, 2, st) && env.ttl.Int? && capacity >= 1
    requires w.cache == C.World(map[], map[], i.at, []) && w.passes == []
    ensures var w1 := Run(w, capacity, env, UseOf(1, policy, body, 0.0));
            && w1.cache.now == i.at && w1.cache.inflight == map[] && Ready(w1, 2, st)
            && w1.cache.rows == map[ClaimKey(i.nonce) := C.Row(true, C.ExpiresAt(i.at, env.ttl.n))]
            && |w1.passes| == 1 && w1.passes[0].nonce == i.nonce
  {
    hide Run, RecordOf, WellIssued, Binding, Signed, KnownPolicy, Subject, C.Add, C.ExpiresAt, ClaimKey;
    UseExactly(w, capacity, env, 1, st, i, policy, body, 0.0);
    FirstClaim(w, capacity, env, i.nonce);
  }

  lemma SecondUse(w: World, capacity: nat, env: Env, st: Entries, i: Issue, policy: Policy, body: Option<Value>, stall: real)
    requires Fits(i, policy, body, env, st) && Ready(w, 2, st) && env.ttl.Int? && capacity >= 1
    requires i.at <= w.cache.now && stall >= 0.0 && |w.passes| == 1 && w.passes[0].nonce == i.nonce
    requires w.cache.rows == map[ClaimKey(i.nonce) := C.Row(true, C.ExpiresAt(i.at, env.ttl.n))]
    ensures var w1 := Run(w, capacity, env, UseOf(2, policy, body, stall));
            && |w1.passes| == (if w.cache.now <= i.at + env.ttl.n as real
                                  && C.Sec(i.at) + env.ttl.n < C.Sec(w.cache.now + stall) then 2 else 1)
            && (forall j | 0 <= j < |w1.passes| :: w1.passes[j].nonce == i.nonce)
  {
    hide Run, RecordOf, WellIssued, Binding, Signed, KnownPolicy, Subject, C.Add, C.ExpiresAt, C.Sec, ClaimKey;
    UseExactly(w, capacity, env, 2, st, i, policy, body, stall);
    var later := w.cache.now + stall;
    assert |w.cache.rows| == 1;
    C.AgainExactly(w.cache.rows, capacity, ClaimKey(i.nonce), true, env.ttl.n, i.at, later, later, later);
    var w1 := Run(w, capacity, env, UseOf(2, policy, body, stall));
    assert w1.passes[0] == w.passes[0];
  }

  // ---------------------------------------------------------------- in any run

  /** Every row of the cache is some logged claim's. */
  ghost predicate RowsClaimed(c: C.World<bool>) {
    forall k | k in c.rows :: RowClaimed(c, k)
  }

  ghost predicate RowClaimed(c: C.World<bool>, k: string)
    requires k in c.rows
  {
    exists i :: 0 <= i < |c.log| && c.log[i].key == k && c.rows[k].expires == C.ExpiresAt(c.log[i].at, c.log[i].timeout)
  }

  lemma CacheStepClaimed(c: C.World<bool>, capacity: nat, e: C.Event<bool>)
    requires RowsClaimed(c) && !e.TouchRow? && forall i | i in c.inflight :: c.inflight[i].mode.AddMode?
    ensures RowsClaimed(C.Step(c, capacity, e))
  {
    hide RowClaimed, C.ExpiresAt, C.Expired;
    var c1 := C.Step(c, capacity, e);
    forall k | k in c1.rows ensures RowClaimed(c1, k) {
      if k in c.rows && c1.rows[k] == c.rows[k] { OldRowClaimed(c, c1, k); } else { NewRowClaimed(c, capacity, e, k); }
    }
  }

  lemma OldRowClaimed(c: C.World<bool>, c1: C.World<bool>, k: string)
    requires k in c.rows && k in c1.rows && c1.rows[k] == c.rows[k] && RowClaimed(c, k) && c.log <= c1.log
    ensures RowClaimed(c1, k)
  {
    var i :| 0 <= i < |c.log| && c.log[i].key == k && c.rows[k].expires == C.ExpiresAt(c.log[i].at, c.log[i].timeout);
    assert c1.log[i] == c.log[i];
  }

  lemma NewRowClaimed(c: C.World<bool>, capacity: nat, e: C.Event<bool>, k: string)
    requires !e.TouchRow? && forall i | i in c.inflight :: c.inflight[i].mode.AddMode?
    requires var c1 := C.Step(c, capacity, e); k in c1.rows && (k in c.rows ==> c1.rows[k] != c.rows[k])
    ensures RowClaimed(C.Step(c, capacity, e), k)
  {
    hide C.ExpiresAt, C.Expired;
    var c1 := C.Step(c, capacity, e);
    assert c1.log[|c.log|] == C.Claim(k, c.now, e.timeout);
  }

  lemma StepClaimed(w: World, capacity: nat, env: Env, e: Event)
    requires env.ttl.Int? && CacheTraced(w) && RowsClaimed(w.cache)
    ensures RowsClaimed(Step(w, capacity, env, e).cache)
  {
    hide Step, C.Step, RowsClaimed, ClaimKey;
    CacheMoves(w, capacity, env, e);
    var moves := CacheEvent(w, env, e);
    if moves != [] { CacheStepClaimed(w.cache, capacity, moves[0]); }
  }

  lemma {:induction false} RunClaimed(w: World, capacity: nat, env: Env, events: seq<Event>)
    requires env.ttl.Int? && Sound(w, env) && RowsClaimed(w.cache)
    ensures RowsClaimed(Run(w, capacity, env, events).cache)
    decreases |events|
  {
    hide Step, RowsClaimed, IssuesSound, SessionsTraced, ClaimsTraced, CacheTraced, PassesTraced, PassesLogged;
    if events != [] {
      StepStaysSound(w, capacity, env, events[0]);
      StepClaimed(w, capacity, env, events[0]);
      RunClaimed(Step(w, capacity, env, events[0]), capacity, env, events[1..]);
    }
  }

  /** Every claim on the nonce so far has ended, its last whole second included. */
  predicate ClaimsEnded(c: C.World<bool>, nonce: string) {
    forall i | 0 <= i < |c.log| && c.log[i].key == ClaimKey(nonce) :: C.ExpiresAt(c.log[i].at, c.log[i].timeout) < C.Sec(c.now)
  }

  lemma ClaimStoredExactly(c: C.World<bool>, capacity: nat, rid: nat, nonce: string, ttl: int)
    requires rid in c.inflight && c.inflight[rid] == C.Pending(ClaimKey(nonce), C.AddMode)
    requires RowsClaimed(c) && C.ClaimsHeld(c, ClaimKey(nonce))
    ensures |C.Step(c, capacity, C.Write(rid, true, ttl, true)).log| > |c.log| <==> ClaimsEnded(c, nonce)
  {
    hide C.ExpiresAt, C.Sec, ClaimKey;
    var key := ClaimKey(nonce);
    if key in c.rows { assert RowClaimed(c, key); }
    forall i | 0 <= i < |c.log| && c.log[i].key == key
      ensures C.LiveAt(c.rows, key, c.now) || C.ExpiresAt(c.log[i].at, c.log[i].timeout) < C.Sec(c.now)
    {
      assert C.ClaimHeld(c, c.log[i]);
    }
  }

  /** The claiming request answers the issue: it is the other half of its ceremony, in time. */
  predicate AnswersIssue(i: Issue, env: Env, q: Request)
    requires env.ttl.Int? && q.claiming.Some?
  {
    var c := q.claiming.value;
    && ClaimFor(i, env, c, q.store) && c.policy.purpose == i.policy.purpose
    && (c.policy.purpose == "account.login" || Subject(q.store, c.policy, env) == i.subject)
    && Signed(c.body, c.policy, env) == Open(i.challenge)
  }

  predicate Answered(w: World, env: Env, q: Request)
    requires env.ttl.Int? && q.claiming.Some?
  {
    exists i :: 0 <= i < |w.issues| && AnswersIssue(w.issues[i], env, q)
  }

  /** What is left to check once the claim is stored holds exactly of a request that answers an issue. */
  lemma LaterChecksExactly(w: World, env: Env, rid: nat)
    requires env.ttl.Int? && IssuesSound(w) && ClaimsTraced(w, env) && Busy(w, rid)
    ensures var q := w.requests[rid];
            var c := q.claiming.value;
            var digest := ExpectedDigest(q.store, c.record, c.policy, env);
            digest.Open? && MatchBody(c.body, digest.value, c.policy, env).Open? <==> Answered(w, env, q)
  {
    hide KnownPolicy, ExpectedDigest, MatchBody, Signed, Subject, Metadata, InTime;
    var q := w.requests[rid];
    var c := q.claiming.value;
    assert TracedClaim(w.issues, env, q);
    var h :| 0 <= h < |w.issues| && ClaimFor(w.issues[h], env, c, q.store);
    var i := w.issues[h];
    assert WellIssued(i, w.cache.now);
    DigestExactly(q.store, c.policy, env, i.policy, i.at, i.challenge, i.binding, i.subject, i.nonce);
    BodyExactly(c.body, c.policy, env, i.challenge);
    if j :| 0 <= j < |w.issues| && AnswersIssue(w.issues[j], env, q) {
      assert w.issues[j].nonce == c.nonce == i.nonce;
      assert j == h;
    }
  }

  /** After any run, a request that writes its claim gets past exactly when every earlier claim on its
      nonce has ended and it answers an issue: the one condition under which a nonce is used again. */
  lemma NextUseExactly(start: real, capacity: nat, env: Env, events: seq<Event>, rid: nat)
    requires env.ttl.Int?
    requires var w := Run(Initial(start), capacity, env, events); Busy(w, rid) && rid in w.cache.inflight
    ensures var w := Run(Initial(start), capacity, env, events);
            var w1 := Step(w, capacity, env, WriteClaim(rid, true));
            var q := w.requests[rid];
            w1.passes != w.passes <==> ClaimsEnded(w.cache, q.claiming.value.nonce) && Answered(w, env, q)
  {
    hide Run, Step, IssuesSound, SessionsTraced, ClaimsTraced, PassesTraced, PassesLogged, Answered, ClaimsEnded, RowsClaimed;
    InitialIsSound(start, env);
    NothingClaimed(start);
    RunStaysSound(Initial(start), capacity, env, events);
    RunClaimed(Initial(start), capacity, env, events);
    WriteClaimExactly(Run(Initial(start), capacity, env, events), capacity, env, rid);
  }

  lemma NothingClaimed(start: real)
    ensures RowsClaimed(Initial(start).cache)
  {
  }

  lemma WriteClaimExactly(w: World, capacity: nat, env: Env, rid: nat)
    requires env.ttl.Int? && IssuesSound(w) && ClaimsTraced(w, env) && CacheTraced(w) && AllClaimsHeld(w) && RowsClaimed(w.cache)
    requires Busy(w, rid) && rid in w.cache.inflight
    ensures var w1 := Step(w, capacity, env, WriteClaim(rid, true));
            var q := w.requests[rid];
            w1.passes != w.passes <==> ClaimsEnded(w.cache, q.claiming.value.nonce) && Answered(w, env, q)
  {
    hide Step, C.Step, C.ClaimsHeld, IssuesSound, ClaimsTraced, Answered, ClaimsEnded, RowsClaimed, ExpectedDigest, MatchBody,
         Signed, Subject, ClaimKey;
    var q := w.requests[rid];
    ClaimStoredExactly(w.cache, capacity, rid, q.claiming.value.nonce, env.ttl.n);
    LaterChecksExactly(w, env, rid);
    WriteClaimStep(w, capacity, env, rid);
  }

  // ---------------------------------------------------------------- such a run exists

  const ORIGIN := "https://admin.example"
  const ADMIN := Policy("POST", GET, Admin, false, "admin.authenticate")

  /** A pending admin login. */
  function PendingLogin(): Entries {
    PendingAs("1", seq(16, _ => 'f'))
  }

  function ChallengeText(challenge: seq<B.byte>): Value { Text(B.Encode(challenge)) }

  function OptionsPayload(challenge: seq<B.byte>): Entries {
    map["publicKey" := Dict(map["challenge" := ChallengeText(challenge)])]
  }

  /** Client data that signs the challenge; every JSON text reads as it. */
  function ClientData(challenge: seq<B.byte>): Entries {
    map["type" := Text(GET), "challenge" := ChallengeText(challenge), "origin" := Text(ORIGIN)]
  }

  function ExampleEnv(challenge: seq<B.byte>): Env {
    Env(Int(300), [], [Text(ORIGIN)], _ => Some(Dict(ClientData(challenge))), _ => "", _ => "")
  }

  function ExampleBody(challenge: seq<B.byte>): Value {
    Dict(map["response" := Dict(map["clientDataJSON" := ChallengeText(challenge)])])
  }

  lemma ExampleSigned(challenge: seq<B.byte>)
    requires challenge != []
    ensures Signed(Some(ExampleBody(challenge)), ADMIN, ExampleEnv(challenge)) == Open(challenge)
    ensures Announced(Some(OptionsPayload(challenge)), ADMIN) == Open(challenge)
  {
    B.DecodeOfEncode(challenge);
    hide B.Encode, B.Decode;
  }

  lemma ExampleOpens(challenge: seq<B.byte>, spare: string, nonce: string)
    requires challenge != [] && |spare| >= 32 && 32 <= |nonce| <= 256
    ensures Opens(PendingLogin(), ADMIN, Some(OptionsPayload(challenge)), ExampleEnv(challenge), 0.0, spare, nonce)
    ensures Answers(PendingLogin(), ADMIN, Some(OptionsPayload(challenge)), ExampleEnv(challenge), ADMIN,
                    Some(ExampleBody(challenge)))
  {
    ExampleSigned(challenge);
    ExampleStored(challenge, spare, nonce);
    hide B.Encode, B.Decode, Signed, Announced, StoreChallenge, ExampleBody, OptionsPayload, ExampleEnv;
  }

  lemma ExampleStored(challenge: seq<B.byte>, spare: string, nonce: string)
    requires challenge != []
    ensures StoreChallenge(PendingLogin(), ADMIN, Some(OptionsPayload(challenge)), ExampleEnv(challenge), 0.0, spare, nonce,
                           true).gate.Open?
  {
    B.DecodeOfEncode(challenge);
    hide B.Encode, B.Decode, Metadata;
    assert AdminSubject(Bound(PendingLogin(), spare)).Some?;
  }

  /** One second too late with a lifetime of five minutes, and one nonce has let two requests past. */
  lemma SecondUseHappens(challenge: seq<B.byte>, spare: string, nonce: string)
    requires challenge != [] && |spare| >= 32 && 32 <= |nonce| <= 256
    ensures var events := TwoUses(PendingLogin(), ADMIN, Some(OptionsPayload(challenge)), spare, nonce, ADMIN,
                                  Some(ExampleBody(challenge)), 300.0, 1.0);
            var w := Run(Initial(0.0), 1, ExampleEnv(challenge), events);
            |w.passes| == 2 && w.passes[0].nonce == w.passes[1].nonce == nonce
  {
    hide Run, TwoUses, Opens, Answers, PendingLogin, OptionsPayload, ExampleBody;
    ExampleOpens(challenge, spare, nonce);
    StalledClaimIsSecondUse(PendingLogin(), ADMIN, Some(OptionsPayload(challenge)), 1, ExampleEnv(challenge), 0.0, spare,
                            nonce, ADMIN, Some(ExampleBody(challenge)), 300.0, 1.0);
  }
}
