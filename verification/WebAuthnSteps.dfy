/** The steps of a completion request are the middleware's taken apart: run alone, with whatever pauses,
    they end as the request does. */
module WebAuthnSteps {
  import opened Prelude
  import opened W = WebAuthn
  import opened WebAuthnRaces
  import C = SecurityCache

  lemma RunFirst(w: World, capacity: nat, env: Env, e: Event, rest: seq<Event>)
    requires env.ttl.Int?
    ensures Run(w, capacity, env, [e] + rest) == Run(Step(w, capacity, env, e), capacity, env, rest)
  {
    hide Step;
    assert ([e] + rest)[1..] == rest;
  }

  lemma RunThree(w: World, capacity: nat, env: Env, a: Event, b: Event, c: Event)
    requires env.ttl.Int?
    ensures Run(w, capacity, env, [a, b, c])
         == Step(Step(Step(w, capacity, env, a), capacity, env, b), capacity, env, c)
  {
    hide Step;
    assert [a, b, c] == [a] + ([b] + ([c] + []));
    var w1 := Step(w, capacity, env, a);
    RunFirst(w, capacity, env, a, [b] + ([c] + []));
    RunFirst(w1, capacity, env, b, [c] + []);
    RunFirst(Step(w1, capacity, env, b), capacity, env, c, []);
  }

  lemma RunTwo(w: World, capacity: nat, env: Env, a: Event, b: Event)
    requires env.ttl.Int?
    ensures Run(w, capacity, env, [a, b]) == Step(Step(w, capacity, env, a), capacity, env, b)
  {
    hide Step;
    assert [a, b] == [a] + ([b] + []);
    RunFirst(w, capacity, env, a, [b] + []);
    RunFirst(Step(w, capacity, env, a), capacity, env, b, []);
  }

  // ---------------------------------------------------------------- the claim

  /** What the `add` of the claim does, checked and written after these pauses. */
  function Claimed(w: World, capacity: nat, nonce: string, ttl: int, first: real, second: real, ok: bool):
    (map<string, C.Row<bool>>, C.AddResult)
  {
    var checked, written := w.cache.now + first, w.cache.now + first + second;
    C.Add(w.cache.rows, capacity, ClaimKey(nonce), true, ttl, checked, written, written, ok)
  }

  /** The claim is written if there was room for it, and given up otherwise. */
  function Settles(w: World, capacity: nat, env: Env, rid: nat, ok: bool): World
    requires env.ttl.Int?
  {
    Step(w, capacity, env, if rid in w.cache.inflight then WriteClaim(rid, ok) else Abandon(rid))
  }

  /** Busy, the request checks for room, pauses and settles its claim. */
  function Claims(w: World, capacity: nat, env: Env, rid: nat, first: real, second: real, ok: bool): World
    requires env.ttl.Int?
  {
    Settles(Run(w, capacity, env, [Tick(first), CheckRoom(rid), Tick(second)]), capacity, env, rid, ok)
  }

  /** The checks after the claim let the request through. */
  predicate LaterChecks(q: Request, c: Claiming, env: Env) {
    var digest := ExpectedDigest(q.store, c.record, c.policy, env);
    digest.Open? && MatchBody(c.body, digest.value, c.policy, env).Open?
  }

  function PassOf(q: Request, c: Claiming, env: Env, claimed: real, slot: nat): Pass {
    Pass(c.policy, c.checked, claimed, Signed(c.body, c.policy, env), Binding(q.store), Subject(q.store, c.policy, env),
         c.nonce, slot)
  }

  /** The cache ends as `add` leaves it, and the request is let through exactly if the claim is its own and
      the later checks pass; either way it is over. */
  lemma ClaimsExactly(w: World, capacity: nat, env: Env, rid: nat, first: real, second: real, ok: bool)
    requires env.ttl.Int? && Busy(w, rid) && rid !in w.cache.inflight && first >= 0.0 && second >= 0.0
    ensures var q := w.requests[rid];
            var c := q.claiming.value;
            var (rows, r) := Claimed(w, capacity, c.nonce, env.ttl.n, first, second, ok);
            var w1 := Claims(w, capacity, env, rid, first, second, ok);
            && w1.requests == w.requests[rid := q.(claiming := None)]
            && w1.saved == w.saved && w1.issues == w.issues
            && w1.cache.rows == rows && w1.cache.inflight == w.cache.inflight && w1.cache.now == w.cache.now + first + second
            && w1.passes == w.passes + if r.Stored? && LaterChecks(q, c, env)
                                       then [PassOf(q, c, env, w1.cache.now, |w.cache.log|)] else []
  {
    hide Run, C.Add, C.Step, Step, Settles, ClaimKey, LaterChecks, PassOf;
    var c := w.requests[rid].claiming.value;
    var w3 := Step(Step(Step(w, capacity, env, Tick(first)), capacity, env, CheckRoom(rid)), capacity, env, Tick(second));
    RunThree(w, capacity, env, Tick(first), CheckRoom(rid), Tick(second));
    Checks(w, capacity, env, rid, first, second);
    Writes(w3, capacity, env, rid, ok);
    C.AddInSteps(w.cache.(now := w.cache.now + first), capacity, rid, ClaimKey(c.nonce), true, env.ttl.n, second, ok);
    CheckKeepsLog(w.cache.(now := w.cache.now + first), capacity, rid, ClaimKey(c.nonce), second);
  }

  lemma Checks(w: World, capacity: nat, env: Env, rid: nat, first: real, second: real)
    requires env.ttl.Int? && Busy(w, rid) && first >= 0.0
    ensures var c := w.requests[rid].claiming.value;
            var checked := C.Step(w.cache.(now := w.cache.now + first), capacity, C.Check(rid, ClaimKey(c.nonce), C.AddMode));
            Step(Step(Step(w, capacity, env, Tick(first)), capacity, env, CheckRoom(rid)), capacity, env, Tick(second))
              == w.(cache := C.Step(checked, capacity, C.Advance(second)))
  {
    hide C.Step, ClaimKey, ClaimStep, OptionsStep, BeginStep;
    Advances(w.cache, capacity, first);
  }

  lemma Advances(c: C.World<bool>, capacity: nat, elapsed: real)
    requires elapsed >= 0.0
    ensures C.Step(c, capacity, C.Advance(elapsed)) == c.(now := c.now + elapsed)
  {
  }

  lemma CheckKeepsLog(c: C.World<bool>, capacity: nat, rid: nat, key: string, pause: real)
    ensures C.Step(C.Step(c, capacity, C.Check(rid, key, C.AddMode)), capacity, C.Advance(pause)).log == c.log
  {
  }

  /** Either way the request is no longer between its check and its claim. */
  lemma Writes(w: World, capacity: nat, env: Env, rid: nat, ok: bool)
    requires env.ttl.Int? && Busy(w, rid)
    ensures var q := w.requests[rid];
            var cache := C.Step(w.cache, capacity, C.Write(rid, true, env.ttl.n, ok));
            Settles(w, capacity, env, rid, ok)
              == w.(cache := cache, requests := w.requests[rid := q.(claiming := None)],
                    passes := w.passes + if |cache.log| > |w.cache.log| && LaterChecks(q, q.claiming.value, env)
                                         then [PassOf(q, q.claiming.value, env, cache.now, |w.cache.log|)] else [])
  {
    hide C.CanStore, C.BaseSet, ExpectedDigest, MatchBody, Signed, Subject, Binding, OptionsStep, BeginStep, ClaimKey;
    assert w.passes + [] == w.passes;
    if rid !in w.cache.inflight { assert w.cache.inflight - {rid} == w.cache.inflight; }
  }

  // ---------------------------------------------------------------- the whole request

  /** How the claim of a completion request alone would end, should it get that far. */
  function ClaimResult(w: World, capacity: nat, env: Env, rid: nat, first: real, second: real, saves: bool, ok: bool):
    (map<string, C.Row<bool>>, C.AddResult)
    requires env.ttl.Int? && rid in w.requests
  {
    var nonce := Presented(w.requests[rid].store, env, w.cache.now, saves);
    if nonce.Open? then Claimed(w, capacity, nonce.value, env.ttl.n, first, second, ok) else (w.cache.rows, C.CapacityError)
  }

  /** A completion request alone ends as `Complete` says: same copy, same saved session, same cache, and
      it is let through exactly if that opens. */
  lemma UninterruptedIsComplete(w: World, capacity: nat, env: Env, rid: nat, policy: Policy, body: Option<Value>, saves: bool,
                                first: real, second: real, ok: bool)
    requires env.ttl.Int? && Free(w, rid) && KnownPolicy(policy) && rid !in w.cache.inflight && first >= 0.0 && second >= 0.0
    ensures var q := w.requests[rid];
            var begun := Step(w, capacity, env, Begin(rid, policy, body, saves));
            var w1 := if Busy(begun, rid) then Claims(begun, capacity, env, rid, first, second, ok) else begun;
            var (rows, r) := ClaimResult(w, capacity, env, rid, first, second, saves, ok);
            var done := Complete(q.store, policy, env, w.cache.now, body, saves, r);
            && (Busy(begun, rid) <==> Presented(q.store, env, w.cache.now, saves).Open?)
            && w1.requests == w.requests[rid := q.(store := done.store)]
            && w1.saved == (if done.saved.Some? then w.saved[q.sid := done.saved.value] else w.saved)
            && w1.issues == w.issues && w1.cache.rows == rows && w1.cache.inflight == w.cache.inflight
            && (if done.gate.Open?
                then |w1.passes| == |w.passes| + 1 && w1.passes[..|w.passes|] == w.passes
                     && PassesAs(w1.passes[|w.passes|], q.store, env, policy, w.cache.now, saves, w.cache.now + first + second)
                else w1.passes == w.passes)
  {
    hide Run, Step, Claims, C.Add, KnownPolicy, TakeRecord, Presented, ExpectedDigest, MatchBody, Signed, Subject, Binding;
    Begins(w, capacity, env, rid, policy, body, saves);
    var begun := Step(w, capacity, env, Begin(rid, policy, body, saves));
    if Busy(begun, rid) {
      ClaimsExactly(begun, capacity, env, rid, first, second, ok);
      var q := w.requests[rid].(store := begun.requests[rid].store);
      assert begun.requests[rid := q] == w.requests[rid := q];
    }
  }

  /** A request let through: when it was checked and claimed, for which route and nonce. */
  predicate PassesAs(p: Pass, s: Entries, env: Env, policy: Policy, checked: real, saves: bool, claimed: real) {
    p.policy == policy && p.checked == checked && p.claimed == claimed && Presented(s, env, checked, saves) == Open(p.nonce)
  }

  /** The start of a completion request: its record is taken, and its nonce is ready to be claimed or it is over. */
  lemma Begins(w: World, capacity: nat, env: Env, rid: nat, policy: Policy, body: Option<Value>, saves: bool)
    requires env.ttl.Int? && Free(w, rid) && KnownPolicy(policy)
    ensures var q := w.requests[rid];
            var taken, nonce := TakeRecord(q.store, saves), Presented(q.store, env, w.cache.now, saves);
            var w1 := Step(w, capacity, env, Begin(rid, policy, body, saves));
            && (nonce.Open? ==> taken.gate.Open? && taken.gate.value.Dict?)
            && w1 == w.(requests := w.requests[rid := Request(q.sid, taken.store,
                            if nonce.Open? then Some(Claiming(policy, body, taken.gate.value.entries, nonce.value, w.cache.now))
                            else None)],
                        saved := if taken.saved.Some? then w.saved[q.sid := taken.saved.value] else w.saved)
  {
    PresentedFromRecord(w.requests[rid].store, env, w.cache.now, saves);
    hide NonceToClaim, KnownPolicy, C.Step, OptionsStep, ClaimStep;
  }

  /** A copy that is saved is what the next request on the session loads. */
  lemma SavedIsLoaded(w: World, capacity: nat, env: Env, rid: nat, other: nat)
    requires env.ttl.Int? && Free(w, rid) && other !in w.requests
    ensures var q := w.requests[rid];
            var w1 := Run(w, capacity, env, [Save(rid), Load(other, q.sid)]);
            w1 == w.(saved := w.saved[q.sid := q.store], requests := w.requests[other := Request(q.sid, q.store, None)])
  {
    hide Run, C.Step, OptionsStep, ClaimStep, BeginStep;
    RunTwo(w, capacity, env, Save(rid), Load(other, w.requests[rid].sid));
  }
}
