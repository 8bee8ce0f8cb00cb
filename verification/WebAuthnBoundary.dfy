/** The boundary as the middleware runs it: session copies updated in place, and the shared
    replay cache. */
module WebAuthnBoundary {
  import opened Prelude
  import opened W = WebAuthn
  import B = Base64Url
  import C = SecurityCache

  /** Clock readings of one claim: at the room check, at the write, at the verifying read. */
  datatype ClaimTimes = ClaimTimes(checked: real, written: real, verified: real)

  /** One session as a request holds it, and what is saved of it. */
  class BoundarySession {
    var store: Entries
    var saved: Entries

    /** The session a request loads. */
    constructor (loaded: Entries)
      ensures store == loaded && saved == loaded
    {
      store := loaded;
      saved := loaded;
    }

    /** The object ends as the effect says. */
    twostate predicate EndsAs<T>(e: Effect<T>)
      reads this
    {
      store == e.store && saved == (if e.saved.Some? then e.saved.value else old(saved))
    }

    method PersistSession(saves: bool) returns (r: Gate<()>)
      modifies this
      ensures EndsAs(Persist(old(store), saves, Open(()))) && r == Persist(old(store), saves, Open(())).gate
    {
      if !saves { return Rejected("challenge_session_save_failed"); }
      saved := store;
      r := Open(());
    }

    method ClearChallenge(saves: bool) returns (r: Gate<()>)
      modifies this
      ensures EndsAs(Clear(old(store), saves)) && r == Clear(old(store), saves).gate
    {
      if CHALLENGE_KEY !in store { return Open(()); }
      store := store - {CHALLENGE_KEY};
      r := PersistSession(saves);
    }

    method SessionBindingDigest(create: bool, spare: string) returns (digest: Option<string>)
      requires |spare| >= 32
      modifies this
      ensures saved == old(saved) && store == if create then Bound(old(store), spare) else old(store)
      ensures digest == if Binding(store).Some? then Some(Sha256(Binding(store).value)) else None
      ensures create ==> digest.Some?
    {
      var binding := At(store, BINDING_KEY);
      if !binding.Text? || |binding.s| < 32 {
        if !create { return None; }
        binding := Text(spare);
        store := store[BINDING_KEY := binding];
      }
      digest := Some(Sha256(binding.s));
    }

    method Store(policy: Policy, payload: Option<Entries>, env: Env, now: real, spare: string, nonce: string, saves: bool)
      returns (r: Gate<()>)
      requires |spare| >= 32
      modifies this
      ensures EndsAs(StoreChallenge(old(store), policy, payload, env, now, spare, nonce, saves))
      ensures r == StoreChallenge(old(store), policy, payload, env, now, spare, nonce, saves).gate
    {
      var ttl := ChallengeTtl(env);
      if ttl.Rejected? { return Rejected(ttl.reason); }
      var key := PublicKey(payload, policy);
      if key.Rejected? { return Rejected(key.reason); }
      var sessionDigest := SessionBindingDigest(true, spare);
      var subject := SubjectDigest(store, policy, env);
      if policy.purpose != "account.login" && subject.None? { return Rejected("subject_binding_missing"); }
      var bytes := B.Decode(TextOf(At(key.value, "challenge")));
      if bytes.Rejected? { return Rejected("options_challenge_invalid"); }
      store := store[CHALLENGE_KEY := Dict(map[
        "version" := Int(1), "purpose" := Text(policy.purpose), "issued_at" := Float(now),
        "challenge_digest" := Text(Sha256(BytesText(bytes.value))),
        "session_binding_digest" := Text(sessionDigest.value),
        "subject_binding_digest" := OptionalText(subject),
        "nonce" := Text(nonce)])];
      r := PersistSession(saves);
    }

    /** The checks of `_consume_challenge` before its claim. */
    method TakeNonce(env: Env, now: real, saves: bool) returns (r: Gate<string>, record: Entries)
      modifies this
      ensures EndsAs(TakeRecord(old(store), saves)) && r == Presented(old(store), env, now, saves)
      ensures r.Open? ==> old(At(store, CHALLENGE_KEY)) == Dict(record)
    {
      var metadata := At(store, CHALLENGE_KEY);
      record := map[];
      store := store - {CHALLENGE_KEY};
      var persisted := PersistSession(saves);
      if persisted.Rejected? { r := Rejected(persisted.reason); return; }
      if !metadata.Dict? { r := Rejected("challenge_metadata_missing"); return; }
      record := metadata.entries;
      if !EqualsOne(At(record, "version")) { r := Rejected("challenge_metadata_invalid"); return; }

      var issuedAt := FiniteNumber(At(record, "issued_at"));
      if issuedAt.None? { r := Rejected("challenge_metadata_invalid"); return; }
      var ttl := ChallengeTtl(env);
      if ttl.Rejected? { r := Rejected(ttl.reason); return; }
      var age := now - issuedAt.value;
      if age < 0.0 || age > ttl.value as real { r := Rejected("challenge_expired"); return; }

      var expected := Binding(store);
      if expected.None? || At(record, "session_binding_digest") != Text(Sha256(expected.value)) {
        r := Rejected("session_binding_mismatch");
        return;
      }
      var nonce := At(record, "nonce");
      if !nonce.Text? || |nonce.s| < 32 || |nonce.s| > 256 { r := Rejected("challenge_metadata_invalid"); return; }
      r := Open(nonce.s);
    }

    /** The checks of `_consume_challenge` after its claim. */
    method DemandedDigest(record: Entries, policy: Policy, env: Env) returns (r: Gate<string>)
      ensures r == ExpectedDigest(store, record, policy, env)
    {
      if At(record, "purpose") != Text(policy.purpose) { return Rejected("challenge_purpose_mismatch"); }
      var subject := SubjectDigest(store, policy, env);
      var stored := At(record, "subject_binding_digest");
      if policy.purpose == "account.login" {
        if !stored.Null? { return Rejected("subject_binding_mismatch"); }
      } else if subject.None? || stored != Text(subject.value) {
        return Rejected("subject_binding_mismatch");
      }
      var digest := At(record, "challenge_digest");
      if !IsSha256Digest(digest) { return Rejected("challenge_metadata_invalid"); }
      r := Open(digest.s);
    }

    /** The replay cache after the request's claim, and what the claim ends in if it is made. */
    ghost function Claiming(cache: map<string, C.Row<bool>>, capacity: nat, env: Env, now: real, saves: bool,
                            times: ClaimTimes, ok: bool): (map<string, C.Row<bool>>, C.AddResult)
      reads this
    {
      var nonce := Presented(store, env, now, saves);
      if nonce.Rejected? || !env.ttl.Int? then (cache, C.Stored)
      else C.Add(cache, capacity, ClaimKey(nonce.value), true, env.ttl.n, times.checked, times.written, times.verified, ok)
    }

    method Consume(policy: Policy, env: Env, now: real, saves: bool, cache: C.FailClosedCache<bool>,
                   times: ClaimTimes, ok: bool)
      returns (r: Gate<string>)
      modifies this, cache
      ensures var (rows, added) := old(Claiming(cache.rows, cache.capacity, env, now, saves, times, ok));
              && cache.rows == rows
              && EndsAs(ConsumeChallenge(old(store), policy, env, now, saves, added))
              && r == ConsumeChallenge(old(store), policy, env, now, saves, added).gate
    {
      hide C.Add, Presented, ExpectedDigest;
      ghost var loaded := store;
      var nonce, record := TakeNonce(env, now, saves);
      PresentedFromRecord(loaded, env, now, saves);
      if nonce.Rejected? { return Rejected(nonce.reason); }
      var claimed := cache.AddKey(ClaimKey(nonce.value), true, env.ttl.n, times.checked, times.written, times.verified, ok);
      if claimed.CapacityError? || claimed.WriteError? { return Rejected("challenge_claim_failed"); }
      if claimed.AlreadyThere? { return Rejected("challenge_replayed"); }
      r := DemandedDigest(record, policy, env);
    }

    /** `process_view` for a completion route, up to the reason it rejects for. */
    method ProcessCompletion(policy: Policy, env: Env, now: real, body: Option<Value>, saves: bool,
                             cache: C.FailClosedCache<bool>, times: ClaimTimes, ok: bool)
      returns (r: Gate<()>)
      modifies this, cache
      ensures var (rows, added) := old(Claiming(cache.rows, cache.capacity, env, now, saves, times, ok));
              && cache.rows == rows
              && EndsAs(Complete(old(store), policy, env, now, body, saves, added))
              && r == Complete(old(store), policy, env, now, body, saves, added).gate
    {
      hide ConsumeChallenge, SignedChallenge, Credential, Claiming;
      var digest := Consume(policy, env, now, saves, cache, times, ok);
      if digest.Rejected? { return Rejected(digest.reason); }
      var credential := Credential(body, policy);
      if credential.Rejected? { return Rejected(credential.reason); }
      var signed := SignedChallenge(credential.value, policy.expectedType, AllowedOrigins(env, policy.surface), env);
      if signed.Rejected? { return Rejected(signed.reason); }
      if Sha256(BytesText(signed.value)) != digest.value { return Rejected("challenge_mismatch"); }
      r := Open(());
    }

    /** The middleware's part of a successful options response. */
    method ProcessOptions(policy: Policy, payload: Option<Entries>, env: Env, now: real, spare: string, nonce: string,
                          saves: bool)
      returns (r: Gate<Option<Entries>>)
      requires |spare| >= 32
      modifies this
      ensures EndsAs(OnOptions(old(store), policy, payload, env, now, spare, nonce, saves))
      ensures r == OnOptions(old(store), policy, payload, env, now, spare, nonce, saves).gate
    {
      hide StoreChallenge;
      var sent := payload;
      if policy.purpose == "account.login" {
        var key := PublicKey(payload, policy);
        if key.Rejected? { return Rejected(key.reason); }
        var state := At(store, STATE_KEY);
        if !state.Dict? { return Rejected("user_verification_state_invalid"); }
        store := store[STATE_KEY := Dict(state.entries["user_verification" := Text("required")])];
        sent := Some(WithPublicKey(payload.value, policy, key.value["userVerification" := Text("required")]));
      }
      var stored := Store(policy, sent, env, now, spare, nonce, saves);
      r := if stored.Rejected? then Rejected(stored.reason) else Open(sent);
    }
  }

  /** `process_view`: clear before an options view, settle a completion request, let anything else
      pass. Without a session only an options request goes on. */
  method ProcessView(session: BoundarySession?, route: string, verb: string, env: Env, now: real, body: Option<Value>,
                     saves: bool, cache: C.FailClosedCache<bool>, times: ClaimTimes, ok: bool)
    returns (r: Gate<()>)
    modifies session, cache
    ensures var options, completion := OptionsPolicy(route), CompletionPolicy(route);
            if options.Some? && verb == options.value.verb then
              && cache.rows == old(cache.rows)
              && (session == null ==> r == Open(()))
              && (session != null ==>
                    var e := Clear(old(session.store), saves);
                    session.store == e.store && r == e.gate
                    && session.saved == if e.saved.Some? then e.saved.value else old(session.saved))
            else if completion.None? || verb != completion.value.verb then
              && cache.rows == old(cache.rows) && r == Open(())
              && (session != null ==> session.store == old(session.store) && session.saved == old(session.saved))
            else if session == null then
              cache.rows == old(cache.rows) && r == Rejected("challenge_session_missing")
            else
              var (rows, added) := old(session.Claiming(cache.rows, cache.capacity, env, now, saves, times, ok));
              var e := Complete(old(session.store), completion.value, env, now, body, saves, added);
              && cache.rows == rows && session.store == e.store && r == e.gate
              && session.saved == if e.saved.Some? then e.saved.value else old(session.saved)
  {
    hide OptionsPolicy, CompletionPolicy, Complete, Clear;
    var options := OptionsPolicy(route);
    if options.Some? && verb == options.value.verb {
      if session != null {
        var cleared := session.ClearChallenge(saves);
        return cleared;
      }
      return Open(());
    }
    var policy := CompletionPolicy(route);
    if policy.None? || verb != policy.value.verb { return Open(()); }
    if session == null { return Rejected("challenge_session_missing"); }
    r := session.ProcessCompletion(policy.value, env, now, body, saves, cache, times, ok);
  }
}
