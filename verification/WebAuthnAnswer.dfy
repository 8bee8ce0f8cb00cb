/** What a completion request must carry, in terms of its JSON body alone: client data of the right
    type, from an origin configured for its own surface, not cross-origin, over the announced bytes. */
module WebAuthnAnswer {
  import opened Prelude
  import opened WebAuthn
  import B = Base64Url
  import C = SecurityCache

  // ---------------------------------------------------------------- the client data of a body

  /** The credential of a body: the body itself for the admin, its `credential` for an account. */
  predicate HasCredential(body: Option<Value>, nested: bool, credential: Value) {
    && body.Some?
    && if nested
       then body.value.Dict? && "credential" in body.value.entries && body.value.entries["credential"] == credential
       else body.value == credential
  }

  /** The credential holds a `response` whose `clientDataJSON` decodes and parses to `data`. */
  predicate HoldsClientData(credential: Value, env: Env, data: Entries) {
    && credential.Dict? && "response" in credential.entries && credential.entries["response"].Dict?
    && var response := credential.entries["response"].entries;
       && "clientDataJSON" in response && response["clientDataJSON"].Text?
       && var bytes := B.Decode(Some(response["clientDataJSON"].s));
          bytes.Open? && env.parse(bytes.value) == Some(Dict(data))
  }

  ghost predicate Carries(body: Option<Value>, nested: bool, env: Env, data: Entries) {
    exists credential :: HasCredential(body, nested, credential) && HoldsClientData(credential, env, data)
  }

  /** Client data for one ceremony: its type, one of these origins, not cross-origin, these bytes. */
  predicate Acceptable(data: Entries, expectedType: string, origins: seq<Value>, challenge: seq<B.byte>) {
    && "type" in data && data["type"] == Text(expectedType)
    && "challenge" in data && data["challenge"].Text? && B.Decode(Some(data["challenge"].s)) == Open(challenge)
    && (forall o | o in origins :: o.Text?)
    && "origin" in data && data["origin"] in origins
    && ("crossOrigin" in data ==> data["crossOrigin"] == Bool(false))
  }

  lemma ParsedExactly(credential: Value, env: Env, data: Entries)
    ensures ParseClientData(credential, env) == Open(data) <==> HoldsClientData(credential, env, data)
  {
    hide B.Decode;
    assert B.Decode(None).Rejected? by { NothingDecodes(); }
  }

  lemma NothingDecodes()
    ensures B.Decode(None).Rejected? && B.Decode(Some("")).Rejected?
  {
  }

  /** A credential signs these bytes exactly when its client data is acceptable. */
  lemma SignedChallengeExactly(credential: Value, expectedType: string, origins: seq<Value>, env: Env, challenge: seq<B.byte>)
    ensures SignedChallenge(credential, expectedType, origins, env) == Open(challenge) <==>
              exists data :: HoldsClientData(credential, env, data) && Acceptable(data, expectedType, origins, challenge)
  {
    hide ParseClientData, HoldsClientData, B.Decode;
    NothingDecodes();
    forall data ensures ParseClientData(credential, env) == Open(data) <==> HoldsClientData(credential, env, data) {
      ParsedExactly(credential, env, data);
    }
    var parsed := ParseClientData(credential, env);
    if parsed.Open? {
      assert HoldsClientData(credential, env, parsed.value);
    }
  }

  lemma CredentialExactly(body: Option<Value>, policy: Policy, credential: Value)
    ensures Credential(body, policy) == Open(credential) <==> HasCredential(body, policy.nested, credential)
  {
  }

  /** The body passes exactly when it carries acceptable client data: for the admin from one of the
      admin origins, for an account from one of the account origins. */
  lemma BodyAnswersExactly(body: Option<Value>, policy: Policy, env: Env, challenge: seq<B.byte>)
    ensures var origins := if policy.surface == Admin then env.adminOrigins else env.accountOrigins;
            MatchBody(body, Sha256(BytesText(challenge)), policy, env).Open? <==>
              exists data :: Carries(body, policy.nested, env, data) && Acceptable(data, policy.expectedType, origins, challenge)
    ensures var origins := if policy.surface == Admin then env.adminOrigins else env.accountOrigins;
            Signed(body, policy, env) == Open(challenge) <==>
              exists data :: Carries(body, policy.nested, env, data) && Acceptable(data, policy.expectedType, origins, challenge)
  {
    var origins := if policy.surface == Admin then env.adminOrigins else env.accountOrigins;
    BodyExactly(body, policy, env, challenge);
    hide SignedChallenge, Credential, HasCredential, HoldsClientData, Acceptable, MatchBody, Sha256, BytesText;
    forall credential ensures Credential(body, policy) == Open(credential) <==> HasCredential(body, policy.nested, credential) {
      CredentialExactly(body, policy, credential);
    }
    var credential := Credential(body, policy);
    if credential.Open? {
      SignedChallengeExactly(credential.value, policy.expectedType, origins, env, challenge);
      forall data ensures Carries(body, policy.nested, env, data) <==> HoldsClientData(credential.value, env, data) {
        assert HasCredential(body, policy.nested, credential.value);
      }
    }
  }

  // ---------------------------------------------------------------- the announced challenge

  /** Where an options response keeps its `publicKey`: at the top for the admin, under `data` for an
      account, by kind of ceremony. */
  predicate HoldsPublicKey(payload: Entries, policy: Policy, key: Entries) {
    if policy.surface == Admin then "publicKey" in payload && payload["publicKey"] == Dict(key)
    else
      var name := if policy.expectedType == CREATE then "creation_options" else "request_options";
      && "data" in payload && payload["data"].Dict?
      && name in payload["data"].entries && payload["data"].entries[name].Dict?
      && var options := payload["data"].entries[name].entries;
         "publicKey" in options && options["publicKey"] == Dict(key)
  }

  ghost predicate Announces(payload: Option<Entries>, policy: Policy, challenge: seq<B.byte>) {
    payload.Some? && exists key :: HoldsPublicKey(payload.value, policy, key) && AnnouncedIn(key, challenge)
  }

  predicate AnnouncedIn(key: Entries, challenge: seq<B.byte>) {
    "challenge" in key && key["challenge"].Text? && B.Decode(Some(key["challenge"].s)) == Open(challenge)
  }

  lemma AnnouncedExactly(payload: Option<Entries>, policy: Policy, challenge: seq<B.byte>)
    ensures Announced(payload, policy) == Open(challenge) <==> Announces(payload, policy, challenge)
  {
    hide B.Decode;
    NothingDecodes();
    var key := PublicKey(payload, policy);
    if key.Open? { assert HoldsPublicKey(payload.value, policy, key.value); }
  }

  /** An options response goes out exactly when its challenge can be kept: it announces one, the lifetime is
      positive, the session is saved, a login has state to demand verification in, and any other ceremony a
      subject. */
  lemma OptionsOpenExactly(s: Entries, policy: Policy, payload: Option<Entries>, env: Env, now: real, spare: string,
                           nonce: string, saves: bool)
    requires KnownPolicy(policy) && |spare| >= 32
    ensures OnOptions(s, policy, payload, env, now, spare, nonce, saves).gate.Open? <==>
              && saves && env.ttl.Int? && env.ttl.n > 0
              && (exists challenge :: Announces(payload, policy, challenge))
              && if policy.purpose == "account.login" then "mfa.webauthn.state" in s && s["mfa.webauthn.state"].Dict?
                 else Subject(Bound(s, spare), policy, env).Some?
  {
    var verified := RequireVerification(s, policy, payload);
    if verified.Open? && policy.purpose == "account.login" { VerificationAgrees(s, policy, payload); }
    ChallengeIsThere(payload, policy);
    hide Announces, WithPublicKey, B.Decode, Metadata, AdminSubject, PendingSubject, AuthenticatedSubject;
    if verified.Open? {
      KeepsExactly(verified.value.0, policy, verified.value.1, env, now, spare, nonce, saves);
    }
  }

  lemma ChallengeIsThere(payload: Option<Entries>, policy: Policy)
    ensures Announced(payload, policy).Open? <==> exists challenge :: Announces(payload, policy, challenge)
    ensures Announced(payload, policy).Open? ==> PublicKey(payload, policy).Open?
  {
    hide Announces;
    forall challenge ensures Announced(payload, policy) == Open(challenge) <==> Announces(payload, policy, challenge) {
      AnnouncedExactly(payload, policy, challenge);
    }
    if Announced(payload, policy).Open? { assert Announces(payload, policy, Announced(payload, policy).value); }
  }

  lemma KeepsExactly(s: Entries, policy: Policy, payload: Option<Entries>, env: Env, now: real, spare: string, nonce: string,
                     saves: bool)
    requires |spare| >= 32
    ensures StoreChallenge(s, policy, payload, env, now, spare, nonce, saves).gate.Open? <==>
              && saves && ChallengeTtl(env).Open? && Announced(payload, policy).Open?
              && (policy.purpose == "account.login" || Subject(Bound(s, spare), policy, env).Some?)
  {
    hide PublicKey, B.Decode, Metadata, Subject;
  }

  // ---------------------------------------------------------------- the whole request

  /** The session held a usable binding when the ceremony began, or got this one. */
  function BindingAtStart(s0: Entries, spare: string): string {
    if BINDING_KEY in s0 && s0[BINDING_KEY].Text? && |s0[BINDING_KEY].s| >= 32 then s0[BINDING_KEY].s else spare
  }

  /** A completion request gets through exactly when its claim is stored, it is in time, its session
      still holds the binding the ceremony began with, it has the ceremony's purpose and, login aside,
      its subject, and its body carries client data of the policy's type, from an origin configured for
      the policy's surface, not cross-origin, over the very bytes the options response announced. */
  lemma CompletionOpensExactly(s0: Entries, issuing: Policy, payload: Option<Entries>, env: Env, issued: real,
                               spare: string, nonce: string,
                               s1: Entries, policy: Policy, body: Option<Value>, now: real, r: C.AddResult)
    requires KnownPolicy(issuing) && KnownPolicy(policy)
    requires StoredBy(s0, issuing, payload, env, issued, spare, nonce)
    requires HoldsRecord(s1, s0, issuing, payload, env, issued, spare, nonce)
    ensures var origins := if policy.surface == Admin then env.adminOrigins else env.accountOrigins;
            Complete(s1, policy, env, now, body, true, r).gate.Open? <==>
              && r.Stored? && env.ttl.Int? && issued <= now <= issued + env.ttl.n as real
              && BINDING_KEY in s1 && s1[BINDING_KEY] == Text(BindingAtStart(s0, spare))
              && policy.purpose == issuing.purpose
              && (policy.purpose == "account.login" ||
                  Subject(s1 - {CHALLENGE_KEY}, policy, env) == Subject(Bound(s0, spare), issuing, env))
              && exists challenge, data ::
                   && Announces(payload, issuing, challenge)
                   && Carries(body, policy.nested, env, data) && Acceptable(data, policy.expectedType, origins, challenge)
  {
    hide Complete, StoredBy, HoldsRecord, KnownPolicy, Announced, Signed, Subject, Bound, Binding, Announces, Carries, Acceptable,
         BindingAtStart, ChallengeTtl;
    StoredFacts(s0, issuing, payload, env, issued, spare, nonce);
    CeremonyMatchesExactly(s0, issuing, payload, env, issued, spare, nonce, s1, policy, body, now, r);
    BindingsAgree(s0, spare, s1);
    var announced := Announced(payload, issuing).value;
    AnswersAnnounced(body, policy, env, payload, issuing, announced);
  }

  lemma StoredFacts(s0: Entries, issuing: Policy, payload: Option<Entries>, env: Env, issued: real, spare: string, nonce: string)
    requires KnownPolicy(issuing) && StoredBy(s0, issuing, payload, env, issued, spare, nonce)
    ensures |spare| >= 32 && ChallengeTtl(env).Open? && env.ttl.Int? && Announced(payload, issuing).Open?
  {
    hide KnownPolicy, Announced, StoreChallenge;
    StoredRecord(s0, issuing, payload, env, issued, spare, nonce, true);
  }

  /** The body signs the announced bytes exactly when it carries acceptable client data over them. */
  lemma AnswersAnnounced(body: Option<Value>, policy: Policy, env: Env, payload: Option<Entries>, issuing: Policy,
                         announced: seq<B.byte>)
    requires Announced(payload, issuing) == Open(announced)
    ensures var origins := if policy.surface == Admin then env.adminOrigins else env.accountOrigins;
            Signed(body, policy, env) == Open(announced) <==>
              exists challenge, data ::
                && Announces(payload, issuing, challenge)
                && Carries(body, policy.nested, env, data) && Acceptable(data, policy.expectedType, origins, challenge)
  {
    hide Announced, Signed, Announces, Carries, Acceptable;
    BodyAnswersExactly(body, policy, env, announced);
    forall challenge ensures Announces(payload, issuing, challenge) <==> challenge == announced {
      AnnouncedExactly(payload, issuing, challenge);
    }
    assert Announces(payload, issuing, announced);
  }

  lemma BindingsAgree(s0: Entries, spare: string, s1: Entries)
    requires |spare| >= 32
    ensures Binding(s1) == Binding(Bound(s0, spare)) <==>
              BINDING_KEY in s1 && s1[BINDING_KEY] == Text(BindingAtStart(s0, spare))
  {
  }

  // ---------------------------------------------------------------- whatever the session holds

  /** A record that passes before the claim: version one, issued in time by a number, bound to the session. */
  predicate InForce(m: Entries, s: Entries, env: Env, now: real) {
    && "version" in m && m["version"] in {Int(1), Float(1.0), Bool(true)}
    && env.ttl.Int? && env.ttl.n > 0
    && "issued_at" in m
    && (m["issued_at"].Int? ==> m["issued_at"].n as real <= now <= m["issued_at"].n as real + env.ttl.n as real)
    && (m["issued_at"].Float? ==> m["issued_at"].x <= now <= m["issued_at"].x + env.ttl.n as real)
    && (m["issued_at"].Int? || m["issued_at"].Float?)
    && BINDING_KEY in s && s[BINDING_KEY].Text? && |s[BINDING_KEY].s| >= 32
    && "session_binding_digest" in m && m["session_binding_digest"] == Text(Sha256(s[BINDING_KEY].s))
    && "nonce" in m && m["nonce"].Text? && 32 <= |m["nonce"].s| <= 256
  }

  /** A record that passes after the claim: the request's purpose, its subject, and a digest. */
  predicate Demands(m: Entries, s: Entries, policy: Policy, env: Env, challenge: seq<B.byte>) {
    && "purpose" in m && m["purpose"] == Text(policy.purpose)
    && (if policy.purpose == "account.login" then "subject_binding_digest" !in m || m["subject_binding_digest"] == Null
        else Subject(s, policy, env).Some? && "subject_binding_digest" in m
             && m["subject_binding_digest"] == Text(Sha256(Subject(s, policy, env).value)))
    && "challenge_digest" in m && m["challenge_digest"] == Text(Sha256(BytesText(challenge)))
  }

  lemma InForceExactly(m: Entries, s: Entries, env: Env, now: real, nonce: string)
    ensures NonceToClaim(s, Dict(m), env, now) == Open(nonce) <==> InForce(m, s, env, now) && At(m, "nonce") == Text(nonce)
  {
    hide Sha256;
  }

  lemma DemandsExactly(m: Entries, s: Entries, policy: Policy, env: Env, challenge: seq<B.byte>)
    ensures ExpectedDigest(s, m, policy, env) == Open(Sha256(BytesText(challenge))) <==> Demands(m, s, policy, env, challenge)
  {
    hide Subject, Sha256, BytesText;
    Sha256Injective(BytesText(challenge), "");
  }

  /** For any session whatever, however its record came there: a completion request opens exactly when the
      session is saved without the record, the record was in force and demands the challenge that the body
      answers, and its nonce's claim is stored. */
  lemma AnyCompletionExactly(s: Entries, policy: Policy, env: Env, now: real, body: Option<Value>, saves: bool, r: C.AddResult)
    ensures var rest := s - {CHALLENGE_KEY};
            var origins := if policy.surface == Admin then env.adminOrigins else env.accountOrigins;
            Complete(s, policy, env, now, body, saves, r).gate.Open? <==>
              && saves && r == C.Stored && CHALLENGE_KEY in s && s[CHALLENGE_KEY].Dict?
              && InForce(s[CHALLENGE_KEY].entries, rest, env, now)
              && exists challenge, data ::
                   && Demands(s[CHALLENGE_KEY].entries, rest, policy, env, challenge)
                   && Carries(body, policy.nested, env, data) && Acceptable(data, policy.expectedType, origins, challenge)
  {
    hide NonceToClaim, ExpectedDigest, MatchBody, InForce, Demands, Carries, Acceptable, Sha256, BytesText, Signed;
    var rest := s - {CHALLENGE_KEY};
    if CHALLENGE_KEY in s && s[CHALLENGE_KEY].Dict? {
      var m := s[CHALLENGE_KEY].entries;
      forall nonce ensures NonceToClaim(rest, Dict(m), env, now) == Open(nonce)
                           <==> InForce(m, rest, env, now) && At(m, "nonce") == Text(nonce)
      {
        InForceExactly(m, rest, env, now, nonce);
      }
      if InForce(m, rest, env, now) { InForceNonce(m, rest, env, now); }
      BodyOpensExactly(body, policy, env, m, rest);
    }
    NoRecordRejects(rest, env, now, At(s, CHALLENGE_KEY));
  }

  lemma InForceNonce(m: Entries, s: Entries, env: Env, now: real)
    requires InForce(m, s, env, now)
    ensures "nonce" in m && m["nonce"].Text?
  {
  }

  lemma NoRecordRejects(s: Entries, env: Env, now: real, record: Value)
    ensures !record.Dict? ==> NonceToClaim(s, record, env, now).Rejected?
  {
  }

  lemma BodyOpensExactly(body: Option<Value>, policy: Policy, env: Env, m: Entries, s: Entries)
    ensures var origins := if policy.surface == Admin then env.adminOrigins else env.accountOrigins;
            var digest := ExpectedDigest(s, m, policy, env);
            digest.Open? && MatchBody(body, digest.value, policy, env).Open? <==>
              exists challenge, data ::
                && Demands(m, s, policy, env, challenge)
                && Carries(body, policy.nested, env, data) && Acceptable(data, policy.expectedType, origins, challenge)
  {
    hide ExpectedDigest, Demands, Carries, Acceptable, Sha256, BytesText;
    var origins := if policy.surface == Admin then env.adminOrigins else env.accountOrigins;
    var digest, signed := ExpectedDigest(s, m, policy, env), Signed(body, policy, env);
    forall challenge
      ensures Demands(m, s, policy, env, challenge) <==> digest == Open(Sha256(BytesText(challenge)))
      ensures signed == Open(challenge) <==>
                exists data :: Carries(body, policy.nested, env, data) && Acceptable(data, policy.expectedType, origins, challenge)
    {
      DemandsExactly(m, s, policy, env, challenge);
      BodyAnswersExactly(body, policy, env, challenge);
    }
    if signed.Open? { assert Demands(m, s, policy, env, signed.value) <==> digest == Open(Sha256(BytesText(signed.value))); }
  }

  // ---------------------------------------------------------------- clearing, and subjects

  /** Whatever a completion request ends in, its copy has lost the record and nothing else, and that is what
      it has saved if the save went through. */
  lemma CompletionTakesRecord(s: Entries, policy: Policy, env: Env, now: real, body: Option<Value>, saves: bool, r: C.AddResult)
    ensures var e := Complete(s, policy, env, now, body, saves, r);
            && CHALLENGE_KEY !in e.store && (forall k | k != CHALLENGE_KEY :: At(e.store, k) == At(s, k) && (k in e.store <==> k in s))
            && e.saved == if saves then Some(e.store) else None
  {
    hide Presented, ExpectedDigest, MatchBody;
  }

  /** Before an options view the old record goes and nothing else does; nothing is saved if there is none,
      and a save that fails is an error. */
  lemma ClearExactly(s: Entries, saves: bool)
    ensures var e := Clear(s, saves);
            && CHALLENGE_KEY !in e.store && (forall k | k != CHALLENGE_KEY :: At(e.store, k) == At(s, k) && (k in e.store <==> k in s))
            && (e.gate.Open? <==> CHALLENGE_KEY !in s || saves)
            && e.saved == (if CHALLENGE_KEY in s && saves then Some(e.store) else None)
  {
  }

  /** Whom an admin ceremony is about: the user and flow of the pending admin login. */
  lemma AdminSubjectExactly(s: Entries, policy: Policy, env: Env, x: string)
    requires KnownPolicy(policy) && policy.surface == Admin
    ensures Subject(s, policy, env) == Some(x) <==>
              && "_admin_mfa_pending" in s && s["_admin_mfa_pending"].Dict?
              && var m := s["_admin_mfa_pending"].entries;
                 && "version" in m && m["version"] in {Int(1), Float(1.0), Bool(true)}
                 && "user_pk" in m && m["user_pk"].Text? && m["user_pk"].s != ""
                 && "flow_id" in m && m["flow_id"].Text? && |m["flow_id"].s| >= 16
                 && x == "admin:" + m["user_pk"].s + ":" + m["flow_id"].s
  {
  }

  /** Whom an authentication or signup is about: the user of the pending login and when it began. */
  lemma PendingSubjectExactly(s: Entries, policy: Policy, env: Env, x: string)
    requires KnownPolicy(policy) && policy.purpose in {"account.authenticate", "account.signup"}
    ensures Subject(s, policy, env) == Some(x) <==>
              && "account_login" in s && s["account_login"].Dict?
              && var m := s["account_login"].entries;
                 && "user_pk" in m && m["user_pk"].Text? && m["user_pk"].s != ""
                 && "initiated_at" in m && (m["initiated_at"].Int? || m["initiated_at"].Float?)
                 && var at := if m["initiated_at"].Int? then m["initiated_at"].n as real else m["initiated_at"].x;
                    x == "pending:" + m["user_pk"].s + ":" + env.repr(at)
  {
  }

  /** Whom a reauthentication or registration is about: the signed-in user; and a login is about nobody yet. */
  lemma SignedInSubjectExactly(s: Entries, policy: Policy, env: Env, x: string)
    requires KnownPolicy(policy)
    ensures policy.purpose == "account.login" ==> Subject(s, policy, env) == None
    ensures policy.purpose in {"account.reauthenticate", "account.register"} ==>
              (Subject(s, policy, env) == Some(x) <==>
                && "_auth_user_id" in s && s["_auth_user_id"] != Null
                && var pk := if s["_auth_user_id"].Text? then s["_auth_user_id"].s else env.str(s["_auth_user_id"]);
                   pk != "" && x == "authenticated:" + pk)
  {
  }
}
