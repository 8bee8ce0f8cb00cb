/** The WebAuthn one-use challenge boundary, seen one request at a time: what an options
    response stores in a session and what a completion request must present. */
module WebAuthn {
  import opened Prelude
  import B = Base64Url
  import C = SecurityCache

  // ---------------------------------------------------------------- values

  /** Contents of sessions, JSON documents and settings. */
  datatype Value =
    | Null
    | Bool(b: bool)
    | Int(n: int)
    | Float(x: real)
    | NonFinite
    | Text(s: string)
    | List(items: seq<Value>)
    | Dict(entries: Entries)

  type Entries = map<string, Value>

  /** `d.get(key)`: a missing key reads as null. */
  function At(d: Entries, key: string): Value {
    if key in d then d[key] else Null
  }

  function TextOf(v: Value): Option<string> {
    if v.Text? then Some(v.s) else None
  }

  /** Python's `v == 1`, which booleans and floats can satisfy too. */
  predicate EqualsOne(v: Value) {
    v == Int(1) || v == Float(1.0) || v == Bool(true)
  }

  /** A finite number that is not a boolean, as a float. */
  function FiniteNumber(v: Value): Option<real> {
    match v
    case Int(n) => Some(n as real)
    case Float(x) => Some(x)
    case _ => None
  }

  /** SHA-256 as a collision-free function of texts; a digest is its preimage behind a tag. */
  function Sha256(text: string): string { DIGEST_TAG + text }

  const DIGEST_TAG := "sha256:"

  predicate IsSha256Digest(v: Value) {
    v.Text? && |v.s| >= |DIGEST_TAG| && v.s[..|DIGEST_TAG|] == DIGEST_TAG
  }

  lemma Sha256Injective(a: string, b: string)
    ensures Sha256(a) == Sha256(b) ==> a == b
    ensures IsSha256Digest(Text(Sha256(a)))
  {
    assert Sha256(a)[|DIGEST_TAG|..] == a && Sha256(b)[|DIGEST_TAG|..] == b;
  }

  /** Bytes as a text of code points below 256. */
  function BytesText(b: seq<B.byte>): (s: string)
    ensures |s| == |b|
  {
    seq(|b|, i requires 0 <= i < |b| => b[i] as int as char)
  }

  lemma BytesTextInjective(a: seq<B.byte>, b: seq<B.byte>)
    ensures BytesText(a) == BytesText(b) ==> a == b
  {
    if BytesText(a) == BytesText(b) {
      forall i | 0 <= i < |a| ensures a[i] == b[i] {
        assert BytesText(a)[i] as int == a[i] && BytesText(b)[i] as int == b[i];
      }
    }
  }

  // ---------------------------------------------------------------- settings and policies

  /** Settings and the library functions the boundary calls. */
  datatype Env = Env(
    ttl: Value,
    accountOrigins: seq<Value>,
    adminOrigins: seq<Value>,
    parse: seq<B.byte> -> Option<Value>,  // UTF-8 then JSON
    repr: real -> string,                 // repr of a float
    str: Value -> string)                 // str of a value that is not text

  datatype Surface = Account | Admin

  datatype Policy = Policy(verb: string, expectedType: string, surface: Surface, nested: bool, purpose: string)

  const CREATE := "webauthn.create"
  const GET := "webauthn.get"

  function WithoutPrefix(s: string, prefix: string): Option<string> {
    if prefix <= s then Some(s[|prefix|..]) else None
  }

  /** The endpoint name of a headless MFA route, for either client. */
  function HeadlessName(route: string): Option<string> {
    var app := WithoutPrefix(route, "headless:app:mfa:");
    if app.Some? then app else WithoutPrefix(route, "headless:browser:mfa:")
  }

  function AccountPolicy(name: string): Option<Policy> {
    if name == "login_webauthn" then Some(Policy("POST", GET, Account, true, "account.login"))
    else if name == "authenticate_webauthn" then Some(Policy("POST", GET, Account, true, "account.authenticate"))
    else if name == "reauthenticate_webauthn" then Some(Policy("POST", GET, Account, true, "account.reauthenticate"))
    else if name == "manage_webauthn" then Some(Policy("POST", CREATE, Account, true, "account.register"))
    else if name == "signup_webauthn" then Some(Policy("PUT", CREATE, Account, true, "account.signup"))
    else None
  }

  /** `WEBAUTHN_COMPLETION_POLICIES.get(route)`. */
  function CompletionPolicy(route: string): Option<Policy> {
    if route == "admin:admin_mfa_webauthn_complete" then Some(Policy("POST", GET, Admin, false, "admin.authenticate"))
    else
      var name := HeadlessName(route);
      if name.Some? then AccountPolicy(name.value) else None
  }

  /** `WEBAUTHN_OPTIONS_POLICIES.get(route)`: the account routes answer both verbs. */
  function OptionsPolicy(route: string): Option<Policy> {
    if route == "admin:admin_mfa_webauthn_options" then Some(Policy("GET", GET, Admin, false, "admin.authenticate"))
    else
      var policy := CompletionPolicy(route);
      if policy.Some? && policy.value.surface.Account? then Some(policy.value.(verb := "GET")) else None
  }

  predicate KnownPolicy(p: Policy) {
    || p == Policy(p.verb, GET, Account, true, "account.login")
    || p == Policy(p.verb, GET, Account, true, "account.authenticate")
    || p == Policy(p.verb, GET, Account, true, "account.reauthenticate")
    || p == Policy(p.verb, CREATE, Account, true, "account.register")
    || p == Policy(p.verb, CREATE, Account, true, "account.signup")
    || p == Policy(p.verb, GET, Admin, false, "admin.authenticate")
  }

  /** A purpose fixes the whole ceremony; options and completion requests never share a verb on a route. */
  lemma PurposeFixesCeremony(r1: string, r2: string)
    ensures CompletionPolicy(r1).Some? ==> KnownPolicy(CompletionPolicy(r1).value)
    ensures OptionsPolicy(r1).Some? ==> KnownPolicy(OptionsPolicy(r1).value)
    ensures CompletionPolicy(r1).Some? && OptionsPolicy(r2).Some?
            && CompletionPolicy(r1).value.purpose == OptionsPolicy(r2).value.purpose
            ==> CompletionPolicy(r1).value.(verb := "GET") == OptionsPolicy(r2).value
    ensures CompletionPolicy(r1).Some? && OptionsPolicy(r1).Some?
            ==> CompletionPolicy(r1).value.verb != OptionsPolicy(r1).value.verb
  {
    hide HeadlessName;
  }

  const CHALLENGE_KEY := "_webauthn_challenge"
  const BINDING_KEY := "_webauthn_session_binding"
  const PENDING_KEY := "_admin_mfa_pending"
  const LOGIN_KEY := "account_login"
  const USER_KEY := "_auth_user_id"
  const STATE_KEY := "mfa.webauthn.state"
  const CLAIM_PREFIX := "webauthn:challenge:claimed:"

  function ChallengeTtl(env: Env): Gate<int> {
    if env.ttl.Int? && env.ttl.n > 0 then Open(env.ttl.n) else Rejected("challenge_ttl_invalid")
  }

  function AllowedOrigins(env: Env, surface: Surface): seq<Value> {
    if surface.Admin? then env.adminOrigins else env.accountOrigins
  }

  // ---------------------------------------------------------------- bindings

  /** The session's own random binding, if it is usable. */
  function Binding(s: Entries): Option<string> {
    var v := At(s, BINDING_KEY);
    if v.Text? && |v.s| >= 32 then Some(v.s) else None
  }

  function AdminSubject(s: Entries): Option<string> {
    var pending := At(s, PENDING_KEY);
    if !pending.Dict? || !EqualsOne(At(pending.entries, "version")) then None
    else
      var pk, flow := At(pending.entries, "user_pk"), At(pending.entries, "flow_id");
      if !pk.Text? || pk.s == "" || !flow.Text? || |flow.s| < 16 then None
      else Some("admin:" + pk.s + ":" + flow.s)
  }

  function PendingSubject(s: Entries, env: Env): Option<string> {
    var pending := At(s, LOGIN_KEY);
    if !pending.Dict? then None
    else
      var pk, at := At(pending.entries, "user_pk"), FiniteNumber(At(pending.entries, "initiated_at"));
      if !pk.Text? || pk.s == "" || at.None? then None
      else Some("pending:" + pk.s + ":" + env.repr(at.value))
  }

  function AuthenticatedSubject(s: Entries, env: Env): Option<string> {
    var user := At(s, USER_KEY);
    var pk := if user.Text? then user.s else env.str(user);
    if user.Null? || pk == "" then None else Some("authenticated:" + pk)
  }

  /** `_subject_binding`: who the ceremony is for, when that is already known. */
  function Subject(s: Entries, policy: Policy, env: Env): Option<string> {
    if policy.surface.Admin? then AdminSubject(s)
    else if policy.purpose == "account.login" then None
    else if policy.purpose in {"account.authenticate", "account.signup"} then PendingSubject(s, env)
    else AuthenticatedSubject(s, env)
  }

  predicate ColonFree(s: string) { ':' !in s }

  /** Both first parts or both second parts hold no colon. */
  predicate Separable(a: string, b: string, c: string, d: string) {
    (ColonFree(a) && ColonFree(c)) || (ColonFree(b) && ColonFree(d))
  }

  lemma JoinInjective(a: string, b: string, c: string, d: string)
    requires Separable(a, b, c, d) && a + ":" + b == c + ":" + d
    ensures a == c && b == d
  {
    var u, v := a + ":" + b, c + ":" + d;
    assert forall i | 0 <= i < |a| :: u[i] == a[i];
    assert forall i | 0 <= i < |c| :: v[i] == c[i];
    assert forall i | |a| < i < |u| :: u[i] == b[i - |a| - 1];
    assert forall i | |c| < i < |v| :: v[i] == d[i - |c| - 1];
    assert u[|a|] == ':' && v[|c|] == ':';
    assert |a| == |c|;
    assert u[..|a|] == a && v[..|c|] == c && u[|a| + 1..] == b && v[|c| + 1..] == d;
  }

  lemma AdminSubjectsIdentify(s: Entries, t: Entries)
    requires AdminSubject(s).Some? && AdminSubject(s) == AdminSubject(t)
    ensures var a, b := s[PENDING_KEY].entries, t[PENDING_KEY].entries;
            Separable(a["user_pk"].s, a["flow_id"].s, b["user_pk"].s, b["flow_id"].s) ==>
              a["user_pk"] == b["user_pk"] && a["flow_id"] == b["flow_id"]
  {
    var a, b := s[PENDING_KEY].entries, t[PENDING_KEY].entries;
    var x, y := AdminSubject(s).value, AdminSubject(t).value;
    assert x[6..] == a["user_pk"].s + ":" + a["flow_id"].s;
    assert y[6..] == b["user_pk"].s + ":" + b["flow_id"].s;
    if Separable(a["user_pk"].s, a["flow_id"].s, b["user_pk"].s, b["flow_id"].s) {
      JoinInjective(a["user_pk"].s, a["flow_id"].s, b["user_pk"].s, b["flow_id"].s);
    }
  }

  /** The text of the time at which a login became pending. */
  function InitiatedText(s: Entries, env: Env): string
    requires PendingSubject(s, env).Some?
  {
    env.repr(FiniteNumber(s[LOGIN_KEY].entries["initiated_at"]).value)
  }

  lemma PendingSubjectsIdentify(s: Entries, t: Entries, env: Env)
    requires PendingSubject(s, env).Some? && PendingSubject(s, env) == PendingSubject(t, env)
    ensures var a, b := s[LOGIN_KEY].entries, t[LOGIN_KEY].entries;
            Separable(a["user_pk"].s, InitiatedText(s, env), b["user_pk"].s, InitiatedText(t, env)) ==>
              a["user_pk"] == b["user_pk"] && InitiatedText(s, env) == InitiatedText(t, env)
  {
    var a, b := s[LOGIN_KEY].entries, t[LOGIN_KEY].entries;
    var x, y := PendingSubject(s, env).value, PendingSubject(t, env).value;
    var e, f := InitiatedText(s, env), InitiatedText(t, env);
    assert x[8..] == a["user_pk"].s + ":" + e && y[8..] == b["user_pk"].s + ":" + f;
    if Separable(a["user_pk"].s, e, b["user_pk"].s, f) {
      JoinInjective(a["user_pk"].s, e, b["user_pk"].s, f);
    }
  }

  lemma AuthenticatedSubjectsIdentify(s: Entries, t: Entries, env: Env)
    requires AuthenticatedSubject(s, env).Some? && AuthenticatedSubject(s, env) == AuthenticatedSubject(t, env)
    ensures s[USER_KEY].Text? && t[USER_KEY].Text? ==> s[USER_KEY] == t[USER_KEY]
  {
    var x, y := AuthenticatedSubject(s, env).value, AuthenticatedSubject(t, env).value;
    assert x[14..] == (if s[USER_KEY].Text? then s[USER_KEY].s else env.str(s[USER_KEY]));
    assert y[14..] == (if t[USER_KEY].Text? then t[USER_KEY].s else env.str(t[USER_KEY]));
  }

  lemma SubjectKind(s: Entries, p: Policy, env: Env)
    requires KnownPolicy(p) && Subject(s, p, env).Some?
    ensures var x := Subject(s, p, env).value;
            && |x| > 2
            && (p.purpose == "admin.authenticate" <==> x[..2] == "ad")
            && (p.purpose in {"account.authenticate", "account.signup"} <==> x[..2] == "pe")
            && (p.purpose in {"account.reauthenticate", "account.register"} <==> x[..2] == "au")
  {
    var x := Subject(s, p, env).value;
    if p.surface.Admin? {
      assert "admin:" <= x;
      assert x[..2] == "ad";
    } else if p.purpose in {"account.authenticate", "account.signup"} {
      assert "pending:" <= x;
      assert x[..2] == "pe";
    } else {
      assert "authenticated:" <= x;
      assert x[..2] == "au";
    }
  }

  /** Equal subjects are the same kind of subject and the same user in the same pending flow, provided
      the two user keys hold no colon or the two flow ids, or pending times, hold none. */
  lemma SubjectsIdentify(s: Entries, p: Policy, t: Entries, q: Policy, env: Env)
    requires KnownPolicy(p) && KnownPolicy(q)
    requires Subject(s, p, env).Some? && Subject(s, p, env) == Subject(t, q, env)
    ensures p.surface == q.surface
    ensures p.surface.Admin? ==>
              var a, b := s[PENDING_KEY].entries, t[PENDING_KEY].entries;
              Separable(a["user_pk"].s, a["flow_id"].s, b["user_pk"].s, b["flow_id"].s) ==>
                a["user_pk"] == b["user_pk"] && a["flow_id"] == b["flow_id"]
    ensures p.purpose in {"account.authenticate", "account.signup"} ==>
              q.purpose in {"account.authenticate", "account.signup"} &&
              var a, b := s[LOGIN_KEY].entries, t[LOGIN_KEY].entries;
              Separable(a["user_pk"].s, InitiatedText(s, env), b["user_pk"].s, InitiatedText(t, env)) ==>
                a["user_pk"] == b["user_pk"] && InitiatedText(s, env) == InitiatedText(t, env)
    ensures p.purpose in {"account.reauthenticate", "account.register"} ==>
              q.purpose in {"account.reauthenticate", "account.register"} &&
              (s[USER_KEY].Text? && t[USER_KEY].Text? ==> s[USER_KEY] == t[USER_KEY])
  {
    SubjectKind(s, p, env);
    SubjectKind(t, q, env);
    if p.surface.Admin? {
      AdminSubjectsIdentify(s, t);
    } else if p.purpose in {"account.authenticate", "account.signup"} {
      PendingSubjectsIdentify(s, t, env);
    } else {
      AuthenticatedSubjectsIdentify(s, t, env);
    }
  }

  function PendingAs(user: string, flow: string): Entries {
    map[PENDING_KEY := Dict(map["version" := Int(1), "user_pk" := Text(user), "flow_id" := Text(flow)])]
  }

  /** The proviso is needed: a colon may belong to the user key or to the flow id. */
  lemma ColonsConfuse(flow: string)
    requires |flow| >= 16
    ensures AdminSubject(PendingAs("1", "2:" + flow)) == AdminSubject(PendingAs("1:2", flow)) != None
  {
    assert "admin:" + "1" + ":" + ("2:" + flow) == "admin:" + "1:2" + ":" + flow;
  }

  // ---------------------------------------------------------------- client data

  function ParseClientData(credential: Value, env: Env): Gate<Entries> {
    if !credential.Dict? then Rejected("invalid_credential_shape")
    else
      var response := At(credential.entries, "response");
      if !response.Dict? then Rejected("invalid_credential_shape")
      else
        var raw := B.Decode(TextOf(At(response.entries, "clientDataJSON")));
        if raw.Rejected? then Rejected(raw.reason)
        else
          var data := env.parse(raw.value);
          if data.None? || !data.value.Dict? then Rejected("invalid_client_data_json")
          else Open(data.value.entries)
  }

  predicate ConfiguredOrigins(origins: seq<Value>) {
    origins != [] && forall o | o in origins :: o.Text?
  }

  /** `validate_webauthn_client_data`: the challenge bytes the client signed. */
  function SignedChallenge(credential: Value, expectedType: string, origins: seq<Value>, env: Env): Gate<seq<B.byte>> {
    if !ConfiguredOrigins(origins) then Rejected("origin_policy_not_configured")
    else
      var parsed := ParseClientData(credential, env);
      if parsed.Rejected? then Rejected(parsed.reason)
      else
        var data := parsed.value;
        var challenge, origin := At(data, "challenge"), At(data, "origin");
        var crossOrigin := if "crossOrigin" in data then data["crossOrigin"] else Bool(false);
        if At(data, "type") != Text(expectedType) then Rejected("unexpected_client_data_type")
        else if !challenge.Text? || challenge.s == "" then Rejected("missing_challenge")
        else
          var bytes := B.Decode(Some(challenge.s));
          if bytes.Rejected? then Rejected(bytes.reason)
          else if !origin.Text? || origin !in origins then Rejected("origin_not_allowed")
          else if !crossOrigin.Bool? then Rejected("invalid_cross_origin_flag")
          else if crossOrigin.b then Rejected("cross_origin_not_allowed")
          else Open(bytes.value)
  }

  /** The credential inside a completion body; None is a body that is not JSON. */
  function Credential(body: Option<Value>, policy: Policy): Gate<Value> {
    if body.None? then Rejected("invalid_request_json")
    else if !policy.nested then Open(body.value)
    else if !body.value.Dict? || "credential" !in body.value.entries then Rejected("invalid_credential_shape")
    else Open(body.value.entries["credential"])
  }

  // ---------------------------------------------------------------- options response

  /** What a request leaves behind: its session copy, what it saved of it, and its outcome. */
  datatype Effect<+T> = Effect(store: Entries, saved: Option<Entries>, gate: Gate<T>)

  /** Save the copy; a failing save leaves the stored session alone. */
  function Persist<T>(store: Entries, saves: bool, gate: Gate<T>): Effect<T> {
    if saves then Effect(store, Some(store), gate)
    else Effect(store, None, Rejected("challenge_session_save_failed"))
  }

  /** `_clear_challenge`, before an options view runs. */
  function Clear(s: Entries, saves: bool): Effect<()> {
    if CHALLENGE_KEY in s then Persist(s - {CHALLENGE_KEY}, saves, Open(())) else Effect(s, None, Open(()))
  }

  function OptionsOf(payload: Entries, policy: Policy): Value {
    if policy.surface.Admin? then Dict(payload)
    else
      var data := At(payload, "data");
      if !data.Dict? then Null
      else At(data.entries, if policy.expectedType == CREATE then "creation_options" else "request_options")
  }

  /** The `publicKey` dictionary of an options response; None is a body that is no JSON object. */
  function PublicKey(payload: Option<Entries>, policy: Policy): Gate<Entries> {
    if payload.None? then Rejected("options_response_invalid")
    else
      var options := OptionsOf(payload.value, policy);
      if !options.Dict? then Rejected("options_response_invalid")
      else
        var key := At(options.entries, "publicKey");
        if key.Dict? then Open(key.entries) else Rejected("options_response_invalid")
  }

  /** The response with its `publicKey` replaced. */
  function WithPublicKey(payload: Entries, policy: Policy, key: Entries): Entries
    requires PublicKey(Some(payload), policy).Open?
  {
    var options := Dict(OptionsOf(payload, policy).entries["publicKey" := Dict(key)]);
    if policy.surface.Admin? then options.entries
    else
      var name := if policy.expectedType == CREATE then "creation_options" else "request_options";
      payload["data" := Dict(payload["data"].entries[name := options])]
  }

  /** What a passwordless login makes of its saved FIDO2 state and of its response. */
  function RequireVerification(s: Entries, policy: Policy, payload: Option<Entries>): Gate<(Entries, Option<Entries>)> {
    if policy.purpose != "account.login" then Open((s, payload))
    else
      var key := PublicKey(payload, policy);
      if key.Rejected? then Rejected(key.reason)
      else if !At(s, STATE_KEY).Dict? then Rejected("user_verification_state_invalid")
      else
        Open((s[STATE_KEY := Dict(s[STATE_KEY].entries["user_verification" := Text("required")])],
              Some(WithPublicKey(payload.value, policy, key.value["userVerification" := Text("required")]))))
  }

  /** Both sides of a passwordless ceremony then demand user verification, over the same challenge. */
  lemma VerificationAgrees(s: Entries, policy: Policy, payload: Option<Entries>)
    requires KnownPolicy(policy) && policy.purpose == "account.login"
    requires RequireVerification(s, policy, payload).Open?
    ensures var (t, sent) := RequireVerification(s, policy, payload).value;
            && At(At(t, STATE_KEY).entries, "user_verification") == Text("required")
            && PublicKey(sent, policy).Open?
            && At(PublicKey(sent, policy).value, "userVerification") == Text("required")
            && Announced(sent, policy) == Announced(payload, policy)
            && t - {STATE_KEY} == s - {STATE_KEY}
  {
    hide B.Decode;
    var sent := RequireVerification(s, policy, payload).value.1.value;
    assert At(sent, "data").Dict?;
  }

  function OptionalText(o: Option<string>): Value {
    if o.Some? then Text(o.value) else Null
  }

  function SubjectDigest(s: Entries, policy: Policy, env: Env): Option<string> {
    var subject := Subject(s, policy, env);
    if subject.Some? then Some(Sha256(subject.value)) else None
  }

  function Metadata(purpose: string, issued: real, challenge: seq<B.byte>, binding: string,
                    subject: Option<string>, nonce: string): Value {
    Dict(map[
      "version" := Int(1), "purpose" := Text(purpose), "issued_at" := Float(issued),
      "challenge_digest" := Text(Sha256(BytesText(challenge))),
      "session_binding_digest" := Text(Sha256(binding)),
      "subject_binding_digest" := OptionalText(subject),
      "nonce" := Text(nonce)])
  }

  /** The copy with a usable binding, which a fresh random one supplies when needed. */
  function Bound(s: Entries, spare: string): Entries {
    if Binding(s).Some? then s else s[BINDING_KEY := Text(spare)]
  }

  /** `_store_challenge`, at the clock reading `now`. */
  function StoreChallenge(s: Entries, policy: Policy, payload: Option<Entries>, env: Env,
                          now: real, spare: string, nonce: string, saves: bool): Effect<()>
  {
    var ttl, key := ChallengeTtl(env), PublicKey(payload, policy);
    if ttl.Rejected? then Effect(s, None, Rejected(ttl.reason))
    else if key.Rejected? then Effect(s, None, Rejected(key.reason))
    else
      var b := Bound(s, spare);
      var subject, bytes := SubjectDigest(b, policy, env), B.Decode(TextOf(At(key.value, "challenge")));
      if policy.purpose != "account.login" && subject.None? then Effect(b, None, Rejected("subject_binding_missing"))
      else if bytes.Rejected? then Effect(b, None, Rejected("options_challenge_invalid"))
      else
        var binding := b[BINDING_KEY].s;
        Persist(b[CHALLENGE_KEY := Metadata(policy.purpose, now, bytes.value, binding, subject, nonce)], saves, Open(()))
  }

  /** The middleware's part of a successful options response: the response it sends on. */
  function OnOptions(s: Entries, policy: Policy, payload: Option<Entries>, env: Env,
                     now: real, spare: string, nonce: string, saves: bool): Effect<Option<Entries>>
  {
    var verified := RequireVerification(s, policy, payload);
    if verified.Rejected? then Effect(s, None, Rejected(verified.reason))
    else
      var (t, sent) := verified.value;
      var e := StoreChallenge(t, policy, sent, env, now, spare, nonce, saves);
      Effect(e.store, e.saved, if e.gate.Open? then Open(sent) else Rejected(e.gate.reason))
  }

  // ---------------------------------------------------------------- completion request

  /** Take the record out of the session and save, whatever the record turns out to be. */
  function TakeRecord(s: Entries, saves: bool): Effect<Value> {
    Persist(s - {CHALLENGE_KEY}, saves, Open(At(s, CHALLENGE_KEY)))
  }

  function FreshRecord(record: Value, env: Env, now: real): Gate<Entries> {
    if !record.Dict? then Rejected("challenge_metadata_missing")
    else if !EqualsOne(At(record.entries, "version")) then Rejected("challenge_metadata_invalid")
    else
      var issued, ttl := FiniteNumber(At(record.entries, "issued_at")), ChallengeTtl(env);
      if issued.None? then Rejected("challenge_metadata_invalid")
      else if ttl.Rejected? then Rejected(ttl.reason)
      else if now - issued.value < 0.0 || now - issued.value > ttl.value as real then Rejected("challenge_expired")
      else Open(record.entries)
  }

  /** The checks before the claim: the nonce to be claimed. */
  function NonceToClaim(s: Entries, record: Value, env: Env, now: real): Gate<string> {
    var inTime := FreshRecord(record, env, now);
    if inTime.Rejected? then Rejected(inTime.reason)
    else
      var binding, nonce := Binding(s), At(inTime.value, "nonce");
      if binding.None? || At(inTime.value, "session_binding_digest") != Text(Sha256(binding.value))
      then Rejected("session_binding_mismatch")
      else if !nonce.Text? || !(32 <= |nonce.s| <= 256) then Rejected("challenge_metadata_invalid")
      else Open(nonce.s)
  }

  function ClaimKey(nonce: string): string { CLAIM_PREFIX + Sha256(nonce) }

  lemma ClaimKeysDiffer(a: string, b: string)
    ensures ClaimKey(a) == ClaimKey(b) ==> a == b
  {
    assert ClaimKey(a)[|CLAIM_PREFIX|..] == Sha256(a) && ClaimKey(b)[|CLAIM_PREFIX|..] == Sha256(b);
    Sha256Injective(a, b);
  }

  /** The claim's outcome: any cache error fails closed. */
  function ClaimGate(r: C.AddResult): Gate<()> {
    match r
    case Stored => Open(())
    case AlreadyThere => Rejected("challenge_replayed")
    case _ => Rejected("challenge_claim_failed")
  }

  /** The checks after the claim: the digest the signed challenge must have. */
  function ExpectedDigest(s: Entries, record: Entries, policy: Policy, env: Env): Gate<string> {
    var subject, digest := At(record, "subject_binding_digest"), At(record, "challenge_digest");
    var expected := SubjectDigest(s, policy, env);
    if At(record, "purpose") != Text(policy.purpose) then Rejected("challenge_purpose_mismatch")
    else if policy.purpose == "account.login" && !subject.Null? then Rejected("subject_binding_mismatch")
    else if policy.purpose != "account.login" && (expected.None? || subject != Text(expected.value))
    then Rejected("subject_binding_mismatch")
    else if !IsSha256Digest(digest) then Rejected("challenge_metadata_invalid")
    else Open(digest.s)
  }

  /** The body of the completion request against that digest. */
  function MatchBody(body: Option<Value>, digest: string, policy: Policy, env: Env): Gate<()> {
    var credential := Credential(body, policy);
    if credential.Rejected? then Rejected(credential.reason)
    else
      var signed := SignedChallenge(credential.value, policy.expectedType, AllowedOrigins(env, policy.surface), env);
      if signed.Rejected? then Rejected(signed.reason)
      else if Sha256(BytesText(signed.value)) != digest then Rejected("challenge_mismatch")
      else Open(())
  }

  /** The nonce a request presents to the replay cache, once its session is saved. */
  function Presented(s: Entries, env: Env, now: real, saves: bool): Gate<string> {
    var taken := TakeRecord(s, saves);
    if taken.gate.Rejected? then Rejected(taken.gate.reason)
    else NonceToClaim(taken.store, taken.gate.value, env, now)
  }

  lemma PresentedFromRecord(s: Entries, env: Env, now: real, saves: bool)
    ensures Presented(s, env, now, saves).Open? ==> saves && At(s, CHALLENGE_KEY).Dict? && ChallengeTtl(env).Open?
  {
  }

  /** `_consume_challenge`, up to the digest its record demands; should it get as far as the
      claim, that ends in r. */
  function ConsumeChallenge(s: Entries, policy: Policy, env: Env, now: real, saves: bool, r: C.AddResult): Effect<string> {
    var taken, nonce := TakeRecord(s, saves), Presented(s, env, now, saves);
    var gate :=
      if nonce.Rejected? then Rejected(nonce.reason)
      else if ClaimGate(r).Rejected? then Rejected(ClaimGate(r).reason)
      else ExpectedDigest(taken.store, taken.gate.value.entries, policy, env);
    Effect(taken.store, taken.saved, gate)
  }

  /** A whole completion request. */
  function Complete(s: Entries, policy: Policy, env: Env, now: real, body: Option<Value>, saves: bool,
                    r: C.AddResult): Effect<()>
  {
    var consumed := ConsumeChallenge(s, policy, env, now, saves, r);
    Effect(consumed.store, consumed.saved,
           if consumed.gate.Rejected? then Rejected(consumed.gate.reason)
           else MatchBody(body, consumed.gate.value, policy, env))
  }

  // ---------------------------------------------------------------- the ceremony

  /** The challenge bytes an options response announces. */
  function Announced(payload: Option<Entries>, policy: Policy): Gate<seq<B.byte>> {
    var key := PublicKey(payload, policy);
    if key.Rejected? then Rejected(key.reason) else B.Decode(TextOf(At(key.value, "challenge")))
  }

  /** The challenge bytes a completion body signs, for the policy's type and origins. */
  function Signed(body: Option<Value>, policy: Policy, env: Env): Gate<seq<B.byte>> {
    var credential := Credential(body, policy);
    if credential.Rejected? then Rejected(credential.reason)
    else SignedChallenge(credential.value, policy.expectedType, AllowedOrigins(env, policy.surface), env)
  }

  predicate StoredBy(s0: Entries, issuing: Policy, payload: Option<Entries>, env: Env, issued: real, spare: string,
                     nonce: string) {
    && |spare| >= 32 && 32 <= |nonce| <= 256
    && StoreChallenge(s0, issuing, payload, env, issued, spare, nonce, true).gate.Open?
  }

  lemma MetadataReads(m: Entries, purpose: string, issued: real, challenge: seq<B.byte>, binding: string,
                      subject: Option<string>, nonce: string)
    requires Dict(m) == Metadata(purpose, issued, challenge, binding, subject, nonce)
    ensures At(m, "version") == Int(1) && At(m, "purpose") == Text(purpose) && At(m, "issued_at") == Float(issued)
    ensures At(m, "challenge_digest") == Text(Sha256(BytesText(challenge)))
    ensures At(m, "session_binding_digest") == Text(Sha256(binding))
    ensures At(m, "subject_binding_digest") == OptionalText(subject) && At(m, "nonce") == Text(nonce)
  {
  }

  /** The checks before the claim pass exactly in time and under the same session binding. */
  lemma NonceExactly(s: Entries, env: Env, now: real, purpose: string, issued: real, challenge: seq<B.byte>,
                     binding: string, subject: Option<string>, nonce: string)
    requires ChallengeTtl(env).Open? && 32 <= |nonce| <= 256
    ensures var gate := NonceToClaim(s, Metadata(purpose, issued, challenge, binding, subject, nonce), env, now);
            && (gate.Open? <==> issued <= now <= issued + env.ttl.n as real && Binding(s) == Some(binding))
            && (gate.Open? ==> gate.value == nonce)
  {
    hide Sha256, IsSha256Digest, BytesText;
    var record := Metadata(purpose, issued, challenge, binding, subject, nonce);
    MetadataReads(record.entries, purpose, issued, challenge, binding, subject, nonce);
    if Binding(s).Some? { Sha256Injective(Binding(s).value, binding); }
  }

  /** The checks after the claim pass exactly for the same purpose and subject. */
  lemma DigestExactly(s: Entries, policy: Policy, env: Env, issuing: Policy, issued: real, challenge: seq<B.byte>,
                      binding: string, about: Option<string>, nonce: string)
    requires about.None? <==> issuing.purpose == "account.login"
    ensures var subject := if about.Some? then Some(Sha256(about.value)) else None;
            var record := Metadata(issuing.purpose, issued, challenge, binding, subject, nonce);
            var gate := ExpectedDigest(s, record.entries, policy, env);
            && (gate.Open? <==> policy.purpose == issuing.purpose &&
                                (policy.purpose == "account.login" || Subject(s, policy, env) == about))
            && (gate.Open? ==> gate.value == Sha256(BytesText(challenge)))
  {
    hide Subject, Sha256, IsSha256Digest, BytesText;
    var subject := if about.Some? then Some(Sha256(about.value)) else None;
    var record := Metadata(issuing.purpose, issued, challenge, binding, subject, nonce);
    MetadataReads(record.entries, issuing.purpose, issued, challenge, binding, subject, nonce);
    Sha256Injective(BytesText(challenge), "");
    var mine := Subject(s, policy, env);
    if mine.Some? && about.Some? { Sha256Injective(mine.value, about.value); }
  }

  /** The body passes exactly when it signs those challenge bytes. */
  lemma BodyExactly(body: Option<Value>, policy: Policy, env: Env, challenge: seq<B.byte>)
    ensures MatchBody(body, Sha256(BytesText(challenge)), policy, env).Open?
            <==> Signed(body, policy, env) == Open(challenge)
  {
    hide SignedChallenge, Credential, Sha256, BytesText;
    var signed := Signed(body, policy, env);
    if signed.Open? {
      Sha256Injective(BytesText(signed.value), BytesText(challenge));
      BytesTextInjective(signed.value, challenge);
    }
  }

  /** What a successful options response leaves in the session. */
  lemma StoredRecord(s0: Entries, issuing: Policy, payload: Option<Entries>, env: Env, issued: real, spare: string,
                     nonce: string, saves: bool)
    requires KnownPolicy(issuing) && |spare| >= 32
    requires StoreChallenge(s0, issuing, payload, env, issued, spare, nonce, saves).gate.Open?
    ensures ChallengeTtl(env).Open? && Announced(payload, issuing).Open?
    ensures var b := Bound(s0, spare);
            var stored := StoreChallenge(s0, issuing, payload, env, issued, spare, nonce, saves).store;
            && Binding(b) == Some(b[BINDING_KEY].s)
            && (Subject(b, issuing, env).None? <==> issuing.purpose == "account.login")
            && stored == b[CHALLENGE_KEY := Metadata(issuing.purpose, issued, Announced(payload, issuing).value,
                                                     b[BINDING_KEY].s, SubjectDigest(b, issuing, env), nonce)]
  {
    hide PublicKey, B.Decode, Metadata, AdminSubject, PendingSubject, AuthenticatedSubject;
  }

  /** The request, over session s1 at `now`, is the other half of the ceremony that an options
      response began over s0 at `issued`, in time. */
  predicate OtherHalf(s0: Entries, issuing: Policy, payload: Option<Entries>, env: Env, issued: real, spare: string,
                      s1: Entries, policy: Policy, body: Option<Value>, now: real)
    requires |spare| >= 32
  {
    && ChallengeTtl(env).Open?
    && issued <= now <= issued + env.ttl.n as real
    && Binding(s1) == Binding(Bound(s0, spare))
    && policy.purpose == issuing.purpose
    && (policy.purpose == "account.login" ||
        Subject(s1 - {CHALLENGE_KEY}, policy, env) == Subject(Bound(s0, spare), issuing, env))
    && Signed(body, policy, env).Open?
    && Signed(body, policy, env) == Announced(payload, issuing)
  }

  /** The session holds the record that options response stored. */
  predicate HoldsRecord(s1: Entries, s0: Entries, issuing: Policy, payload: Option<Entries>, env: Env, issued: real,
                        spare: string, nonce: string)
  {
    var stored := StoreChallenge(s0, issuing, payload, env, issued, spare, nonce, true).store;
    CHALLENGE_KEY in s1 && CHALLENGE_KEY in stored && s1[CHALLENGE_KEY] == stored[CHALLENGE_KEY]
  }

  /** A record stored for one ceremony lets a request of any session and policy through exactly
      when that request is the other half of the same ceremony, in time, and its claim is stored. */
  lemma CeremonyMatchesExactly(s0: Entries, issuing: Policy, payload: Option<Entries>, env: Env, issued: real,
                               spare: string, nonce: string,
                               s1: Entries, policy: Policy, body: Option<Value>, now: real, r: C.AddResult)
    requires KnownPolicy(issuing)
    requires StoredBy(s0, issuing, payload, env, issued, spare, nonce)
    requires HoldsRecord(s1, s0, issuing, payload, env, issued, spare, nonce)
    ensures Complete(s1, policy, env, now, body, true, r).gate.Open? <==>
              r.Stored? && OtherHalf(s0, issuing, payload, env, issued, spare, s1, policy, body, now)
  {
    StoredRecord(s0, issuing, payload, env, issued, spare, nonce, true);
    hide Subject, Announced, Signed, StoreChallenge, NonceToClaim, ExpectedDigest, MatchBody, Metadata, Sha256, BytesText;
    var b := Bound(s0, spare);
    var after, binding := s1 - {CHALLENGE_KEY}, b[BINDING_KEY].s;
    var about, challenge := Subject(b, issuing, env), Announced(payload, issuing).value;
    assert Binding(after) == Binding(s1);
    NonceExactly(after, env, now, issuing.purpose, issued, challenge, binding, SubjectDigest(b, issuing, env), nonce);
    DigestExactly(after, policy, env, issuing, issued, challenge, binding, about, nonce);
    BodyExactly(body, policy, env, challenge);
  }

  /** A challenge first claimed at `first` lets a second request through exactly when that request is
      the other half of its ceremony and writes its claim after the whole second in which the first
      claim ends. */
  lemma SecondUseExactly(s0: Entries, issuing: Policy, payload: Option<Entries>, env: Env, issued: real,
                         spare: string, nonce: string,
                         s1: Entries, policy: Policy, body: Option<Value>, now: real,
                         rows: map<string, C.Row<bool>>, capacity: nat, first: real,
                         checked: real, written: real, verified: real)
    requires KnownPolicy(issuing) && env.ttl.Int?
    requires StoredBy(s0, issuing, payload, env, issued, spare, nonce)
    requires HoldsRecord(s1, s0, issuing, payload, env, issued, spare, nonce)
    requires ClaimKey(nonce) in rows && rows[ClaimKey(nonce)].expires == C.ExpiresAt(first, env.ttl.n)
    requires |rows| <= capacity && checked <= written <= verified
    ensures var r := C.Add(rows, capacity, ClaimKey(nonce), true, env.ttl.n, checked, written, verified, true).1;
            Complete(s1, policy, env, now, body, true, r).gate.Open? <==>
              && OtherHalf(s0, issuing, payload, env, issued, spare, s1, policy, body, now)
              && C.Sec(first) + env.ttl.n < C.Sec(written)
  {
    hide Complete, OtherHalf, StoredBy, HoldsRecord, KnownPolicy, ClaimKey, C.Add, C.ExpiresAt, C.Sec;
    var r := C.Add(rows, capacity, ClaimKey(nonce), true, env.ttl.n, checked, written, verified, true).1;
    CeremonyMatchesExactly(s0, issuing, payload, env, issued, spare, nonce, s1, policy, body, now, r);
    C.AgainExactly(rows, capacity, ClaimKey(nonce), true, env.ttl.n, first, checked, written, verified);
  }
}
