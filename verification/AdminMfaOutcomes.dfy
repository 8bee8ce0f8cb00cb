/** When each step of the admin login goes through, over any session and any database, and what it leaves
    in the session. */
module AdminMfaOutcomes {
  import opened Prelude
  import opened Decimals
  import opened W = WebAuthn
  import opened M = AdminMfa

  /** The account may enter the admin: active, staff, and with a code generator or a security key. */
  predicate Eligible(db: Db, user: int) {
    && user in db.accounts && db.accounts[user].active && db.accounts[user].staff
    && exists f | f in db.factors :: f.user == user && (f.kind == "totp" || f.kind == "webauthn")
  }

  /** The keys an admin login keeps in a session. */
  const FLOW_KEYS := {"_admin_mfa_pending", "mfa.webauthn.state", "_webauthn_challenge", "_webauthn_session_binding"}
  const VERIFIED_KEY := "_admin_mfa_assurance"

  /** t is s without those keys. */
  predicate Without(s: Entries, t: Entries, keys: set<string>) {
    t == map k | k in s && k !in keys :: s[k]
  }

  lemma EligibleExactly(db: Db, user: int)
    ensures Eligible(db, user) <==> ActiveStaff(db, user) && HasPrimary(db, user)
  {
  }

  /** The password stage starts a flow exactly for an eligible account; either way nothing of an earlier flow
      or assurance is left, and the rest of the session stays. */
  lemma StartExactly(s: Entries, db: Db, user: int, now: real, next: Value, flow: string)
    ensures var (t, r) := Start(s, db, user, now, next, flow);
            && (r.Open? <==> Eligible(db, user))
            && Without(s, t - {"_admin_mfa_pending"}, FLOW_KEYS + {VERIFIED_KEY})
            && (r.Open? ==> r.value == Pending(user, now, next, flow)
                            && At(t, "_admin_mfa_pending") == PendingValue(user, now, next, flow))
            && (!r.Open? ==> "_admin_mfa_pending" !in t)
  {
    hide PendingValue, ActiveStaff, HasPrimary, Eligible;
    EligibleExactly(db, user);
    var (t, r) := Start(s, db, user, now, next, flow);
    var rest := map k | k in s && k !in FLOW_KEYS + {VERIFIED_KEY} :: s[k];
    assert t - {"_admin_mfa_pending"} == rest;
  }

  /** A number, and how old it is. */
  predicate Within(v: Value, ttl: nat, now: real) {
    match v
    case Int(n) => n as real <= now <= n as real + ttl as real
    case Float(x) => x <= now <= x + ttl as real
    case _ => false
  }

  function Seconds(v: Value): real
    requires v.Int? || v.Float?
  {
    if v.Int? then v.n as real else v.x
  }

  /** The pending flow that a session's content spells. */
  predicate Spells(s: Entries, ttl: nat, now: real, p: Pending) {
    && "_admin_mfa_pending" in s && s["_admin_mfa_pending"].Dict?
    && var m := s["_admin_mfa_pending"].entries;
       && "version" in m && m["version"] in {Int(1), Float(1.0), Bool(true)}
       && "user_pk" in m && m["user_pk"] == Text(IntText(p.user))
       && "started_at" in m && Within(m["started_at"], ttl, now) && Seconds(m["started_at"]) == p.started
       && p.next == At(m, "next")
       && "flow_id" in m && m["flow_id"] == Text(p.flow) && |p.flow| >= 16
  }

  /** Whatever a session holds, it reads as a pending flow exactly if it spells one of an eligible account that
      is not over; anything else is dropped with all that belongs to it, and the rest of the session stays. */
  lemma GetPendingExactly(s: Entries, db: Db, ttl: nat, now: real, p: Pending)
    ensures var (t, r) := GetPending(s, db, ttl, now);
            && (r == Some(p) <==> Spells(s, ttl, now, p) && Eligible(db, p.user))
            && (if r.Some? then t == s else Without(s, t, FLOW_KEYS))
  {
    hide IntText, Eligible, ActiveStaff, HasPrimary;
    EligibleExactly(db, p.user);
    IntTextInjective(p.user, p.user);
    var named := UserNamed(db, IntText(p.user));
    if named.Some? { IntTextInjective(named.value, p.user); }
    assert ActiveStaff(db, p.user) ==> p.user in db.accounts by { EligibleAccount(db, p.user); }
    var rest := map k | k in s && k !in FLOW_KEYS :: s[k];
    assert s - FLOW_KEYS == rest;
  }

  lemma EligibleAccount(db: Db, user: int)
    ensures ActiveStaff(db, user) ==> user in db.accounts
  {
  }

  /** A login completes exactly for an eligible account with a factor of its own that is still enrolled, and a
      rate epoch that was rotated. A refusal of the checks drops flow and assurance; one of the rotation leaves
      the session alone. */
  lemma CompletedExactly(s: Entries, db: Db, pending: Pending, factor: Factor, means: string, rotated: Gate<()>, now: real)
    ensures var (t, r) := Completed(s, db, pending, factor, means, rotated, now);
            var fit := Eligible(db, pending.user) && factor.user == pending.user && factor in db.factors;
            && (r.Open? <==> fit && rotated.Open?)
            && (!fit ==> Without(s, t, FLOW_KEYS + {VERIFIED_KEY}))
            && (fit && !rotated.Open? ==> t == s)
            && (r.Open? ==>
                  && At(t, "_auth_user_id") == Text(IntText(pending.user))
                  && At(t, VERIFIED_KEY) == AssuranceValue(pending.user, now, means)
                  && if "_auth_user_id" !in s || s["_auth_user_id"] == Text(IntText(pending.user))
                     then Without(s, t - {VERIFIED_KEY, "_auth_user_id"}, FLOW_KEYS + {VERIFIED_KEY, "_auth_user_id"})
                     else t.Keys == {"_auth_user_id", VERIFIED_KEY})
  {
    hide AssuranceValue, IntText, ActiveStaff, HasPrimary, Eligible;
    EligibleExactly(db, pending.user);
    var all := FLOW_KEYS + {VERIFIED_KEY};
    var rest := map k | k in s && k !in all :: s[k];
    assert ClearAll(s) == rest;
    var others := map k | k in s && k !in all + {"_auth_user_id"} :: s[k];
    assert rest - {"_auth_user_id"} == others;
  }

  /** The method an assurance names for a factor, exactly for the three kinds of factors. */
  lemma MethodExactly(kind: string, means: string)
    ensures MethodFor(kind) == Some(means) <==>
              || (kind == "totp" && means == "totp")
              || (kind == "recovery_codes" && means == "recovery_code")
              || (kind == "webauthn" && means == "webauthn")
  {
  }

  /** Whatever a session holds, it counts as verified exactly for a signed-in, active staff visitor whose
      assurance it spells, by a known method and within the lifetime. */
  lemma VerifiedExactly(s: Entries, visitor: Option<Visitor>, ttl: nat, now: real)
    ensures ReadsVerified(s, visitor, ttl, now) <==>
              && visitor.Some? && visitor.value.authenticated && visitor.value.active && visitor.value.staff
              && VERIFIED_KEY in s && s[VERIFIED_KEY].Dict?
              && var m := s[VERIFIED_KEY].entries;
                 && "version" in m && m["version"] in {Int(1), Float(1.0), Bool(true)}
                 && "user_pk" in m && m["user_pk"] == Text(IntText(visitor.value.pk))
                 && "method" in m && m["method"] in {Text("totp"), Text("recovery_code"), Text("webauthn")}
                 && "verified_at" in m && Within(m["verified_at"], ttl, now)
  {
    hide IntText;
  }

  /** Asking drops an assurance that does not hold, and changes nothing else. */
  lemma IsVerifiedExactly(s: Entries, visitor: Option<Visitor>, ttl: nat, now: real)
    ensures var (t, r) := IsVerified(s, visitor, ttl, now);
            r == ReadsVerified(s, visitor, ttl, now) && if r then t == s else Without(s, t, {VERIFIED_KEY})
  {
    hide ReadsVerified;
    var rest := map k | k in s && k !in {VERIFIED_KEY} :: s[k];
    assert s - {VERIFIED_KEY} == rest;
  }

  /** A request enters the admin exactly if it counts as verified and its visitor still has a code generator or a
      security key; otherwise no assurance is left. */
  lemma RequestAssuredExactly(s: Entries, db: Db, visitor: Option<Visitor>, ttl: nat, now: real)
    ensures var (t, r) := RequestAssured(s, db, visitor, ttl, now);
            && (r <==> ReadsVerified(s, visitor, ttl, now)
                       && exists f | f in db.factors :: Some(f.user) == OfVisitor(visitor) && (f.kind == "totp" || f.kind == "webauthn"))
            && if r then t == s else Without(s, t, {VERIFIED_KEY})
  {
    hide ReadsVerified;
    if ReadsVerified(s, visitor, ttl, now) { VerifiedIsSomeone(s, visitor, ttl, now); }
    var rest := map k | k in s && k !in {VERIFIED_KEY} :: s[k];
    assert s - {VERIFIED_KEY} == rest && rest - {VERIFIED_KEY} == rest;
  }

  function OfVisitor(visitor: Option<Visitor>): Option<int> {
    match visitor
    case Some(v) => Some(v.pk)
    case None => None
  }
}
