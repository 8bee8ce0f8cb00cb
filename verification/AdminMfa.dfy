/** Two-step admin login: a password-stage pending flow, a factor, and a session-bound assurance. */
module AdminMfa {
  import opened Prelude
  import opened Decimals
  import opened W = WebAuthn

  const ASSURANCE_KEY := "_admin_mfa_assurance"

  // ---------------------------------------------------------------- database

  datatype Account = Account(active: bool, staff: bool)

  /** An enrolled factor. */
  datatype Factor = Factor(pk: nat, user: int, kind: string)

  datatype Db = Db(accounts: map<int, Account>, factors: set<Factor>)

  const PRIMARY := {"totp", "webauthn"}
  const METHODS := {"totp", "recovery_code", "webauthn"}

  /** `admin_user_has_primary_mfa`. */
  predicate HasPrimary(db: Db, user: int) {
    exists f | f in db.factors :: f.user == user && f.kind in PRIMARY
  }

  predicate ActiveStaff(db: Db, user: int) {
    user in db.accounts && db.accounts[user].active && db.accounts[user].staff
  }

  /** The account a primary-key text names; texts name at most one. */
  function UserNamed(db: Db, text: string): (r: Option<int>)
    ensures r.Some? ==> r.value in db.accounts && IntText(r.value) == text
    ensures r.None? ==> forall pk | pk in db.accounts :: IntText(pk) != text
  {
    if exists pk | pk in db.accounts :: IntText(pk) == text then
      assert forall a, b | a in db.accounts && b in db.accounts && IntText(a) == text && IntText(b) == text :: a == b by {
        forall a, b | a in db.accounts && b in db.accounts && IntText(a) == text && IntText(b) == text ensures a == b {
          IntTextInjective(a, b);
        }
      }
      var pk :| pk in db.accounts && IntText(pk) == text;
      Some(pk)
    else None
  }

  function MethodFor(kind: string): Option<string> {
    if kind == "totp" then Some("totp")
    else if kind == "recovery_codes" then Some("recovery_code")
    else if kind == "webauthn" then Some("webauthn")
    else None
  }

  // ---------------------------------------------------------------- session state

  /** A pending flow as loaded: its user, when it started, and its id. */
  datatype Pending = Pending(user: int, started: real, next: Value, flow: string)

  /** `_valid_timestamp` at the clock reading `now`. */
  predicate ValidTimestamp(v: Value, ttl: nat, now: real) {
    FiniteNumber(v).Some? && 0.0 <= now - FiniteNumber(v).value <= ttl as real
  }

  function ClearPending(s: Entries): Entries {
    s - {PENDING_KEY, STATE_KEY, CHALLENGE_KEY, BINDING_KEY}
  }

  function ClearAll(s: Entries): Entries {
    ClearPending(s) - {ASSURANCE_KEY}
  }

  function PendingValue(user: int, started: real, next: Value, flow: string): Value {
    Dict(map["version" := Int(1), "user_pk" := Text(IntText(user)), "started_at" := Float(started),
             "next" := next, "flow_id" := Text(flow)])
  }

  function AssuranceValue(user: int, verified: real, means: string): Value {
    Dict(map["version" := Int(1), "user_pk" := Text(IntText(user)), "verified_at" := Float(verified),
             "method" := Text(means)])
  }

  /** `start_pending_admin_login`, after the password form accepted the user. */
  function Start(s: Entries, db: Db, user: int, now: real, next: Value, flow: string): (Entries, Gate<Pending>) {
    if !ActiveStaff(db, user) || !HasPrimary(db, user) then (ClearAll(s), Rejected("admin_mfa_required"))
    else (ClearAll(s)[PENDING_KEY := PendingValue(user, now, next, flow)], Open(Pending(user, now, next, flow)))
  }

  /** The pending flow a session holds, if everything about it is in order. */
  function ReadPending(s: Entries, db: Db, ttl: nat, now: real): Option<Pending> {
    var state := At(s, PENDING_KEY);
    if !state.Dict? || !EqualsOne(At(state.entries, "version")) then None
    else
      var pk, started, flow := At(state.entries, "user_pk"), At(state.entries, "started_at"), At(state.entries, "flow_id");
      if !pk.Text? || pk.s == "" || !flow.Text? || |flow.s| < 16 || !ValidTimestamp(started, ttl, now) then None
      else
        var user := UserNamed(db, pk.s);
        if user.None? || !ActiveStaff(db, user.value) || !HasPrimary(db, user.value) then None
        else Some(Pending(user.value, FiniteNumber(started).value, At(state.entries, "next"), flow.s))
  }

  /** `get_pending_admin_login`: anything else is cleared. */
  function GetPending(s: Entries, db: Db, ttl: nat, now: real): (Entries, Option<Pending>) {
    var p := ReadPending(s, db, ttl, now);
    (if p.Some? then s else ClearPending(s), p)
  }

  /** Django's `login` on the session contents: another user's session is flushed first. */
  function LoggedIn(s: Entries, user: int): Entries {
    var kept := if USER_KEY in s && s[USER_KEY] != Text(IntText(user)) then map[] else s;
    kept[USER_KEY := Text(IntText(user))]
  }

  function CompletionError(db: Db, user: int, factor: Factor): Option<string> {
    if !ActiveStaff(db, user) then Some("admin_role_changed")
    else if factor.user != user then Some("authenticator_user_mismatch")
    else if factor !in db.factors then Some("authenticator_removed")
    else if !HasPrimary(db, user) then Some("primary_mfa_removed")
    else None
  }

  /** `complete_admin_login`; `rotated` is the outcome of rotating the rate epoch. */
  function Completed(s: Entries, db: Db, pending: Pending, factor: Factor, means: string, rotated: Gate<()>,
                     now: real): (Entries, Gate<()>) {
    var error := CompletionError(db, pending.user, factor);
    if error.Some? then (ClearAll(s), Rejected(error.value))
    else if rotated.Rejected? then (s, Rejected(rotated.reason))
    else (LoggedIn(ClearAll(s), pending.user)[ASSURANCE_KEY := AssuranceValue(pending.user, now, means)], Open(()))
  }

  /** The requesting user as authentication middleware sees it. */
  datatype Visitor = Visitor(pk: int, authenticated: bool, active: bool, staff: bool)

  predicate ReadsVerified(s: Entries, visitor: Option<Visitor>, ttl: nat, now: real) {
    visitor.Some? && visitor.value.authenticated && visitor.value.active && visitor.value.staff &&
    var state := At(s, ASSURANCE_KEY);
    && state.Dict? && EqualsOne(At(state.entries, "version"))
    && At(state.entries, "user_pk") == Text(IntText(visitor.value.pk))
    && At(state.entries, "method").Text? && At(state.entries, "method").s in METHODS
    && ValidTimestamp(At(state.entries, "verified_at"), ttl, now)
  }

  /** `is_admin_mfa_verified`: an assurance that does not hold is dropped. */
  function IsVerified(s: Entries, visitor: Option<Visitor>, ttl: nat, now: real): (Entries, bool) {
    var ok := ReadsVerified(s, visitor, ttl, now);
    (if ok then s else s - {ASSURANCE_KEY}, ok)
  }

  /** `admin_request_has_mfa_assurance`: an assurance without a primary factor left is dropped as well. */
  function RequestAssured(s: Entries, db: Db, visitor: Option<Visitor>, ttl: nat, now: real): (Entries, bool) {
    var (t, verified) := IsVerified(s, visitor, ttl, now);
    var ok := verified && visitor.Some? && HasPrimary(db, visitor.value.pk);
    (if ok then t else t - {ASSURANCE_KEY}, ok)
  }

  // ---------------------------------------------------------------- in place

  class AdminSession {
    var store: Entries

    constructor (store: Entries)
      ensures this.store == store
    {
      this.store := store;
    }

    method ClearPendingLogin()
      modifies this
      ensures store == ClearPending(old(store))
    {
      store := store - {PENDING_KEY};
      store := store - {STATE_KEY};
      store := store - {CHALLENGE_KEY};
      store := store - {BINDING_KEY};
    }

    method ClearMfaState()
      modifies this
      ensures store == ClearAll(old(store))
    {
      ClearPendingLogin();
      store := store - {ASSURANCE_KEY};
    }

    method StartPendingLogin(db: Db, user: int, now: real, next: Value, flow: string) returns (r: Gate<Pending>)
      modifies this
      ensures (store, r) == Start(old(store), db, user, now, next, flow)
    {
      if !(ActiveStaff(db, user) && HasPrimary(db, user)) {
        ClearMfaState();
        return Rejected("admin_mfa_required");
      }
      ClearMfaState();
      store := store[PENDING_KEY := PendingValue(user, now, next, flow)];
      r := Open(Pending(user, now, next, flow));
    }

    method GetPendingLogin(db: Db, ttl: nat, now: real) returns (r: Option<Pending>)
      modifies this
      ensures (store, r) == GetPending(old(store), db, ttl, now)
    {
      var state := At(store, PENDING_KEY);
      if !state.Dict? || !EqualsOne(At(state.entries, "version")) {
        ClearPendingLogin();
        return None;
      }
      var pk, started, flow := At(state.entries, "user_pk"), At(state.entries, "started_at"), At(state.entries, "flow_id");
      if !pk.Text? || pk.s == "" || !flow.Text? || |flow.s| < 16 || !ValidTimestamp(started, ttl, now) {
        ClearPendingLogin();
        return None;
      }
      var user := UserNamed(db, pk.s);
      if user.None? || !ActiveStaff(db, user.value) || !HasPrimary(db, user.value) {
        ClearPendingLogin();
        return None;
      }
      r := Some(Pending(user.value, FiniteNumber(started).value, At(state.entries, "next"), flow.s));
    }

    method CompleteLogin(db: Db, pending: Pending, factor: Factor, means: string, rotated: Gate<()>, now: real)
      returns (r: Gate<()>)
      modifies this
      ensures (store, r) == Completed(old(store), db, pending, factor, means, rotated, now)
    {
      var error := CompletionError(db, pending.user, factor);
      if error.Some? {
        ClearMfaState();
        return Rejected(error.value);
      }
      if rotated.Rejected? { return Rejected(rotated.reason); }
      ClearMfaState();
      if USER_KEY in store && store[USER_KEY] != Text(IntText(pending.user)) { store := map[]; }
      store := store[USER_KEY := Text(IntText(pending.user))];
      store := store[ASSURANCE_KEY := AssuranceValue(pending.user, now, means)];
      r := Open(());
    }

    method CheckVerified(visitor: Option<Visitor>, ttl: nat, now: real) returns (ok: bool)
      modifies this
      ensures (store, ok) == IsVerified(old(store), visitor, ttl, now)
    {
      if visitor.None? || !visitor.value.authenticated || !visitor.value.active || !visitor.value.staff {
        store := store - {ASSURANCE_KEY};
        return false;
      }
      var state := At(store, ASSURANCE_KEY);
      if !state.Dict? || !EqualsOne(At(state.entries, "version")) {
        store := store - {ASSURANCE_KEY};
        return false;
      }
      var assured, means := At(state.entries, "user_pk"), At(state.entries, "method");
      if !assured.Text? || assured.s != IntText(visitor.value.pk) {
        store := store - {ASSURANCE_KEY};
        return false;
      }
      if !means.Text? || means.s !in METHODS {
        store := store - {ASSURANCE_KEY};
        return false;
      }
      ok := ValidTimestamp(At(state.entries, "verified_at"), ttl, now);
      if !ok { store := store - {ASSURANCE_KEY}; }
    }

    method CheckAssured(db: Db, visitor: Option<Visitor>, ttl: nat, now: real) returns (ok: bool)
      modifies this
      ensures (store, ok) == RequestAssured(old(store), db, visitor, ttl, now)
    {
      hide ReadsVerified, HasPrimary;
      ok := CheckVerified(visitor, ttl, now);
      if !ok {
        store := store - {ASSURANCE_KEY};
        return;
      }
      VerifiedIsSomeone(old(store), visitor, ttl, now);
      if !HasPrimary(db, visitor.value.pk) {
        store := store - {ASSURANCE_KEY};
        ok := false;
      }
    }
  }

  lemma VerifiedIsSomeone(s: Entries, visitor: Option<Visitor>, ttl: nat, now: real)
    requires ReadsVerified(s, visitor, ttl, now)
    ensures visitor.Some?
  {
  }

  // ---------------------------------------------------------------- one login

  /** A pending flow reads back exactly while it lasts and its account stays eligible. */
  lemma PendingReadsBackExactly(s: Entries, db: Db, user: int, started: real, next: Value, flow: string, ttl: nat, now: real)
    requires At(s, PENDING_KEY) == PendingValue(user, started, next, flow) && |flow| >= 16
    ensures ReadPending(s, db, ttl, now) ==
              if started <= now <= started + ttl as real && ActiveStaff(db, user) && HasPrimary(db, user)
              then Some(Pending(user, started, next, flow)) else None
  {
    hide IntText;
    IntTextInjective(user, user);
    var named := UserNamed(db, IntText(user));
    if named.Some? { IntTextInjective(named.value, user); }
  }

  /** An assurance holds exactly for its user, with a known method, while it lasts. */
  lemma AssuranceHoldsExactly(s: Entries, user: int, verified: real, means: string, visitor: Visitor, ttl: nat, now: real)
    requires At(s, ASSURANCE_KEY) == AssuranceValue(user, verified, means)
    ensures ReadsVerified(s, Some(visitor), ttl, now) <==>
              && visitor.authenticated && visitor.active && visitor.staff && visitor.pk == user
              && means in METHODS && verified <= now <= verified + ttl as real
  {
    hide IntText;
    IntTextInjective(user, visitor.pk);
  }

  /** Right after a login completes, the session is verified for that staff user and no one else,
      nothing of the pending flow is left, and another user's data is not carried over. */
  lemma CompletedLogin(s: Entries, db: Db, pending: Pending, factor: Factor, means: string, now: real,
                       visitor: Visitor, ttl: nat)
    requires Completed(s, db, pending, factor, means, Open(()), now).1.Open? && means in METHODS
    requires visitor.authenticated && visitor.active && visitor.staff
    ensures var t := Completed(s, db, pending, factor, means, Open(()), now).0;
            && (ReadsVerified(t, Some(visitor), ttl, now) <==> visitor.pk == pending.user)
            && At(t, PENDING_KEY) == Null && At(t, CHALLENGE_KEY) == Null && At(t, BINDING_KEY) == Null
            && At(t, USER_KEY) == Text(IntText(pending.user))
            && (At(s, USER_KEY) !in {Null, Text(IntText(pending.user))} ==> t.Keys == {USER_KEY, ASSURANCE_KEY})
  {
    hide AssuranceValue, IntText;
    var t := Completed(s, db, pending, factor, means, Open(()), now).0;
    AssuranceHoldsExactly(t, pending.user, now, means, visitor, ttl, now);
  }
}
