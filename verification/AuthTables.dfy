/** The tables behind refresh tokens and sessions, and what one request does to them.

    Every function here maps whole tables to whole tables: it says which rows a
    request touches, not in which order it writes them. `AuthStore` performs the
    same operations write by write. */
module AuthTables {
  import opened Prelude

  type UserId = nat
  type Jti = string
  type Time = int

  /** `UserSessionMeta`. The empty string stands for a NULL digest or reason. */
  datatype Meta = Meta(user: UserId, key: string, digest: string, firstSeen: Time,
                       lastSeen: Option<Time>, revokedAt: Option<Time>, reason: string)

  /** `UserSessionToken`: which refresh token a session currently holds. */
  datatype Mapping = Mapping(user: UserId, key: string, jti: Jti,
                             expiresAt: Option<Time>, revokedAt: Option<Time>)

  /** `OutstandingToken`; a `BlacklistedToken` is the primary key it points at. */
  datatype Outstanding = Outstanding(user: UserId, jti: Jti, expiresAt: Time)

  /** The claims a signed refresh token carries. */
  datatype Claims = Claims(jti: Jti, user: UserId, exp: Time)

  /** A session-bound request. `digest` is `session_token_digest(token)`; nothing
      below depends on how it is computed, only that "" means "no digest". */
  datatype Request = Request(djKey: string, token: string, digest: string)

  /** `signed` is not a table: it records the claims of every token this server has
      ever signed, so that "the signature verifies" can be said. */
  datatype Tables = Tables(
    metas: map<nat, Meta>,
    mappings: map<nat, Mapping>,
    outstanding: map<nat, Outstanding>,
    blacklist: set<nat>,
    userSessions: set<(UserId, string)>,
    djSessions: set<string>,
    nextPk: nat,
    signed: map<Jti, Claims>)

  const LAST_SEEN_THROTTLE: Time := 15

  // ---------------------------------------------------------------- queries

  function MetasByKey(t: Tables, user: UserId, key: string): set<nat> {
    set p | p in t.metas && t.metas[p].user == user && t.metas[p].key == key
  }

  function MetasByDigest(t: Tables, user: UserId, digest: string): set<nat> {
    set p | p in t.metas && t.metas[p].user == user && t.metas[p].digest == digest
  }

  function MetaByKey(t: Tables, user: UserId, key: string): Option<nat> {
    First(MetasByKey(t, user, key))
  }

  function MetaByDigest(t: Tables, user: UserId, digest: string): Option<nat> {
    if digest == "" then None else First(MetasByDigest(t, user, digest))
  }

  /** Token digest first, Django session key second. */
  function ResolveMeta(t: Tables, user: UserId, req: Request): Option<nat> {
    var byDigest := MetaByDigest(t, user, req.digest);
    if byDigest.Some? then byDigest
    else if req.djKey != "" then MetaByKey(t, user, req.djKey)
    else None
  }

  predicate Revoked(t: Tables, meta: Option<nat>)
    requires meta.Some? ==> meta.value in t.metas
  {
    meta.Some? && t.metas[meta.value].revokedAt.Some?
  }

  function DigestHolders(t: Tables, digest: string): set<nat> {
    set p | p in t.metas && t.metas[p].digest == digest
  }

  function KeyHolders(t: Tables, key: string): set<nat> {
    set p | p in t.metas && t.metas[p].key == key
  }

  /** `assert_session_allowed`: unlike every other lookup this one ignores the user. */
  predicate Allowed(t: Tables, req: Request) {
    && !(req.digest != "" && Revoked(t, First(DigestHolders(t, req.digest))))
    && !(req.djKey != "" && Revoked(t, First(KeyHolders(t, req.djKey))))
  }

  /** `RevocableSessionTokenStrategy.lookup_session`: a token that names a revoked
      session, by key or by digest, authenticates nobody. */
  predicate Authenticates(t: Tables, req: Request) {
    && req.token != ""
    && !exists p :: p in t.metas && t.metas[p].revokedAt.Some?
         && (t.metas[p].key == req.token || (req.digest != "" && t.metas[p].digest == req.digest))
  }

  /** Authentication and guard of the session endpoints; None lets the request through. */
  function Guard(t: Tables, req: Request): Option<string> {
    if !Authenticates(t, req) then Some("Unauthorized")
    else if !Allowed(t, req) then Some("session revoked")
    else None
  }

  predicate LiveRow(m: Mapping, user: UserId, key: string) {
    m.user == user && m.key == key && m.revokedAt.None?
  }

  function LiveRows(t: Tables, user: UserId, key: string): set<nat> {
    set p | p in t.mappings && LiveRow(t.mappings[p], user, key)
  }

  predicate Blacklisted(t: Tables, jti: Jti) {
    exists p :: p in t.blacklist && p in t.outstanding && t.outstanding[p].jti == jti
  }

  predicate IsOutstanding(t: Tables, jti: Jti) {
    exists p :: p in t.outstanding && t.outstanding[p].jti == jti
  }

  /** Signature, expiry and blacklist: the checks `RefreshToken(...)` makes. */
  predicate Verifies(t: Tables, now: Time, c: Claims) {
    && c.jti in t.signed && t.signed[c.jti] == c
    && now < c.exp
    && !Blacklisted(t, c.jti)
  }

  function LiveRowsWith(t: Tables, user: UserId, jti: Jti): set<nat> {
    set p | p in t.mappings && t.mappings[p].user == user && t.mappings[p].jti == jti
            && t.mappings[p].revokedAt.None?
  }

  function MappingFor(t: Tables, user: UserId, jti: Jti): Option<nat> {
    First(LiveRowsWith(t, user, jti))
  }

  // ---------------------------------------------------------------- row writes

  function Sign(t: Tables, c: Claims): Tables
    requires c.jti !in t.signed
  {
    t.(outstanding := t.outstanding[t.nextPk := Outstanding(c.user, c.jti, c.exp)],
       signed := t.signed[c.jti := c],
       nextPk := t.nextPk + 1)
  }

  /** Blacklist the outstanding token with this jti, if there still is one. */
  function BlacklistJti(t: Tables, jti: Jti): Tables {
    t.(blacklist := t.blacklist + set p | p in t.outstanding && t.outstanding[p].jti == jti)
  }

  function BlacklistUserJti(t: Tables, user: UserId, jti: Jti): Tables {
    t.(blacklist := t.blacklist +
         set p | p in t.outstanding && t.outstanding[p].jti == jti && t.outstanding[p].user == user)
  }

  /** `mapping.save(update_fields=["revoked_at"])`. */
  function StampRevoked(t: Tables, p: nat, at: Time): Tables
    requires p in t.mappings
  {
    t.(mappings := t.mappings[p := t.mappings[p].(revokedAt := Some(at))])
  }

  /** The given rows are stamped and the tokens they carry blacklisted. */
  function RevokeSome(t: Tables, user: UserId, rows: set<nat>, at: Time): Tables {
    t.(mappings := map p | p in t.mappings ::
         if p in rows then t.mappings[p].(revokedAt := Some(at)) else t.mappings[p],
       blacklist := t.blacklist +
         set q | q in t.outstanding && t.outstanding[q].user == user
                 && exists p :: p in rows && p in t.mappings && t.mappings[p].jti == t.outstanding[q].jti)
  }

  function RevokeRows(t: Tables, user: UserId, key: string, at: Time): Tables {
    RevokeSome(t, user, LiveRows(t, user, key), at)
  }

  function EnsureMeta(t: Tables, now: Time, user: UserId, key: string, digest: string): (r: (Tables, nat))
    ensures r.1 in r.0.metas
  {
    var found := MetaByKey(t, user, key);
    if found.Some? then (t, found.value)
    else (t.(metas := t.metas[t.nextPk := Meta(user, key, digest, now, None, None, "")],
             nextPk := t.nextPk + 1), t.nextPk)
  }

  // ---------------------------------------------------------------- requests

  /** `SessionService.touch`. */
  function Touch(t: Tables, now: Time, user: UserId, req: Request): Tables {
    if req.token == "" && req.djKey == "" then t
    else
      var key := if req.djKey != "" then req.djKey else req.token;
      var (t1, p) := EnsureMeta(t, now, user, key, req.digest);
      var m := t1.metas[p];
      var stale := m.lastSeen.None? || now - m.lastSeen.value >= LAST_SEEN_THROTTLE;
      t1.(metas := t1.metas[p := m.(
            digest := if m.digest == "" then req.digest else m.digest,
            lastSeen := if stale then Some(now) else m.lastSeen)],
          userSessions := if req.djKey != "" then t1.userSessions + {(user, req.djKey)} else t1.userSessions)
  }

  /** Fill in a session meta's digest and move it to the current Django session key. */
  function AdoptMeta(t: Tables, p: nat, req: Request): (r: (Tables, Outcome<nat>))
    requires p in t.metas
    ensures !r.1.Ok? ==> r.0 == t
    ensures r.1.Ok? ==> r.1.value == p && p in r.0.metas
  {
    var m := t.metas[p];
    var rename := req.djKey != "" && m.key != req.djKey;
    if rename && MetaByKey(t, m.user, req.djKey).Some? then (t, IntegrityError)
    else
      (t.(metas := t.metas[p := m.(
         digest := if m.digest == "" then req.digest else m.digest,
         key := if rename then req.djKey else m.key)]), Ok(p))
  }

  /** The first half of `issue_pair_for_session`: the session meta a new pair binds to. */
  function BindMeta(t: Tables, now: Time, user: UserId, req: Request): (r: (Tables, Outcome<nat>))
    ensures !r.1.Ok? ==> r.0 == t
    ensures r.1.Ok? ==> r.1.value in r.0.metas
  {
    var found := ResolveMeta(t, user, req);
    var fallback := if req.djKey != "" then req.djKey else req.token;
    if found.Some? then AdoptMeta(t, found.value, req)
    else if fallback == "" then (t, HttpError(401, "session binding missing"))
    else if MetaByKey(t, user, fallback).Some? then (t, IntegrityError)
    else
      var (t1, p) := EnsureMeta(t, now, user, fallback, req.digest);
      AdoptMeta(t1, p, req)
  }

  /** Sign a token and map it to the session. */
  function MintFor(t: Tables, key: string, c: Claims): Tables
    requires c.jti !in t.signed
  {
    var t1 := Sign(t, c);
    t1.(mappings := t1.mappings[t1.nextPk := Mapping(c.user, key, c.jti, Some(c.exp), None)],
        nextPk := t1.nextPk + 1)
  }

  /** `AuthService.issue_pair_for_session`. */
  function IssuePair(t: Tables, now: Time, user: UserId, req: Request, c: Claims): (r: (Tables, Outcome<Jti>))
    requires c.jti !in t.signed && c.user == user
    ensures !r.1.Ok? ==> r.0 == t
  {
    var (t1, bound) := BindMeta(t, now, user, req);
    match bound
    case Ok(p) => (MintFor(t1, t1.metas[p].key, c), Ok(c.jti))
    case HttpError(status, detail) => (t, HttpError(status, detail))
    case IntegrityError => (t, IntegrityError)
  }

  /** The writes of a successful refresh: a new token on record, the old one blacklisted,
      and the session's row moved from the old to the new. */
  function MoveRow(t: Tables, row: nat, oldJti: Jti, minted: Claims): Tables
    requires minted.jti !in t.signed && row in t.mappings
  {
    var t1 := BlacklistJti(Sign(t, minted), oldJti);
    t1.(mappings := t1.mappings[row :=
          t1.mappings[row].(jti := minted.jti, expiresAt := Some(minted.exp))])
  }

  /** The part of `refresh_pair` that runs under row locks: from the mapping lock to
      the commit. `c` are the claims that passed verification, `minted` the new token's. */
  function Rotate(t: Tables, active: set<UserId>, req: Request, c: Claims, minted: Claims): (r: (Tables, Outcome<nat>))
    requires minted.jti !in t.signed && minted.user == c.user
    ensures !r.1.Ok? ==> r.0 == t
    ensures r.1.Ok? ==> r.1.value in t.mappings
  {
    if c.user !in active then (t, HttpError(401, "invalid user"))
    else
      var row := MappingFor(t, c.user, c.jti);
      if row.None? then (t, HttpError(401, "invalid refresh"))
      else if req.token == "" then (t, HttpError(401, "session token required for refresh"))
      else
        var mapping := t.mappings[row.value];
        var bound := MetaByDigest(t, c.user, req.digest);
        if bound.None? || t.metas[bound.value].key == "" then (t, HttpError(401, "invalid session token"))
        else if mapping.key != t.metas[bound.value].key then (t, HttpError(401, "invalid refresh"))
        else if Revoked(t, MetaByKey(t, c.user, mapping.key)) then (t, HttpError(401, "invalid refresh"))
        else (MoveRow(t, row.value, c.jti, minted), Ok(row.value))
  }

  /** `refresh_pair` run without interruption. */
  function Refresh(t: Tables, now: Time, active: set<UserId>, req: Request,
                   presented: Option<Claims>, minted: Claims): (r: (Tables, Outcome<nat>))
    requires minted.jti !in t.signed && (presented.Some? ==> minted.user == presented.value.user)
    ensures !r.1.Ok? ==> r.0 == t
    ensures r.1.Ok? ==> r.1.value in t.mappings
  {
    if presented.None? then (t, HttpError(401, "refresh required"))
    else if !Verifies(t, now, presented.value) then (t, HttpError(401, "invalid refresh"))
    else Rotate(t, active, req, presented.value, minted)
  }

  /** The session key a logout acts on; "" when the request names no session. */
  function LogoutKey(t: Tables, user: UserId, req: Request): string {
    if req.djKey != "" then req.djKey
    else
      var meta := ResolveMeta(t, user, req);
      if meta.Some? then t.metas[meta.value].key else ""
  }

  function EndedByLogout(m: Meta, now: Time, digest: string): Meta {
    m.(digest := if m.digest == "" then digest else m.digest,
       revokedAt := if m.revokedAt.None? then Some(now) else m.revokedAt,
       reason := if m.reason == "" then "logout" else m.reason)
  }

  /** Revoke a session's meta, creating it if need be, and its live rows. */
  function LogoutSession(t: Tables, now: Time, user: UserId, key: string, digest: string): Tables {
    var (t1, p) := EnsureMeta(t, now, user, key, digest);
    RevokeRows(t1.(metas := t1.metas[p := EndedByLogout(t1.metas[p], now, digest)]), user, key, now)
  }

  /** `AuthService.logout_current`. */
  function Logout(t: Tables, now: Time, user: UserId, req: Request): Tables {
    var key := LogoutKey(t, user, req);
    var t1 := if key == "" then t else LogoutSession(t, now, user, key, req.digest);
    t1.(djSessions := t1.djSessions - {req.djKey})
  }

  /** `update_or_create(user, session_key, defaults={revoked_at, revoked_reason})`. */
  function MarkRevoked(t: Tables, now: Time, user: UserId, key: string, reason: string): Tables {
    var (t1, p) := EnsureMeta(t, now, user, key, "");
    t1.(metas := t1.metas[p := t1.metas[p].(revokedAt := Some(now), reason := reason)])
  }

  /** `_revoke_session_key`. Each of its three ways to end the Django session removes
      the same row, so they are one set difference here. */
  function RevokeKey(t: Tables, now: Time, user: UserId, key: string, reason: string): Tables {
    var t1 := t.(userSessions := t.userSessions - {(user, key)});
    var t2 := RevokeRows(MarkRevoked(t1, now, user, key, reason), user, key, now);
    t2.(djSessions := t2.djSessions - {key})
  }

  function CurrentKey(t: Tables, user: UserId, req: Request): string {
    if req.djKey != "" then req.djKey
    else
      var meta := MetaByDigest(t, user, req.digest);
      if meta.Some? then t.metas[meta.value].key else ""
  }

  function KnownKeys(t: Tables, user: UserId): set<string> {
    (set s | s in t.userSessions && s.0 == user :: s.1) +
    (set p | p in t.metas && t.metas[p].user == user :: t.metas[p].key)
  }

  /** `_candidate_session_keys`. */
  function Candidates(t: Tables, user: UserId, ids: set<string>, allExceptCurrent: bool, current: string): seq<string> {
    var known := KnownKeys(t, user);
    var chosen := if ids != {} then known * ids
                  else if allExceptCurrent && current != "" then known - {current}
                  else known;
    Sorted(chosen - {""})
  }

  /** A key whose meta is already revoked and that no allauth session backs. */
  predicate Skips(t: Tables, user: UserId, key: string) {
    Revoked(t, MetaByKey(t, user, key)) && (user, key) !in t.userSessions
  }

  datatype Swept = Swept(tables: Tables, revoked: seq<string>, skipped: seq<string>)

  /** The loop of `revoke_bulk`, key by key. */
  function Sweep(t: Tables, now: Time, user: UserId, keys: seq<string>, reason: string): Swept {
    if keys == [] then Swept(t, [], [])
    else
      var s := Sweep(t, now, user, keys[..|keys| - 1], reason);
      var key := keys[|keys| - 1];
      if Skips(s.tables, user, key) then s.(skipped := s.skipped + [key])
      else s.(tables := RevokeKey(s.tables, now, user, key, reason), revoked := s.revoked + [key])
  }

  datatype BulkReport = BulkReport(current: string, revoked: seq<string>, skipped: seq<string>)

  function RevokeBulk(t: Tables, now: Time, user: UserId, req: Request,
                      ids: set<string>, allExceptCurrent: bool, reason: string): (Tables, Outcome<BulkReport>) {
    if Guard(t, req).Some? then (t, HttpError(401, Guard(t, req).value))
    else
      var t1 := Touch(t, now, user, req);
      if ids != {} && allExceptCurrent then (t1, HttpError(400, "Use either ids or all_except_current, not both"))
      else if ids == {} && !allExceptCurrent then (t1, HttpError(400, "Either ids or all_except_current=true is required"))
      else
        var current := CurrentKey(t1, user, req);
        if allExceptCurrent && current == "" then
          (t1, HttpError(409, "current session is not resolvable for bulk revoke"))
        else
          var s := Sweep(t1, now, user, Candidates(t1, user, ids, allExceptCurrent, current), reason);
          (s.tables, Ok(BulkReport(current, s.revoked, s.skipped)))
  }

  function RevokeSingle(t: Tables, now: Time, user: UserId, req: Request,
                        key: string, reason: string): (Tables, Outcome<string>) {
    if Guard(t, req).Some? then (t, HttpError(401, Guard(t, req).value))
    else
      var t1 := Touch(t, now, user, req);
      if (user, key) !in t1.userSessions && MetaByKey(t1, user, key).None? then
        (t1, HttpError(404, "session not found"))
      else (RevokeKey(t1, now, user, key, reason), Ok(key))
  }

  /** `POST /jwt/from_session`: guard, touch, issue; a constraint violation rolls all of it back. */
  function IssueRequest(t: Tables, now: Time, user: UserId, req: Request, c: Claims): (Tables, Outcome<Jti>)
    requires c.jti !in t.signed && c.user == user
  {
    if Guard(t, req).Some? then (t, HttpError(401, Guard(t, req).value))
    else
      var t1 := Touch(t, now, user, req);
      var (t2, r) := IssuePair(t1, now, user, req, c);
      (if r == IntegrityError then t else t2, r)
  }

  /** `POST /logout`. */
  function LogoutRequest(t: Tables, now: Time, user: UserId, req: Request): (Tables, Outcome<()>) {
    if Guard(t, req).Some? then (t, HttpError(401, Guard(t, req).value))
    else (Logout(t, now, user, req), Ok(()))
  }

  /** `change_password` with a request as it stands once the password flow has finished with it;
      `same` and `valid` say what the form found. Any error rolls everything back. */
  function ChangePassword(t: Tables, now: Time, user: UserId, req: Request, same: bool, valid: bool,
                          logoutCurrent: bool): (Tables, Outcome<bool>) {
    if same then (t, HttpError(400, "new password must differ from current"))
    else if !valid then (t, HttpError(400, "invalid form"))
    else
      var (t1, r) := RevokeBulk(t, now, user, req, {}, true, PASSWORD_REASON);
      match r
      case Ok(_) => (if logoutCurrent then Logout(t1, now, user, req) else t1, Ok(logoutCurrent))
      case HttpError(status, detail) => (t, HttpError(status, detail))
      case IntegrityError => (t, IntegrityError)
  }

  const PASSWORD_REASON := "password_changed"

  // ---------------------------------------------------------------- maintenance

  function LastActivity(m: Meta): Time {
    if m.lastSeen.Some? then m.lastSeen.value else m.firstSeen
  }

  /** allauth's `purge()`: drop a session row whose Django session is gone. */
  function PurgeUserSessions(t: Tables): Tables {
    t.(userSessions := set s | s in t.userSessions && s.1 in t.djSessions)
  }

  function PurgeMetas(t: Tables, cutoff: Time): Tables {
    t.(metas := map p | p in t.metas
         && !(t.metas[p].key !in t.djSessions && LastActivity(t.metas[p]) < cutoff)
         && !(t.metas[p].revokedAt.Some? && t.metas[p].revokedAt.value < cutoff) :: t.metas[p])
  }

  function PurgeBlacklist(t: Tables, cutoff: Time): Tables {
    t.(blacklist := set p | p in t.blacklist && !(p in t.outstanding && t.outstanding[p].expiresAt < cutoff))
  }

  function PurgeOutstanding(t: Tables, cutoff: Time): Tables {
    t.(outstanding := map p | p in t.outstanding && t.outstanding[p].expiresAt >= cutoff :: t.outstanding[p])
  }

  function PurgeJwtRecords(t: Tables, cutoff: Time): Tables {
    PurgeOutstanding(PurgeBlacklist(t, cutoff), cutoff)
  }

  predicate Stale(t: Tables, m: Mapping, now: Time, cutoff: Time) {
    || (m.revokedAt.Some? && m.revokedAt.value < cutoff)
    || (m.expiresAt.Some? && m.expiresAt.value < now)
    || (!IsOutstanding(t, m.jti) && !Blacklisted(t, m.jti))
  }

  function PurgeMappings(t: Tables, now: Time, cutoff: Time): Tables {
    t.(mappings := map p | p in t.mappings && !Stale(t, t.mappings[p], now, cutoff) :: t.mappings[p])
  }

  /** The token half of `cleanup_auth_data`, in its fixed order. */
  function PurgeTokens(t: Tables, now: Time, cutoff: Time): Tables {
    PurgeMappings(PurgeJwtRecords(t, cutoff), now, cutoff)
  }

  /** `cleanup_auth_data`. */
  function Cleanup(t: Tables, now: Time, sessionCutoff: Time, tokenCutoff: Time): Tables {
    PurgeTokens(PurgeMetas(PurgeUserSessions(t), sessionCutoff), now, tokenCutoff)
  }

  const CUTOVER_REASON := "cookie_name_cutover"

  /** `invalidate_legacy_auth_sessions --apply`. */
  function InvalidateAll(t: Tables, now: Time): Tables {
    t.(djSessions := {}, userSessions := {},
       metas := map p | p in t.metas ::
         if t.metas[p].revokedAt.None?
         then t.metas[p].(revokedAt := Some(now), reason := CUTOVER_REASON) else t.metas[p],
       mappings := map p | p in t.mappings ::
         if t.mappings[p].revokedAt.None? then t.mappings[p].(revokedAt := Some(now)) else t.mappings[p],
       blacklist := t.blacklist + t.outstanding.Keys)
  }
}
