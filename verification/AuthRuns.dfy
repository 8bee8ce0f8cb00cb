/** Runs of whole requests, each one database transaction (`ATOMIC_REQUESTS`), and of
    maintenance commands: the table invariant over every run, and when a refresh succeeds. */
module AuthRuns {
  import opened Prelude
  import opened AuthTables
  import opened AuthInvariant

  datatype State = State(t: Tables, now: Time)

  datatype Op =
    | Tick(elapsed: nat)
    | Issue(user: UserId, req: Request, minted: Claims)
    | RefreshPair(active: set<UserId>, req: Request, presented: Option<Claims>, minted: Claims)
    | LogoutCurrent(user: UserId, req: Request)
    | RevokeOne(user: UserId, req: Request, key: string, reason: string)
    | RevokeMany(user: UserId, req: Request, ids: set<string>, allExceptCurrent: bool, reason: string)
    | CleanupData(sessionRetention: int, tokenRetention: int)
    | InvalidateLegacy

  datatype Reply =
    | Done
    | Issued(issued: Outcome<Jti>)
    | Refreshed(row: Outcome<nat>)
    | LoggedOut(out: Outcome<()>)
    | RevokedOne(key: Outcome<string>)
    | RevokedMany(report: Outcome<BulkReport>)

  /** New jtis are fresh, session keys belong to one user, and retention is not negative. */
  ghost predicate Admissible(t: Tables, op: Op) {
    match op
    case Issue(user, req, minted) => minted.jti !in t.signed && minted.user == user && OwnedBy(t, req, user)
    case RefreshPair(_, _, presented, minted) =>
      minted.jti !in t.signed && (presented.Some? ==> minted.user == presented.value.user)
    case CleanupData(_, tokenRetention) => 0 <= tokenRetention
    case _ => true
  }

  function Apply(s: State, op: Op): (State, Reply)
    requires Admissible(s.t, op)
  {
    match op
    case Tick(elapsed) => (s.(now := s.now + elapsed), Done)
    case Issue(user, req, minted) =>
      var (t1, r) := IssueRequest(s.t, s.now, user, req, minted);
      (s.(t := t1), Issued(r))
    case RefreshPair(active, req, presented, minted) =>
      var (t1, r) := Refresh(s.t, s.now, active, req, presented, minted);
      (s.(t := t1), Refreshed(r))
    case LogoutCurrent(user, req) =>
      var (t1, r) := LogoutRequest(s.t, s.now, user, req);
      (s.(t := t1), LoggedOut(r))
    case RevokeOne(user, req, key, reason) =>
      var (t1, r) := RevokeSingle(s.t, s.now, user, req, key, reason);
      (s.(t := t1), RevokedOne(r))
    case RevokeMany(user, req, ids, all, reason) =>
      var (t1, r) := RevokeBulk(s.t, s.now, user, req, ids, all, reason);
      (s.(t := t1), RevokedMany(r))
    case CleanupData(sessionRetention, tokenRetention) =>
      (s.(t := Cleanup(s.t, s.now, s.now - sessionRetention, s.now - tokenRetention)), Done)
    case InvalidateLegacy => (s.(t := InvalidateAll(s.t, s.now)), Done)
  }

  ghost predicate AdmissibleRun(s: State, ops: seq<Op>)
    decreases |ops|
  {
    ops == [] || (Admissible(s.t, ops[0]) && AdmissibleRun(Apply(s, ops[0]).0, ops[1..]))
  }

  ghost function Replies(s: State, ops: seq<Op>): seq<Reply>
    requires AdmissibleRun(s, ops)
    decreases |ops|
  {
    if ops == [] then []
    else var (s1, r) := Apply(s, ops[0]); [r] + Replies(s1, ops[1..])
  }

  ghost function After(s: State, ops: seq<Op>): State
    requires AdmissibleRun(s, ops)
    decreases |ops|
  {
    if ops == [] then s else After(Apply(s, ops[0]).0, ops[1..])
  }

  // ---------------------------------------------------------------- the invariant over runs

  lemma IssueRequestKeeps(t: Tables, now: Time, user: UserId, req: Request, c: Claims)
    requires Consistent(t, now) && c.jti !in t.signed && c.user == user && OwnedBy(t, req, user)
    ensures Consistent(IssueRequest(t, now, user, req, c).0, now)
  {
    hide Guard, Touch, BindMeta, MintFor;
    if Guard(t, req).None? {
      TouchKeeps(t, now, user, req);
      TouchResolvesLive(t, now, user, req);
      var t1 := Touch(t, now, user, req);
      BindMetaKeeps(t1, now, user, req);
      var (t2, bound) := BindMeta(t1, now, user, req);
      if bound.Ok? { MintForKeeps(t2, now, t2.metas[bound.value].key, c); }
    }
  }

  /** The request's token digest names this session of the user. */
  predicate NamesSession(t: Tables, user: UserId, req: Request, key: string) {
    key != "" && req.token != "" &&
    var meta := MetaByDigest(t, user, req.digest);
    meta.Some? && t.metas[meta.value].key == key
  }

  /** When a refresh succeeds, exactly: the token is one this server signed, unexpired, of an active
      user, its row is live, and the request names the row's session. The blacklist and the
      session's revocation never decide: the invariant has settled them. */
  lemma RefreshExactly(t: Tables, now: Time, active: set<UserId>, req: Request, c: Claims, minted: Claims)
    requires Consistent(t, now) && minted.jti !in t.signed && minted.user == c.user
    ensures Refresh(t, now, active, req, Some(c), minted).1.Ok? <==>
              && c.jti in t.signed && t.signed[c.jti] == c && now < c.exp && c.user in active
              && var row := MappingFor(t, c.user, c.jti);
                 row.Some? && NamesSession(t, c.user, req, t.mappings[row.value].key)
  {
    hide MoveRow, MetaByDigest, JtisUnique;
    var row := MappingFor(t, c.user, c.jti);
    if row.Some? {
      var m := t.mappings[row.value];
      assert Sound(t, now, m);
      var meta := MetaByKey(t, c.user, m.key);
      if meta.Some? { assert meta.value in MetasByKey(t, c.user, m.key); }
    }
  }

  /** A pair that has just been issued can be refreshed by any request that names its session. */
  lemma IssuedPairRefreshes(t: Tables, now: Time, user: UserId, req: Request, c: Claims,
                            later: Time, active: set<UserId>, again: Request, minted: Claims)
    requires Consistent(t, now) && c.jti !in t.signed && c.user == user && OwnedBy(t, req, user)
    requires IssueRequest(t, now, user, req, c).1 == Ok(c.jti) && now <= later < c.exp && user in active
    requires minted.jti !in IssueRequest(t, now, user, req, c).0.signed && minted.user == user
    ensures var t1 := IssueRequest(t, now, user, req, c).0;
            && MappingFor(t1, user, c.jti).Some?
            && (NamesSession(t1, user, again, t1.mappings[MappingFor(t1, user, c.jti).value].key) ==>
                  Refresh(t1, later, active, again, Some(c), minted).1.Ok?)
  {
    var t1 := IssueRequest(t, now, user, req, c).0;
    IssueRequestKeeps(t, now, user, req, c);
    IssuedRowIsLive(t, now, user, req, c);
    hide IssueRequest, Refresh, MappingFor, NamesSession, Consistent;
    LaterIsConsistent(t1, now, later);
    RefreshExactly(t1, later, active, again, c, minted);
  }

  lemma IssuedRowIsLive(t: Tables, now: Time, user: UserId, req: Request, c: Claims)
    requires c.jti !in t.signed && c.user == user && IssueRequest(t, now, user, req, c).1 == Ok(c.jti)
    ensures var t1 := IssueRequest(t, now, user, req, c).0;
            c.jti in t1.signed && t1.signed[c.jti] == c && MappingFor(t1, user, c.jti).Some?
  {
    hide Touch, BindMeta, Guard;
    var t1 := IssueRequest(t, now, user, req, c).0;
    var (t2, bound) := BindMeta(Touch(t, now, user, req), now, user, req);
    var row := t2.nextPk + 1;
    assert row in t1.mappings && row in LiveRowsWith(t1, user, c.jti);
  }

  lemma RevokeSingleKeeps(t: Tables, now: Time, user: UserId, req: Request, key: string, reason: string)
    requires Consistent(t, now)
    ensures Consistent(RevokeSingle(t, now, user, req, key, reason).0, now)
  {
    TouchKeeps(t, now, user, req);
    RevokeKeyKeeps(Touch(t, now, user, req), now, user, key, reason);
  }

  lemma RevokeBulkKeeps(t: Tables, now: Time, user: UserId, req: Request, ids: set<string>, all: bool, reason: string)
    requires Consistent(t, now)
    ensures Consistent(RevokeBulk(t, now, user, req, ids, all, reason).0, now)
  {
    TouchKeeps(t, now, user, req);
    var t1 := Touch(t, now, user, req);
    SweepKeeps(t1, now, user, Candidates(t1, user, ids, all, CurrentKey(t1, user, req)), reason);
  }

  lemma RefreshKeeps(t: Tables, now: Time, active: set<UserId>, req: Request,
                     presented: Option<Claims>, minted: Claims)
    requires Consistent(t, now) && minted.jti !in t.signed && (presented.Some? ==> minted.user == presented.value.user)
    ensures Consistent(Refresh(t, now, active, req, presented, minted).0, now)
  {
    if presented.Some? { RotateKeeps(t, now, active, req, presented.value, minted); }
  }

  lemma MaintenanceKeeps(s: State, op: Op)
    requires Consistent(s.t, s.now) && Admissible(s.t, op)
    requires op.CleanupData? || op.InvalidateLegacy?
    ensures Consistent(Apply(s, op).0.t, s.now)
  {
    hide Consistent, Cleanup, InvalidateAll;
    if op.CleanupData? {
      CleanupKeeps(s.t, s.now, s.now - op.sessionRetention, s.now - op.tokenRetention);
    } else {
      InvalidateKeeps(s.t, s.now);
    }
  }

  lemma ApplyKeeps(s: State, op: Op)
    requires Consistent(s.t, s.now) && Admissible(s.t, op)
    ensures Consistent(Apply(s, op).0.t, Apply(s, op).0.now)
  {
    match op
    case Tick(elapsed) => LaterIsConsistent(s.t, s.now, s.now + elapsed);
    case Issue(user, req, minted) => IssueRequestKeeps(s.t, s.now, user, req, minted);
    case RefreshPair(active, req, presented, minted) =>
      RefreshKeeps(s.t, s.now, active, req, presented, minted);
    case LogoutCurrent(user, req) => LogoutKeeps(s.t, s.now, user, req);
    case RevokeOne(user, req, key, reason) => RevokeSingleKeeps(s.t, s.now, user, req, key, reason);
    case RevokeMany(user, req, ids, all, reason) => RevokeBulkKeeps(s.t, s.now, user, req, ids, all, reason);
    case _ => MaintenanceKeeps(s, op);
  }

  /** In every reachable state, a mapping that is not revoked holds a token that is on
      record unless expired and not blacklisted, in a session that is not revoked. */
  lemma {:induction false} EveryRunIsConsistent(s: State, ops: seq<Op>)
    requires Consistent(s.t, s.now) && AdmissibleRun(s, ops)
    ensures var s1 := After(s, ops); Consistent(s1.t, s1.now)
    decreases |ops|
  {
    if ops != [] {
      ApplyKeeps(s, ops[0]);
      EveryRunIsConsistent(Apply(s, ops[0]).0, ops[1..]);
    }
  }
}
