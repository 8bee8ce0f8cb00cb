/** Purging expired token records is unobservable: two stores that differ only in dead
    rows answer every later request alike, and stay that way. */
module AuthPurge {
  import opened Prelude
  import opened AuthTables
  import opened AuthInvariant
  import opened AuthRuns

  /** A mapping row no refresh can use any more. */
  ghost predicate Dead(t: Tables, m: Mapping, now: Time) {
    m.revokedAt.Some? || (m.jti in t.signed && t.signed[m.jti].exp <= now)
  }

  /** b is a with some dead mappings and some records of expired tokens removed. */
  ghost predicate Purged(a: Tables, b: Tables, now: Time) {
    && b == a.(mappings := b.mappings, outstanding := b.outstanding, blacklist := b.blacklist)
    && (forall p | p in b.mappings :: p in a.mappings && b.mappings[p] == a.mappings[p])
    && (forall p | p in a.mappings && p !in b.mappings :: Dead(a, a.mappings[p], now))
    && (forall p | p in b.outstanding :: p in a.outstanding && b.outstanding[p] == a.outstanding[p])
    && (forall p | p in a.outstanding && p !in b.outstanding :: a.outstanding[p].expiresAt <= now)
    && (forall p | p in b.outstanding && b.outstanding[p].expiresAt > now ::
          p in a.blacklist <==> p in b.blacklist)
  }

  /** The purge itself removes nothing else: a mapping it drops was revoked, or its token
      had expired, or the invariant says so because the token is off the record. */
  lemma PurgeDropsOnlyDead(t: Tables, now: Time, cutoff: Time)
    requires Consistent(t, now) && cutoff <= now + 1
    ensures Purged(t, PurgeTokens(t, now, cutoff), now)
  {
    var t1 := PurgeJwtRecords(t, cutoff);
    forall p | p in t.mappings && Stale(t1, t.mappings[p], now, cutoff) ensures Dead(t, t.mappings[p], now) {
      var m := t.mappings[p];
      if m.revokedAt.None? {
        assert Sound(t, now, m);
        if !IsOutstanding(t1, m.jti) && IsOutstanding(t, m.jti) {
          var q :| q in t.outstanding && t.outstanding[q].jti == m.jti;
          assert q !in t1.outstanding;
        }
      }
    }
  }

  /** Verification sees no difference: it only ever depends on unexpired tokens. */
  lemma SameVerification(a: Tables, b: Tables, now: Time, c: Claims)
    requires Consistent(a, now) && Consistent(b, now) && Purged(a, b, now)
    ensures Verifies(a, now, c) == Verifies(b, now, c)
  {
    hide Sound;
    if c.jti in a.signed && a.signed[c.jti] == c && now < c.exp {
      forall p | p in a.outstanding && a.outstanding[p].jti == c.jti
        ensures p in a.blacklist <==> p in b.blacklist
        ensures p in b.outstanding
      {
        assert a.outstanding[p].expiresAt == c.exp;
      }
    }
  }

  lemma SameMapping(a: Tables, b: Tables, now: Time, c: Claims)
    requires Purged(a, b, now) && Verifies(a, now, c)
    ensures MappingFor(a, c.user, c.jti) == MappingFor(b, c.user, c.jti)
  {
    forall p | p in a.mappings && a.mappings[p].jti == c.jti && a.mappings[p].revokedAt.None? ensures p in b.mappings {
      assert !Dead(a, a.mappings[p], now);
    }
    assert LiveRowsWith(a, c.user, c.jti) == LiveRowsWith(b, c.user, c.jti);
  }

  /** Meta lookups read a table the purge never touches. */
  lemma SameMetas(a: Tables, b: Tables, user: UserId, key: string, digest: string)
    requires a.metas == b.metas
    ensures MetaByKey(a, user, key) == MetaByKey(b, user, key)
    ensures MetaByDigest(a, user, digest) == MetaByDigest(b, user, digest)
  {
    assert MetasByKey(a, user, key) == MetasByKey(b, user, key);
    assert MetasByDigest(a, user, digest) == MetasByDigest(b, user, digest);
  }

  lemma MoveRowAlike(a: Tables, b: Tables, now: Time, row: nat, jti: Jti, minted: Claims)
    requires Purged(a, b, now) && KeysOk(a) && KeysOk(b)
    requires minted.jti !in a.signed && row in b.mappings
    ensures Purged(MoveRow(a, row, jti, minted), MoveRow(b, row, jti, minted), now)
  {
  }

  lemma RotateAlike(a: Tables, b: Tables, now: Time, active: set<UserId>, req: Request, c: Claims, minted: Claims)
    requires Purged(a, b, now) && Verifies(a, now, c) && KeysOk(a) && KeysOk(b)
    requires minted.jti !in a.signed && minted.user == c.user
    ensures Rotate(a, active, req, c, minted).1 == Rotate(b, active, req, c, minted).1
    ensures Purged(Rotate(a, active, req, c, minted).0, Rotate(b, active, req, c, minted).0, now)
  {
    hide MetaByKey, MetaByDigest, MoveRow;
    SameMapping(a, b, now, c);
    var row := MappingFor(a, c.user, c.jti);
    if row.Some? {
      SameMetas(a, b, c.user, a.mappings[row.value].key, req.digest);
      MoveRowAlike(a, b, now, row.value, c.jti, minted);
    }
  }

  lemma EnsureMetaAlike(a: Tables, b: Tables, now: Time, user: UserId, key: string, digest: string)
    requires Purged(a, b, now)
    ensures var (a1, p) := EnsureMeta(a, now, user, key, digest);
            var (b1, q) := EnsureMeta(b, now, user, key, digest);
            p == q && Purged(a1, b1, now)
  {
    SameMetas(a, b, user, key, digest);
  }

  lemma TouchAlike(a: Tables, b: Tables, now: Time, user: UserId, req: Request)
    requires Purged(a, b, now)
    ensures Purged(Touch(a, now, user, req), Touch(b, now, user, req), now)
  {
    EnsureMetaAlike(a, b, now, user, if req.djKey != "" then req.djKey else req.token, req.digest);
  }

  lemma GuardAlike(a: Tables, b: Tables, req: Request)
    requires a.metas == b.metas
    ensures Guard(a, req) == Guard(b, req)
  {
    assert Authenticates(a, req) == Authenticates(b, req);
    assert DigestHolders(a, req.digest) == DigestHolders(b, req.digest);
    assert KeyHolders(a, req.djKey) == KeyHolders(b, req.djKey);
  }

  lemma AdoptMetaAlike(a: Tables, b: Tables, now: Time, p: nat, req: Request)
    requires Purged(a, b, now) && p in a.metas
    ensures AdoptMeta(a, p, req).1 == AdoptMeta(b, p, req).1
    ensures Purged(AdoptMeta(a, p, req).0, AdoptMeta(b, p, req).0, now)
  {
    hide MetaByKey;
    SameMetas(a, b, a.metas[p].user, req.djKey, req.digest);
  }

  lemma BindMetaAlike(a: Tables, b: Tables, now: Time, user: UserId, req: Request)
    requires Purged(a, b, now)
    ensures BindMeta(a, now, user, req).1 == BindMeta(b, now, user, req).1
    ensures Purged(BindMeta(a, now, user, req).0, BindMeta(b, now, user, req).0, now)
  {
    hide Purged;
    var fallback := if req.djKey != "" then req.djKey else req.token;
    assert a.metas == b.metas by { PurgedSharesTables(a, b, now); }
    SameMetas(a, b, user, req.djKey, req.digest);
    SameMetas(a, b, user, fallback, req.digest);
    EnsureMetaAlike(a, b, now, user, fallback, req.digest);
    var found := ResolveMeta(a, user, req);
    if found.Some? {
      AdoptMetaAlike(a, b, now, found.value, req);
    } else {
      var (a1, p) := EnsureMeta(a, now, user, fallback, req.digest);
      var (b1, q) := EnsureMeta(b, now, user, fallback, req.digest);
      AdoptMetaAlike(a1, b1, now, p, req);
    }
  }

  lemma PurgedSharesTables(a: Tables, b: Tables, now: Time)
    requires Purged(a, b, now)
    ensures a.metas == b.metas && a.signed == b.signed && a.userSessions == b.userSessions
    ensures a.djSessions == b.djSessions && a.nextPk == b.nextPk
  {
  }

  lemma MintForAlike(a: Tables, b: Tables, now: Time, key: string, c: Claims)
    requires Purged(a, b, now) && c.jti !in a.signed && KeysOk(a) && KeysOk(b)
    ensures Purged(MintFor(a, key, c), MintFor(b, key, c), now)
  {
  }

  lemma IssueRequestAlike(a: Tables, b: Tables, now: Time, user: UserId, req: Request, c: Claims)
    requires Consistent(a, now) && Consistent(b, now) && Purged(a, b, now)
    requires c.jti !in a.signed && c.user == user && OwnedBy(a, req, user)
    ensures IssueRequest(a, now, user, req, c).1 == IssueRequest(b, now, user, req, c).1
    ensures Purged(IssueRequest(a, now, user, req, c).0, IssueRequest(b, now, user, req, c).0, now)
  {
    hide Consistent, Purged, Guard, Touch, BindMeta, MintFor;
    PurgedSharesTables(a, b, now);
    GuardAlike(a, b, req);
    if Guard(a, req).None? {
      TouchAlike(a, b, now, user, req);
      TouchKeeps(a, now, user, req);
      TouchKeeps(b, now, user, req);
      TouchResolvesLive(a, now, user, req);
      TouchResolvesLive(b, now, user, req);
      var (a1, b1) := (Touch(a, now, user, req), Touch(b, now, user, req));
      BindMetaAlike(a1, b1, now, user, req);
      BindMetaKeeps(a1, now, user, req);
      BindMetaKeeps(b1, now, user, req);
      var (a2, bound) := BindMeta(a1, now, user, req);
      var b2 := BindMeta(b1, now, user, req).0;
      PurgedSharesTables(a2, b2, now);
      if bound.Ok? {
        assert KeysOk(a2) && KeysOk(b2) by { ConsistentKeys(a2, now); ConsistentKeys(b2, now); }
        MintForAlike(a2, b2, now, a2.metas[bound.value].key, c);
      }
    }
  }

  lemma ConsistentKeys(t: Tables, now: Time)
    requires Consistent(t, now)
    ensures KeysOk(t)
  {
  }

  /** Revocation stamps the rows both stores still have; whatever the purge took was
      expired, so blacklisting its token or not makes no difference. */
  lemma RevokeRowsAlike(a: Tables, b: Tables, now: Time, user: UserId, key: string, at: Time)
    requires Schema(a) && Schema(b) && Purged(a, b, now)
    ensures Purged(RevokeRows(a, user, key, at), RevokeRows(b, user, key, at), now)
  {
    var a1 := RevokeRows(a, user, key, at);
    var b1 := RevokeRows(b, user, key, at);
    forall q | q in b1.outstanding && b1.outstanding[q].expiresAt > now
      ensures q in a1.blacklist <==> q in b1.blacklist
    {
      var o := b.outstanding[q];
      forall p | p in LiveRows(a, user, key) && a.mappings[p].jti == o.jti ensures p in LiveRows(b, user, key) {
        assert !Dead(a, a.mappings[p], now);
      }
    }
  }

  lemma RevokeKeyAlike(a: Tables, b: Tables, now: Time, user: UserId, key: string, reason: string)
    requires Consistent(a, now) && Consistent(b, now) && Purged(a, b, now)
    ensures Purged(RevokeKey(a, now, user, key, reason), RevokeKey(b, now, user, key, reason), now)
  {
    hide Consistent, EnsureMeta, RevokeRows;
    var (a1, b1) := (a.(userSessions := a.userSessions - {(user, key)}), b.(userSessions := b.userSessions - {(user, key)}));
    assert Consistent(a1, now) && Consistent(b1, now) by { SessionsDoNotMatter(a, a1, now); SessionsDoNotMatter(b, b1, now); }
    EnsureMetaAlike(a1, b1, now, user, key, "");
    MarkRevokedKeeps(a1, now, user, key, reason);
    MarkRevokedKeeps(b1, now, user, key, reason);
    RevokeRowsAlike(MarkRevoked(a1, now, user, key, reason), MarkRevoked(b1, now, user, key, reason), now, user, key, now);
  }

  lemma SameMetaWriteAlike(a: Tables, b: Tables, now: Time, p: nat, m: Meta)
    requires Purged(a, b, now)
    ensures Purged(a.(metas := a.metas[p := m]), b.(metas := b.metas[p := m]), now)
  {
  }

  lemma LogoutSessionAlike(a: Tables, b: Tables, now: Time, user: UserId, key: string, digest: string)
    requires Consistent(a, now) && Consistent(b, now) && Purged(a, b, now)
    ensures Purged(LogoutSession(a, now, user, key, digest), LogoutSession(b, now, user, key, digest), now)
  {
    hide Consistent, EnsureMeta, RevokeRows, Purged;
    EnsureMetaAlike(a, b, now, user, key, digest);
    EnsureMetaKeeps(a, now, user, key, digest);
    EnsureMetaKeeps(b, now, user, key, digest);
    var (a1, p) := EnsureMeta(a, now, user, key, digest);
    var b1 := EnsureMeta(b, now, user, key, digest).0;
    PurgedMetas(a1, b1, now);
    var m := EndedByLogout(a1.metas[p], now, digest);
    RevokeMetaKeeps(a1, now, p, m);
    RevokeMetaKeeps(b1, now, p, m);
    SameMetaWriteAlike(a1, b1, now, p, m);
    RevokeRowsAlike(a1.(metas := a1.metas[p := m]), b1.(metas := b1.metas[p := m]), now, user, key, now);
  }

  lemma PurgedMetas(a: Tables, b: Tables, now: Time)
    requires Purged(a, b, now)
    ensures a.metas == b.metas
  {
  }

  lemma LogoutAlike(a: Tables, b: Tables, now: Time, user: UserId, req: Request)
    requires Consistent(a, now) && Consistent(b, now) && Purged(a, b, now)
    ensures Purged(Logout(a, now, user, req), Logout(b, now, user, req), now)
  {
    hide Consistent, LogoutSession, MetaByKey, MetaByDigest;
    SameMetas(a, b, user, req.djKey, req.digest);
    var key := LogoutKey(a, user, req);
    if key != "" { LogoutSessionAlike(a, b, now, user, key, req.digest); }
  }

  lemma {:induction false} SweepAlike(a: Tables, b: Tables, now: Time, user: UserId, keys: seq<string>, reason: string)
    requires Consistent(a, now) && Consistent(b, now) && Purged(a, b, now)
    ensures var (sa, sb) := (Sweep(a, now, user, keys, reason), Sweep(b, now, user, keys, reason));
            sa.revoked == sb.revoked && sa.skipped == sb.skipped && Purged(sa.tables, sb.tables, now)
  {
    hide Consistent, Purged, RevokeKey, MetaByKey;
    if keys != [] {
      var front := keys[..|keys| - 1];
      var key := keys[|keys| - 1];
      SweepAlike(a, b, now, user, front, reason);
      SweepKeeps(a, now, user, front, reason);
      SweepKeeps(b, now, user, front, reason);
      var (ta, tb) := (Sweep(a, now, user, front, reason).tables, Sweep(b, now, user, front, reason).tables);
      PurgedSharesTables(ta, tb, now);
      SameMetas(ta, tb, user, key, "");
      RevokeKeyAlike(ta, tb, now, user, key, reason);
    }
  }

  lemma RevokeBulkAlike(a: Tables, b: Tables, now: Time, user: UserId, req: Request,
                        ids: set<string>, all: bool, reason: string)
    requires Consistent(a, now) && Consistent(b, now) && Purged(a, b, now)
    ensures RevokeBulk(a, now, user, req, ids, all, reason).1 == RevokeBulk(b, now, user, req, ids, all, reason).1
    ensures Purged(RevokeBulk(a, now, user, req, ids, all, reason).0, RevokeBulk(b, now, user, req, ids, all, reason).0, now)
  {
    hide Consistent, Purged, Guard, Touch, MetaByDigest, Sweep;
    PurgedSharesTables(a, b, now);
    GuardAlike(a, b, req);
    TouchAlike(a, b, now, user, req);
    TouchKeeps(a, now, user, req);
    TouchKeeps(b, now, user, req);
    var (a1, b1) := (Touch(a, now, user, req), Touch(b, now, user, req));
    PurgedSharesTables(a1, b1, now);
    SameMetas(a1, b1, user, "", req.digest);
    var current := CurrentKey(a1, user, req);
    assert KnownKeys(a1, user) == KnownKeys(b1, user);
    SweepAlike(a1, b1, now, user, Candidates(a1, user, ids, all, current), reason);
  }

  lemma RevokeSingleAlike(a: Tables, b: Tables, now: Time, user: UserId, req: Request, key: string, reason: string)
    requires Consistent(a, now) && Consistent(b, now) && Purged(a, b, now)
    ensures RevokeSingle(a, now, user, req, key, reason).1 == RevokeSingle(b, now, user, req, key, reason).1
    ensures Purged(RevokeSingle(a, now, user, req, key, reason).0, RevokeSingle(b, now, user, req, key, reason).0, now)
  {
    hide Consistent, Purged, Guard, Touch, MetaByKey, RevokeKey;
    PurgedSharesTables(a, b, now);
    GuardAlike(a, b, req);
    TouchAlike(a, b, now, user, req);
    TouchKeeps(a, now, user, req);
    TouchKeeps(b, now, user, req);
    var (a1, b1) := (Touch(a, now, user, req), Touch(b, now, user, req));
    PurgedSharesTables(a1, b1, now);
    SameMetas(a1, b1, user, key, req.digest);
    RevokeKeyAlike(a1, b1, now, user, key, reason);
  }

  // ---------------------------------------------------------------- later maintenance

  lemma PurgeJwtRecordsAlike(a: Tables, b: Tables, now: Time, cutoff: Time)
    requires Purged(a, b, now) && cutoff <= now + 1
    ensures Purged(PurgeJwtRecords(a, cutoff), PurgeJwtRecords(b, cutoff), now)
  {
  }

  lemma PurgeMappingsAlike(a: Tables, b: Tables, now: Time, cutoff: Time)
    requires Purged(a, b, now) && b.blacklist <= b.outstanding.Keys
    requires forall p | p in b.mappings && Stale(b, b.mappings[p], now, cutoff) :: Dead(b, b.mappings[p], now)
    ensures Purged(PurgeMappings(a, now, cutoff), PurgeMappings(b, now, cutoff), now)
  {
    forall p | p in b.mappings && !Stale(b, b.mappings[p], now, cutoff)
      ensures !Stale(a, a.mappings[p], now, cutoff)
    {
      var m := b.mappings[p];
      if IsOutstanding(b, m.jti) {
        var q :| q in b.outstanding && b.outstanding[q].jti == m.jti;
        assert a.outstanding[q].jti == m.jti;
      }
    }
  }

  lemma PurgeTokensAlike(a: Tables, b: Tables, now: Time, cutoff: Time)
    requires Consistent(a, now) && Consistent(b, now) && Purged(a, b, now) && cutoff <= now + 1
    ensures Purged(PurgeTokens(a, now, cutoff), PurgeTokens(b, now, cutoff), now)
  {
    hide Consistent;
    PurgeJwtRecordsAlike(a, b, now, cutoff);
    PurgeDropsOnlyDead(b, now, cutoff);
    PurgeTokensKeeps(b, now, cutoff);
    var b1 := PurgeJwtRecords(b, cutoff);
    ConsistentKeys(b1, now);
    PurgeMappingsAlike(PurgeJwtRecords(a, cutoff), b1, now, cutoff);
  }

  lemma CleanupAlike(a: Tables, b: Tables, now: Time, sessionCutoff: Time, tokenCutoff: Time)
    requires Consistent(a, now) && Consistent(b, now) && Purged(a, b, now) && tokenCutoff <= now + 1
    ensures Purged(Cleanup(a, now, sessionCutoff, tokenCutoff), Cleanup(b, now, sessionCutoff, tokenCutoff), now)
  {
    hide Consistent, PurgeTokens, Purged;
    PurgeSessionsKeeps(a, now, sessionCutoff);
    PurgeSessionsKeeps(b, now, sessionCutoff);
    PurgeSessionsAlike(a, b, now, sessionCutoff);
    PurgeTokensAlike(PurgeMetas(PurgeUserSessions(a), sessionCutoff), PurgeMetas(PurgeUserSessions(b), sessionCutoff),
                     now, tokenCutoff);
  }

  lemma PurgeSessionsAlike(a: Tables, b: Tables, now: Time, cutoff: Time)
    requires Purged(a, b, now)
    ensures Purged(PurgeMetas(PurgeUserSessions(a), cutoff), PurgeMetas(PurgeUserSessions(b), cutoff), now)
  {
  }

  lemma InvalidateAlike(a: Tables, b: Tables, now: Time)
    requires Purged(a, b, now)
    ensures Purged(InvalidateAll(a, now), InvalidateAll(b, now), now)
  {
  }

  // ---------------------------------------------------------------- whole runs

  lemma LaterAlike(a: Tables, b: Tables, now: Time, later: Time)
    requires Purged(a, b, now) && now <= later
    ensures Purged(a, b, later)
  {
  }

  lemma RefreshAlike(a: Tables, b: Tables, now: Time, active: set<UserId>, req: Request,
                     presented: Option<Claims>, minted: Claims)
    requires Consistent(a, now) && Consistent(b, now) && Purged(a, b, now)
    requires minted.jti !in a.signed && (presented.Some? ==> minted.user == presented.value.user)
    ensures Refresh(a, now, active, req, presented, minted).1 == Refresh(b, now, active, req, presented, minted).1
    ensures Purged(Refresh(a, now, active, req, presented, minted).0, Refresh(b, now, active, req, presented, minted).0, now)
  {
    hide Purged, Consistent, Verifies, Rotate;
    PurgedSharesTables(a, b, now);
    if presented.Some? {
      SameVerification(a, b, now, presented.value);
      ConsistentKeys(a, now);
      ConsistentKeys(b, now);
      if Verifies(a, now, presented.value) {
        RotateAlike(a, b, now, active, req, presented.value, minted);
      }
    }
  }

  lemma AdmissibleAlike(a: Tables, b: Tables, now: Time, op: Op)
    requires Purged(a, b, now) && Admissible(a, op)
    ensures Admissible(b, op)
  {
  }

  lemma ApplyAlike(a: State, b: State, op: Op)
    requires Consistent(a.t, a.now) && Consistent(b.t, b.now) && a.now == b.now && Purged(a.t, b.t, a.now)
    requires Admissible(a.t, op) && Admissible(b.t, op)
    ensures Apply(a, op).1 == Apply(b, op).1
    ensures var (a1, b1) := (Apply(a, op).0, Apply(b, op).0); a1.now == b1.now && Purged(a1.t, b1.t, a1.now)
  {
    hide Purged, Consistent, IssueRequest, Refresh, Logout, RevokeSingle, RevokeBulk, Cleanup, InvalidateAll, Guard;
    match op
    case Tick(elapsed) => LaterAlike(a.t, b.t, a.now, a.now + elapsed);
    case Issue(user, req, minted) => IssueRequestAlike(a.t, b.t, a.now, user, req, minted);
    case RefreshPair(active, req, presented, minted) =>
      RefreshAlike(a.t, b.t, a.now, active, req, presented, minted);
    case LogoutCurrent(user, req) =>
      PurgedSharesTables(a.t, b.t, a.now);
      GuardAlike(a.t, b.t, req);
      LogoutAlike(a.t, b.t, a.now, user, req);
    case RevokeOne(user, req, key, reason) => RevokeSingleAlike(a.t, b.t, a.now, user, req, key, reason);
    case RevokeMany(user, req, ids, all, reason) => RevokeBulkAlike(a.t, b.t, a.now, user, req, ids, all, reason);
    case CleanupData(sr, tr) => CleanupAlike(a.t, b.t, a.now, a.now - sr, a.now - tr);
    case InvalidateLegacy => InvalidateAlike(a.t, b.t, a.now);
  }

  lemma {:induction false} RunsAlike(a: State, b: State, ops: seq<Op>)
    requires Consistent(a.t, a.now) && Consistent(b.t, b.now) && a.now == b.now && Purged(a.t, b.t, a.now)
    requires AdmissibleRun(a, ops)
    ensures AdmissibleRun(b, ops) && Replies(a, ops) == Replies(b, ops)
    decreases |ops|
  {
    hide Purged, Consistent, Apply, Admissible;
    if ops != [] {
      AdmissibleAlike(a.t, b.t, a.now, ops[0]);
      ApplyAlike(a, b, ops[0]);
      ApplyKeeps(a, ops[0]);
      ApplyKeeps(b, ops[0]);
      RunsAlike(Apply(a, ops[0]).0, Apply(b, ops[0]).0, ops[1..]);
    }
  }

  /** Purging token records and mappings changes the reply of no later request, over any
      continuation; and every mapping it leaves has its token on record. */
  lemma PurgeIsUnobservable(s: State, cutoff: Time, ops: seq<Op>)
    requires Consistent(s.t, s.now) && cutoff <= s.now + 1 && AdmissibleRun(s, ops)
    ensures var purged := s.(t := PurgeTokens(s.t, s.now, cutoff));
            AdmissibleRun(purged, ops) && Replies(purged, ops) == Replies(s, ops)
    ensures var purged := PurgeTokens(s.t, s.now, cutoff);
            forall p | p in purged.mappings :: IsOutstanding(purged, purged.mappings[p].jti)
  {
    PurgeDropsOnlyDead(s.t, s.now, cutoff);
    PurgeTokensKeeps(s.t, s.now, cutoff);
    RunsAlike(s, s.(t := PurgeTokens(s.t, s.now, cutoff)), ops);
  }

  // ---------------------------------------------------------------- exactly which cutoffs are safe

  /** No refresh at this moment can tell whether the purge has run. */
  ghost predicate PurgeIsSafe(now: Time, cutoff: Time) {
    forall t: Tables, active: set<UserId>, req: Request, c: Claims, minted: Claims ::
      Consistent(t, now) && minted.jti !in t.signed && minted.user == c.user ==>
        Refresh(PurgeTokens(t, now, cutoff), now, active, req, Some(c), minted).1
        == Refresh(t, now, active, req, Some(c), minted).1
  }

  /** One session holding one live token that expires at `exp`. */
  function OneSession(exp: Time): Tables {
    Tables(map[1 := Meta(1, "k", "d", 0, None, None, "")],
           map[3 := Mapping(1, "k", "a", Some(exp), None)],
           map[2 := Outstanding(1, "a", exp)], {}, {}, {}, 4, map["a" := Claims("a", 1, exp)])
  }

  lemma OneSessionRefreshes(now: Time, exp: Time)
    requires now < exp
    ensures Consistent(OneSession(exp), now)
    ensures Refresh(OneSession(exp), now, {1}, Request("", "x", "d"), Some(Claims("a", 1, exp)), Claims("b", 1, exp)).1.Ok?
  {
    var t := OneSession(exp);
    assert t.outstanding[2].jti == "a";
    assert LiveRowsWith(t, 1, "a") == {3};
    assert MetasByDigest(t, 1, "d") == {1};
    assert MetasByKey(t, 1, "k") == {1};
  }

  lemma OneSessionPurgedTooEarly(now: Time, exp: Time, cutoff: Time)
    requires now < exp < cutoff
    ensures !Refresh(PurgeTokens(OneSession(exp), now, cutoff), now, {1}, Request("", "x", "d"),
                     Some(Claims("a", 1, exp)), Claims("b", 1, exp)).1.Ok?
  {
    hide Consistent;
    var t := PurgeTokens(OneSession(exp), now, cutoff);
    assert 3 !in t.mappings;
    assert LiveRowsWith(t, 1, "a") == {};
  }

  /** The purge is safe exactly for a cutoff at most one second ahead: a negative
      retention (`--token-days -1`) makes it drop sessions that could still refresh. */
  lemma PurgeSafeExactly(now: Time, cutoff: Time)
    ensures PurgeIsSafe(now, cutoff) <==> cutoff <= now + 1
  {
    hide Consistent, Refresh, Purged, OneSession;
    if cutoff <= now + 1 {
      forall t: Tables, active: set<UserId>, req: Request, c: Claims, minted: Claims
        | Consistent(t, now) && minted.jti !in t.signed && minted.user == c.user
        ensures Refresh(PurgeTokens(t, now, cutoff), now, active, req, Some(c), minted).1
             == Refresh(t, now, active, req, Some(c), minted).1
      {
        PurgeDropsOnlyDead(t, now, cutoff);
        PurgeTokensKeeps(t, now, cutoff);
        PurgedSharesTables(t, PurgeTokens(t, now, cutoff), now);
        RefreshAlike(t, PurgeTokens(t, now, cutoff), now, active, req, Some(c), minted);
      }
    } else {
      var exp := now + 1;
      OneSessionRefreshes(now, exp);
      OneSessionPurgedTooEarly(now, exp, cutoff);
      assert !PurgeIsSafe(now, cutoff) by {
        var t := OneSession(exp);
        assert "b" !in t.signed by { OneSessionSigned(exp); }
        var req, c, minted := Request("", "x", "d"), Claims("a", 1, exp), Claims("b", 1, exp);
        assert Refresh(PurgeTokens(t, now, cutoff), now, {1}, req, Some(c), minted).1
            != Refresh(t, now, {1}, req, Some(c), minted).1;
      }
    }
  }

  lemma OneSessionSigned(exp: Time)
    ensures OneSession(exp).signed.Keys == {"a"}
  {
  }
}
