/** What each session endpoint and each maintenance command does, written out row by row. */
module AuthOutcomes {
  import opened Prelude
  import opened AuthTables
  import opened AuthInvariant
  import opened AuthRuns
  import opened AuthBulk
  import opened AuthPurge

  // ---------------------------------------------------------------- who gets in

  /** The request names this session: by its token as a key, by its token's digest, or by its Django key. */
  predicate Names(req: Request, m: Meta) {
    m.key == req.token || (req.digest != "" && m.digest == req.digest) || (req.djKey != "" && m.key == req.djKey)
  }

  lemma LoneHolder(t: Tables, user: UserId, req: Request)
    requires MetasUnique(t.metas) && OwnedBy(t, req, user) && req.djKey != ""
    ensures Revoked(t, First(KeyHolders(t, req.djKey))) <==>
              exists p :: p in t.metas && t.metas[p].key == req.djKey && t.metas[p].revokedAt.Some?
  {
    var holders := KeyHolders(t, req.djKey);
    if p :| p in t.metas && t.metas[p].key == req.djKey && t.metas[p].revokedAt.Some? {
      assert p in holders;
      assert First(holders).value in holders;
    }
    if Revoked(t, First(holders)) { assert First(holders).value in holders; }
  }

  /** A request gets past authentication and guard exactly when it has a token and names no revoked session. */
  lemma GuardExactly(t: Tables, user: UserId, req: Request)
    requires MetasUnique(t.metas) && OwnedBy(t, req, user)
    ensures Guard(t, req).None? <==>
              req.token != "" && forall p | p in t.metas && Names(req, t.metas[p]) :: t.metas[p].revokedAt.None?
  {
    if req.djKey != "" { LoneHolder(t, user, req); }
    var holders := DigestHolders(t, req.digest);
    if holders != {} { assert First(holders).value in holders; }
  }

  /** The service's own check looks at the first session of that digest, and of that Django key, of any user. */
  lemma AllowedExactly(t: Tables, req: Request)
    ensures Allowed(t, req) <==>
              && (forall p | p in t.metas && req.digest != "" && t.metas[p].digest == req.digest
                             && (forall q | q in t.metas && t.metas[q].digest == req.digest :: p <= q) :: t.metas[p].revokedAt.None?)
              && (forall p | p in t.metas && req.djKey != "" && t.metas[p].key == req.djKey
                             && (forall q | q in t.metas && t.metas[q].key == req.djKey :: p <= q) :: t.metas[p].revokedAt.None?)
  {
    var byDigest, byKey := DigestHolders(t, req.digest), KeyHolders(t, req.djKey);
    if byDigest != {} { assert First(byDigest).value in byDigest; }
    if byKey != {} { assert First(byKey).value in byKey; }
    assert forall q :: q in t.metas && t.metas[q].digest == req.digest <==> q in byDigest;
    assert forall q :: q in t.metas && t.metas[q].key == req.djKey <==> q in byKey;
  }

  // ---------------------------------------------------------------- one revocation

  /** The session is over: revoked now for this reason, with no live row, no session row and no Django session. */
  ghost predicate Ended(t: Tables, now: Time, user: UserId, key: string, reason: string) {
    && Closed(t, user, key) && (user, key) !in t.userSessions && key !in t.djSessions
    && exists p :: p in t.metas && IsEnded(t.metas[p], now, user, key, reason)
  }

  predicate IsEnded(m: Meta, now: Time, user: UserId, key: string, reason: string) {
    m.user == user && m.key == key && m.revokedAt == Some(now) && m.reason == reason
  }

  lemma RevokeKeyEnds(t: Tables, now: Time, user: UserId, key: string, reason: string)
    requires Consistent(t, now)
    ensures Ended(RevokeKey(t, now, user, key, reason), now, user, key, reason)
  {
    hide Consistent, Closed, EnsureMeta, LiveRows;
    RevokeKeyKeeps(t, now, user, key, reason);
    ClosedIntro(RevokeKey(t, now, user, key, reason), user, key);
    var t1 := t.(userSessions := t.userSessions - {(user, key)});
    assert Consistent(t1, now) by { SessionsDoNotMatter(t, t1, now); }
    EnsureMetaKeeps(t1, now, user, key, "");
    var p := EnsureMeta(t1, now, user, key, "").1;
    assert IsEnded(RevokeKey(t, now, user, key, reason).metas[p], now, user, key, reason);
  }

  predicate Knows(t: Tables, user: UserId, key: string) {
    (user, key) in t.userSessions || exists p :: p in t.metas && t.metas[p].user == user && t.metas[p].key == key
  }

  lemma KnownExactly(t: Tables, user: UserId, key: string)
    ensures MetaByKey(t, user, key).Some? <==> exists p :: p in t.metas && t.metas[p].user == user && t.metas[p].key == key
    ensures key in KnownKeys(t, user) <==> Knows(t, user, key)
  {
    if p :| p in t.metas && t.metas[p].user == user && t.metas[p].key == key { assert p in MetasByKey(t, user, key); }
    if MetaByKey(t, user, key).Some? { assert MetaByKey(t, user, key).value in MetasByKey(t, user, key); }
    if (user, key) in t.userSessions { assert (user, key).1 == key; }
  }

  /** Revoking one session: refused by the guard it changes nothing; a session nobody knows is not found;
      otherwise exactly that session ends, and nothing else of the tables changes. */
  lemma RevokeSingleExactly(t: Tables, now: Time, user: UserId, req: Request, key: string, reason: string)
    requires Consistent(t, now)
    ensures var touched := Touch(t, now, user, req);
            var (t1, r) := RevokeSingle(t, now, user, req, key, reason);
            if Guard(t, req).Some? then r == HttpError(401, Guard(t, req).value) && t1 == t
            else if !Knows(touched, user, key) then r == HttpError(404, "session not found") && t1 == touched
            else r == Ok(key) && Ended(t1, now, user, key, reason) && RestUntouched(touched, t1, user, {key})
  {
    hide Consistent, Touch, RevokeKey, RestUntouched, Ended, Guard;
    TouchKeeps(t, now, user, req);
    var touched := Touch(t, now, user, req);
    KnownExactly(touched, user, key);
    RevokeKeyEnds(touched, now, user, key, reason);
    RevokeKeyTouchesOneSession(touched, now, user, key, reason);
  }

  // ---------------------------------------------------------------- bulk revocation

  /** A key already revoked that no session row backs. */
  ghost predicate Over(t: Tables, user: UserId, key: string) {
    KeyRevoked(t, user, key) && (user, key) !in t.userSessions
  }

  lemma SkipsExactly(t: Tables, user: UserId, key: string)
    requires MetasUnique(t.metas)
    ensures Skips(t, user, key) <==> Over(t, user, key)
  {
    var found := MetasByKey(t, user, key);
    if found != {} { assert First(found).value in found; }
    if p :| p in t.metas && t.metas[p].user == user && t.metas[p].key == key && t.metas[p].revokedAt.Some? {
      assert p in found;
    }
  }

  lemma OverStaysOver(t: Tables, t1: Tables, user: UserId, key: string, keys: set<string>)
    requires RestUntouched(t, t1, user, keys) && key !in keys
    ensures Over(t1, user, key) <==> Over(t, user, key)
  {
    if p :| p in t.metas && t.metas[p].user == user && t.metas[p].key == key && t.metas[p].revokedAt.Some? {
      assert t1.metas[p] == t.metas[p];
    }
    if p :| p in t1.metas && t1.metas[p].user == user && t1.metas[p].key == key && t1.metas[p].revokedAt.Some? {
      assert p in t.metas && t1.metas[p] == t.metas[p];
    }
  }

  lemma EndedStaysEnded(t: Tables, t1: Tables, now: Time, user: UserId, key: string, reason: string, keys: set<string>)
    requires Ended(t, now, user, key, reason) && RestUntouched(t, t1, user, keys) && key !in keys
    ensures Ended(t1, now, user, key, reason)
  {
    ClosedStaysClosed(t, t1, user, key, keys);
    var p :| p in t.metas && IsEnded(t.metas[p], now, user, key, reason);
    assert t1.metas[p] == t.metas[p];
  }

  /** The loop skips exactly the keys that are over, and ends every other. */
  lemma {:induction false} SweepEnds(t: Tables, now: Time, user: UserId, keys: seq<string>, reason: string)
    requires Consistent(t, now) && NoRepeats(keys)
    ensures var s := Sweep(t, now, user, keys, reason);
            && (forall key | key in keys :: key in s.skipped <==> Over(t, user, key))
            && (forall key | key in s.revoked :: Ended(s.tables, now, user, key, reason))
  {
    hide Consistent, RevokeKey, Skips, Over, Ended, RestUntouched;
    if keys != [] {
      var front, key := keys[..|keys| - 1], keys[|keys| - 1];
      assert forall k | k in keys :: k in front || k == key;
      SweepEnds(t, now, user, front, reason);
      SweepCloses(t, now, user, front, reason);
      SweepKeeps(t, now, user, front, reason);
      var s := Sweep(t, now, user, front, reason);
      assert key !in front;
      assert key !in s.revoked by { assert key in s.revoked ==> key in Elements(s.revoked) + Elements(s.skipped); }
      assert key !in s.skipped by { assert key in s.skipped ==> key in Elements(s.revoked) + Elements(s.skipped); }
      assert MetasUnique(s.tables.metas) by { ConsistentMetas(s.tables, now); }
      SkipsExactly(s.tables, user, key);
      OverStaysOver(t, s.tables, user, key, Elements(s.revoked));
      if !Skips(s.tables, user, key) {
        RevokeKeyEnds(s.tables, now, user, key, reason);
        RevokeKeyTouchesOneSession(s.tables, now, user, key, reason);
        forall k | k in s.revoked ensures Ended(RevokeKey(s.tables, now, user, key, reason), now, user, k, reason) {
          EndedStaysEnded(s.tables, RevokeKey(s.tables, now, user, key, reason), now, user, k, reason, {key});
        }
      }
    }
  }

  lemma ConsistentMetas(t: Tables, now: Time)
    requires Consistent(t, now)
    ensures MetasUnique(t.metas)
  {
  }

  /** The keys a bulk revocation is about: the given ids, or every key but the current one. */
  predicate IsChosen(t: Tables, user: UserId, ids: set<string>, current: string, key: string) {
    key != "" && Knows(t, user, key) && (if ids != {} then key in ids else key != current)
  }

  lemma CandidatesExactly(t: Tables, user: UserId, ids: set<string>, allExceptCurrent: bool, current: string)
    requires ids != {} || (allExceptCurrent && current != "")
    requires !(ids != {} && allExceptCurrent)
    ensures forall key :: key in Candidates(t, user, ids, allExceptCurrent, current) <==> IsChosen(t, user, ids, current, key)
  {
    hide KnownKeys, Knows;
    forall key ensures key in KnownKeys(t, user) <==> Knows(t, user, key) { KnownExactly(t, user, key); }
  }

  /** What a bulk revocation that goes ahead does. */
  ghost predicate BulkDone(touched: Tables, t1: Tables, now: Time, user: UserId, ids: set<string>, report: BulkReport,
                           reason: string)
  {
    && NoRepeats(report.revoked) && NoRepeats(report.skipped)
    && (forall key :: key in report.skipped <==> IsChosen(touched, user, ids, report.current, key) && Over(touched, user, key))
    && (forall key :: key in report.revoked <==> IsChosen(touched, user, ids, report.current, key) && !Over(touched, user, key))
    && (forall key | key in report.revoked :: Ended(t1, now, user, key, reason))
    && (forall key | key in report.skipped :: Closed(t1, user, key))
    && RestUntouched(touched, t1, user, Elements(report.revoked))
  }

  /** A bulk revocation by ids, or of every other session: which requests are refused and how, which keys
      it visits, which of them it skips, and that it ends exactly the rest. */
  lemma RevokeBulkExactly(t: Tables, now: Time, user: UserId, req: Request, ids: set<string>, all: bool, reason: string)
    requires Consistent(t, now)
    ensures var touched := Touch(t, now, user, req);
            var (t1, r) := RevokeBulk(t, now, user, req, ids, all, reason);
            var current := CurrentKey(touched, user, req);
            if Guard(t, req).Some? then r == HttpError(401, Guard(t, req).value) && t1 == t
            else if (ids != {}) == all then r.HttpError? && r.status == 400 && t1 == touched
            else if all && current == "" then r.HttpError? && r.status == 409 && t1 == touched
            else r.Ok? && r.value.current == current && BulkDone(touched, t1, now, user, ids, r.value, reason)
  {
    hide Consistent, Touch, Guard, Sweep, Ended, RestUntouched, Closed, Over, IsChosen, CurrentKey, Candidates;
    TouchKeeps(t, now, user, req);
    var touched := Touch(t, now, user, req);
    var current := CurrentKey(touched, user, req);
    if Guard(t, req).None? && (ids != {}) != all && !(all && current == "") {
      var keys := Candidates(touched, user, ids, all, current);
      CandidatesDiffer(touched, user, ids, all, current);
      CandidatesExactly(touched, user, ids, all, current);
      SweepCloses(touched, now, user, keys, reason);
      SweepEnds(touched, now, user, keys, reason);
      var s := Sweep(touched, now, user, keys, reason);
      forall key ensures key in keys <==> key in s.revoked || key in s.skipped {
        assert key in Elements(keys) <==> key in Elements(s.revoked) + Elements(s.skipped);
      }
      forall key | key in s.revoked ensures key !in s.skipped {
        assert key in Elements(s.revoked) && (key in s.skipped ==> key in Elements(s.skipped));
      }
    }
  }

  lemma CandidatesDiffer(t: Tables, user: UserId, ids: set<string>, all: bool, current: string)
    ensures NoRepeats(Candidates(t, user, ids, all, current))
  {
  }

  // ---------------------------------------------------------------- cleanup

  /** The last time the session was seen, or first seen if it never was since. */
  function LastSeen(m: Meta): Time {
    match m.lastSeen
    case Some(at) => at
    case None => m.firstSeen
  }

  /** What a cleanup keeps, table by table. */
  predicate KeepsMeta(t: Tables, m: Meta, cutoff: Time) {
    && (m.revokedAt.Some? ==> m.revokedAt.value >= cutoff)
    && (m.key in t.djSessions || LastSeen(m) >= cutoff)
  }

  predicate KeepsMapping(t: Tables, m: Mapping, now: Time, cutoff: Time) {
    && (m.revokedAt.Some? ==> m.revokedAt.value >= cutoff)
    && (m.expiresAt.Some? ==> m.expiresAt.value >= now)
    && (exists q :: q in t.outstanding && t.outstanding[q].jti == m.jti && t.outstanding[q].expiresAt >= cutoff)
  }

  /** A cleanup removes exactly: session rows without a Django session, metas revoked before the session
      cutoff or last seen before it without a Django session, token records expired before the token
      cutoff, and mappings revoked before that, expired, or left without a record. */
  lemma CleanupExactly(t: Tables, now: Time, sessionCutoff: Time, tokenCutoff: Time)
    requires t.blacklist <= t.outstanding.Keys
    ensures var t1 := Cleanup(t, now, sessionCutoff, tokenCutoff);
            && t1 == t.(userSessions := t1.userSessions, metas := t1.metas, outstanding := t1.outstanding,
                        blacklist := t1.blacklist, mappings := t1.mappings)
            && (forall s :: s in t1.userSessions <==> s in t.userSessions && s.1 in t.djSessions)
            && (forall p :: p in t1.metas <==> p in t.metas && KeepsMeta(t, t.metas[p], sessionCutoff))
            && (forall p | p in t1.metas :: t1.metas[p] == t.metas[p])
            && (forall q :: q in t1.outstanding <==> q in t.outstanding && t.outstanding[q].expiresAt >= tokenCutoff)
            && (forall q | q in t1.outstanding :: t1.outstanding[q] == t.outstanding[q])
            && (forall q :: q in t1.blacklist <==> q in t.blacklist && t.outstanding[q].expiresAt >= tokenCutoff)
            && (forall p :: p in t1.mappings <==> p in t.mappings && KeepsMapping(t, t.mappings[p], now, tokenCutoff))
            && (forall p | p in t1.mappings :: t1.mappings[p] == t.mappings[p])
  {
    var t2 := PurgeJwtRecords(PurgeMetas(PurgeUserSessions(t), sessionCutoff), tokenCutoff);
    forall p | p in t.mappings ensures Stale(t2, t.mappings[p], now, tokenCutoff) <==> !KeepsMapping(t, t.mappings[p], now, tokenCutoff) {
      StaleExactly(t, t2, t.mappings[p], now, tokenCutoff);
    }
    hide Stale, KeepsMapping;
  }

  lemma StaleExactly(t: Tables, t2: Tables, m: Mapping, now: Time, cutoff: Time)
    requires forall q :: q in t2.outstanding <==> q in t.outstanding && t.outstanding[q].expiresAt >= cutoff
    requires forall q | q in t2.outstanding :: t2.outstanding[q] == t.outstanding[q]
    ensures Stale(t2, m, now, cutoff) <==> !KeepsMapping(t, m, now, cutoff)
  {
    if IsOutstanding(t2, m.jti) {
      var q :| q in t2.outstanding && t2.outstanding[q].jti == m.jti;
      assert t.outstanding[q].jti == m.jti && t.outstanding[q].expiresAt >= cutoff;
    }
    if q :| q in t.outstanding && t.outstanding[q].jti == m.jti && t.outstanding[q].expiresAt >= cutoff {
      assert t2.outstanding[q].jti == m.jti;
    }
  }

  /** Fewer metas: the least one with a digest stays the least if it stays, and no other takes its place
      in its session. */
  lemma FewerMetas(t: Tables, u: Tables, user: UserId, digest: string)
    requires MetasUnique(t.metas) && forall p | p in u.metas :: p in t.metas && u.metas[p] == t.metas[p]
    ensures var before, after := MetaByDigest(t, user, digest), MetaByDigest(u, user, digest);
            && (before.None? ==> after.None?)
            && (before.Some? && before.value in u.metas ==> after == before)
            && (before.Some? && before.value !in u.metas && after.Some? ==>
                  u.metas[after.value].key != t.metas[before.value].key)
  {
    var before, after := MetaByDigest(t, user, digest), MetaByDigest(u, user, digest);
    if after.Some? {
      assert after.value in MetasByDigest(u, user, digest);
      assert after.value in MetasByDigest(t, user, digest);
    }
    if before.Some? {
      assert before.value in MetasByDigest(t, user, digest);
      assert before.value in u.metas ==> before.value in MetasByDigest(u, user, digest);
    }
  }

  lemma OwnMeta(t: Tables, user: UserId, p: nat)
    requires MetasUnique(t.metas) && p in t.metas && t.metas[p].user == user
    ensures MetaByKey(t, user, t.metas[p].key) == Some(p)
  {
    assert p in MetasByKey(t, user, t.metas[p].key);
    assert MetaByKey(t, user, t.metas[p].key).value in MetasByKey(t, user, t.metas[p].key);
  }

  /** Fewer metas: the same reply to a refresh if its session's meta stays, and no success if it goes. */
  lemma FewerMetasRotate(t: Tables, u: Tables, active: set<UserId>, req: Request, c: Claims, minted: Claims)
    requires MetasUnique(t.metas) && MetasUnique(u.metas) && minted.jti !in t.signed && minted.user == c.user
    requires u == t.(metas := u.metas, userSessions := u.userSessions)
    requires forall p | p in u.metas :: p in t.metas && u.metas[p] == t.metas[p]
    ensures var session := MetaByDigest(t, c.user, req.digest);
            && (session.None? || session.value in u.metas ==>
                  Rotate(u, active, req, c, minted).1 == Rotate(t, active, req, c, minted).1)
            && (session.Some? && session.value !in u.metas && Rotate(t, active, req, c, minted).1.Ok? ==>
                  !Rotate(u, active, req, c, minted).1.Ok?)
  {
    hide MetaByKey, MetaByDigest, MoveRow, LiveRowsWith;
    FewerMetas(t, u, c.user, req.digest);
    assert LiveRowsWith(u, c.user, c.jti) == LiveRowsWith(t, c.user, c.jti) by { SameLiveRows(t, u, c.user, c.jti); }
    var before, after := MetaByDigest(t, c.user, req.digest), MetaByDigest(u, c.user, req.digest);
    DigestOwner(t, c.user, req.digest);
    DigestOwner(u, c.user, req.digest);
    if before.Some? { OwnMeta(t, c.user, before.value); }
    if after.Some? { OwnMeta(u, c.user, after.value); }
  }

  lemma SameLiveRows(t: Tables, u: Tables, user: UserId, jti: Jti)
    requires u.mappings == t.mappings
    ensures LiveRowsWith(u, user, jti) == LiveRowsWith(t, user, jti)
  {
  }

  lemma DigestOwner(t: Tables, user: UserId, digest: string)
    ensures var p := MetaByDigest(t, user, digest); p.Some? ==> p.value in t.metas && t.metas[p.value].user == user
  {
  }

  /** A cleanup and a refresh: while the cleanup keeps the meta of the session a refresh names, as it does
      when the session was last seen or its Django session lives within the retention, the reply is the
      same; and a refresh that would have succeeded still does exactly then. */
  lemma CleanupSparesRefresh(t: Tables, now: Time, sessionCutoff: Time, tokenCutoff: Time, active: set<UserId>,
                             req: Request, c: Claims, minted: Claims)
    requires Consistent(t, now) && tokenCutoff <= now + 1 && minted.jti !in t.signed && minted.user == c.user
    ensures var t1 := Cleanup(t, now, sessionCutoff, tokenCutoff);
            var session := MetaByDigest(t, c.user, req.digest);
            && (session.Some? ==> session.value in t.metas)
            && (session.None? || KeepsMeta(t, t.metas[session.value], sessionCutoff) ==>
                  Refresh(t1, now, active, req, Some(c), minted).1 == Refresh(t, now, active, req, Some(c), minted).1)
            && (session.Some? && Refresh(t, now, active, req, Some(c), minted).1.Ok? ==>
                  (Refresh(t1, now, active, req, Some(c), minted).1.Ok? <==> KeepsMeta(t, t.metas[session.value], sessionCutoff)))
  {
    hide Consistent, MetaByDigest, PurgeTokens, Rotate, Purged, JtisUnique, RowsMatchSigned;
    var u := PurgeMetas(PurgeUserSessions(t), sessionCutoff);
    var t1 := PurgeTokens(u, now, tokenCutoff);
    PurgeSessionsKeeps(t, now, sessionCutoff);
    PurgeTokensKeeps(u, now, tokenCutoff);
    PurgeDropsOnlyDead(u, now, tokenCutoff);
    RefreshAlike(u, t1, now, active, req, Some(c), minted);
    ConsistentMetas(t, now);
    ConsistentMetas(u, now);
    FewerMetasRotate(t, u, active, req, c, minted);
    DigestOwner(t, c.user, req.digest);
    assert Verifies(u, now, c) == Verifies(t, now, c);
  }

  // ---------------------------------------------------------------- touch, issue and refresh

  /** The session a request is about: its Django key, or its token if it has none. */
  function OwnKey(req: Request): string {
    if req.djKey != "" then req.djKey else req.token
  }

  ghost predicate HasMeta(t: Tables, user: UserId, key: string) {
    exists p :: p in t.metas && t.metas[p].user == user && t.metas[p].key == key
  }

  /** What a touch makes of a session that was there: its digest if it had none, and its last-seen time if
      that is unset or fifteen seconds old. */
  predicate Touched(m: Meta, m1: Meta, now: Time, req: Request) {
    && m1.user == m.user && m1.key == m.key && m1.firstSeen == m.firstSeen
    && m1.revokedAt == m.revokedAt && m1.reason == m.reason
    && m1.digest == (if m.digest != "" then m.digest else req.digest)
    && m1.lastSeen == (if m.lastSeen.Some? && now < m.lastSeen.value + 15 then m.lastSeen else Some(now))
  }

  lemma EnsureExactly(t: Tables, now: Time, user: UserId, key: string, digest: string)
    requires KeysOk(t)
    ensures var (t1, p) := EnsureMeta(t, now, user, key, digest);
            && t1.metas[p].user == user && t1.metas[p].key == key && t1 == t.(metas := t1.metas, nextPk := t1.nextPk)
            && (if HasMeta(t, user, key) then t1 == t
                else p !in t.metas && t1.metas == t.metas[p := Meta(user, key, digest, now, None, None, "")])
  {
    var found := MetasByKey(t, user, key);
    if q :| q in t.metas && t.metas[q].user == user && t.metas[q].key == key { assert q in found; }
    if found != {} { assert First(found).value in found; }
  }

  /** Touching: a request with neither token nor Django key leaves everything; any other updates its own
      session's meta, creating it only if absent, keeps every other, and records its Django session. */
  lemma TouchExactly(t: Tables, now: Time, user: UserId, req: Request)
    requires MetasUnique(t.metas) && KeysOk(t)
    ensures var t1 := Touch(t, now, user, req);
            && (OwnKey(req) == "" ==> t1 == t)
            && (OwnKey(req) != "" ==>
                  && HasMeta(t1, user, OwnKey(req))
                  && (forall p | p in t.metas :: p in t1.metas &&
                        if t.metas[p].user == user && t.metas[p].key == OwnKey(req) then Touched(t.metas[p], t1.metas[p], now, req)
                        else t1.metas[p] == t.metas[p])
                  && (forall p | p in t1.metas && p !in t.metas ::
                        !HasMeta(t, user, OwnKey(req))
                        && t1.metas[p] == Meta(user, OwnKey(req), req.digest, now, Some(now), None, ""))
                  && t1.userSessions == t.userSessions + (if req.djKey != "" then {(user, req.djKey)} else {})
                  && t1 == t.(metas := t1.metas, userSessions := t1.userSessions, nextPk := t1.nextPk))
  {
    hide EnsureMeta, KeysOk;
    if OwnKey(req) != "" {
      EnsureExactly(t, now, user, OwnKey(req), req.digest);
      var (t0, p) := EnsureMeta(t, now, user, OwnKey(req), req.digest);
      assert p in Touch(t, now, user, req).metas;
    }
  }

  /** The session a new pair is bound to: the least one of the user with the token's digest, else the one
      of the Django key, else one to be created. */
  lemma ResolvedExactly(t: Tables, user: UserId, req: Request, p: nat)
    requires MetasUnique(t.metas)
    ensures ResolveMeta(t, user, req) == Some(p) <==>
              p in t.metas && t.metas[p].user == user &&
              if HasDigest(t, user, req.digest)
              then t.metas[p].digest == req.digest
                   && forall q | q in t.metas && t.metas[q].user == user && t.metas[q].digest == req.digest :: p <= q
              else req.djKey != "" && t.metas[p].key == req.djKey
    ensures ResolveMeta(t, user, req) == None <==>
              !HasDigest(t, user, req.digest) && (req.djKey == "" || !HasMeta(t, user, req.djKey))
  {
    var byDigest, byKey := MetasByDigest(t, user, req.digest), MetasByKey(t, user, req.djKey);
    if q :| q in t.metas && t.metas[q].user == user && t.metas[q].digest == req.digest { assert q in byDigest; }
    if q :| q in t.metas && t.metas[q].user == user && t.metas[q].key == req.djKey { assert q in byKey; }
    if byDigest != {} { assert First(byDigest).value in byDigest; }
    if byKey != {} { assert First(byKey).value in byKey; }
    assert forall q :: q in t.metas && t.metas[q].user == user && t.metas[q].digest == req.digest <==> q in byDigest;
  }

  ghost predicate HasDigest(t: Tables, user: UserId, digest: string) {
    digest != "" && exists p :: p in t.metas && t.metas[p].user == user && t.metas[p].digest == digest
  }

  /** What issuing a pair does when it succeeds: the resolved session's meta keeps what it has, gets the digest
      if it had none and the Django key if there is one; the token is signed and put on record; a new live
      row maps it to that session. */
  ghost predicate Issued(t: Tables, t1: Tables, now: Time, user: UserId, req: Request, c: Claims) {
    exists p: nat, row: nat, record: nat :: IssuedAs(t, t1, now, user, req, c, p, row, record)
  }

  ghost predicate IssuedAs(t: Tables, t1: Tables, now: Time, user: UserId, req: Request, c: Claims, p: nat, row: nat, record: nat) {
    && p in t1.metas && Bound(t, t1, now, user, req, p)
    && (forall q | q in t.metas && q != p :: q in t1.metas && t1.metas[q] == t.metas[q])
    && (forall q | q in t1.metas && q != p :: q in t.metas)
    && row !in t.mappings && t1.mappings == t.mappings[row := Mapping(user, t1.metas[p].key, c.jti, Some(c.exp), None)]
    && record !in t.outstanding && t1.outstanding == t.outstanding[record := Outstanding(user, c.jti, c.exp)]
    && t1.signed == t.signed[c.jti := c]
    && t1.blacklist == t.blacklist && t1.userSessions == t.userSessions && t1.djSessions == t.djSessions
  }

  ghost predicate Bound(t: Tables, t1: Tables, now: Time, user: UserId, req: Request, p: nat)
    requires p in t1.metas
  {
    var found := ResolveMeta(t, user, req);
    if found.Some? then
      p == found.value && p in t.metas &&
      t1.metas[p] == t.metas[p].(digest := if t.metas[p].digest != "" then t.metas[p].digest else req.digest,
                                 key := if req.djKey != "" then req.djKey else t.metas[p].key)
    else p !in t.metas && t1.metas[p] == Meta(user, OwnKey(req), req.digest, now, None, None, "")
  }

  /** When a pair is issued: for a session that resolves, unless another session of the user has its Django
      key already; for a new one, if the request has a key or token no session of the user has. */
  lemma IssuePairExactly(t: Tables, now: Time, user: UserId, req: Request, c: Claims)
    requires MetasUnique(t.metas) && KeysOk(t) && c.jti !in t.signed && c.user == user
    ensures var (t1, r) := IssuePair(t, now, user, req, c);
            var found := ResolveMeta(t, user, req);
            if found.None? && OwnKey(req) == "" then r == HttpError(401, "session binding missing") && t1 == t
            else if (if found.Some? then found.value in t.metas && req.djKey != "" && t.metas[found.value].key != req.djKey
                                         && HasMeta(t, user, req.djKey)
                     else HasMeta(t, user, OwnKey(req)))
            then r == IntegrityError && t1 == t
            else r == Ok(c.jti) && Issued(t, t1, now, user, req, c)
  {
    var found := ResolveMeta(t, user, req);
    var (t2, bound) := BindMeta(t, now, user, req);
    BindExactly(t, now, user, req);
    hide ResolveMeta, MetaByKey, BindMeta;
    if bound.Ok? {
      var t1 := MintFor(t2, t2.metas[bound.value].key, c);
      assert IssuedAs(t, t1, now, user, req, c, bound.value, t2.nextPk + 1, t2.nextPk);
    }
  }

  lemma BindExactly(t: Tables, now: Time, user: UserId, req: Request)
    requires MetasUnique(t.metas) && KeysOk(t)
    ensures var (t2, r) := BindMeta(t, now, user, req);
            var found := ResolveMeta(t, user, req);
            && (found.Some? ==> found.value in t.metas)
            && t2 == t.(metas := t2.metas, nextPk := t2.nextPk) && t.nextPk <= t2.nextPk
            && (if found.None? && OwnKey(req) == "" then r == HttpError(401, "session binding missing")
                else if (if found.Some? then req.djKey != "" && t.metas[found.value].key != req.djKey && HasMeta(t, user, req.djKey)
                         else HasMeta(t, user, OwnKey(req)))
                then r == IntegrityError
                else && r.Ok? && Bound(t, t2, now, user, req, r.value)
                     && (forall q | q in t.metas && q != r.value :: q in t2.metas && t2.metas[q] == t.metas[q])
                     && (forall q | q in t2.metas && q != r.value :: q in t.metas))
  {
    var found := ResolveMeta(t, user, req);
    if found.Some? {
      ResolvedExactly(t, user, req, found.value);
      KnownExactly(t, user, req.djKey);
    } else {
      KnownExactly(t, user, OwnKey(req));
      ResolvedExactly(t, user, req, 0);
      if OwnKey(req) != "" && !HasMeta(t, user, OwnKey(req)) {
        var (t1, p) := EnsureMeta(t, now, user, OwnKey(req), req.digest);
        assert t1.metas[p].key == OwnKey(req);
      }
    }
  }

  /** The request that issues a pair: refused by the guard it changes nothing; a uniqueness violation rolls the
      touch back too; otherwise it touches and issues. */
  lemma IssueRequestExactly(t: Tables, now: Time, user: UserId, req: Request, c: Claims)
    requires c.jti !in t.signed && c.user == user
    ensures var (t1, r) := IssueRequest(t, now, user, req, c);
            var touched := Touch(t, now, user, req);
            && c.jti !in touched.signed
            && if Guard(t, req).Some? then t1 == t && r == HttpError(401, Guard(t, req).value)
               else && r == IssuePair(touched, now, user, req, c).1
                    && t1 == if r == IntegrityError then t else IssuePair(touched, now, user, req, c).0
  {
    hide Guard, BindMeta;
    assert Touch(t, now, user, req).signed == t.signed;
  }

  /** The request that logs out: refused by the guard it changes nothing. */
  lemma LogoutRequestExactly(t: Tables, now: Time, user: UserId, req: Request)
    ensures var (t1, r) := LogoutRequest(t, now, user, req);
            if Guard(t, req).Some? then t1 == t && r == HttpError(401, Guard(t, req).value)
            else t1 == Logout(t, now, user, req) && r == Ok(())
  {
    hide Guard, Logout;
  }

  /** A refresh never trusts the invariant: in any tables whatever, one that succeeds had a token that was
      signed, unexpired and not blacklisted, an active user, a live row, and a session that is not revoked. */
  lemma RefreshChecksAnyway(t: Tables, now: Time, active: set<UserId>, req: Request, c: Claims, minted: Claims)
    requires minted.jti !in t.signed && minted.user == c.user && MetasUnique(t.metas)
    ensures Refresh(t, now, active, req, Some(c), minted).1.Ok? ==>
              && c.jti in t.signed && t.signed[c.jti] == c && now < c.exp && c.user in active && req.token != ""
              && (forall q | q in t.blacklist && q in t.outstanding :: t.outstanding[q].jti != c.jti)
              && exists row, p :: row in t.mappings && p in t.metas && LiveFor(t.mappings[row], t.metas[p], c, req)
  {
    if Refresh(t, now, active, req, Some(c), minted).1.Ok? {
      var row, p := MappingFor(t, c.user, c.jti).value, MetaByDigest(t, c.user, req.digest).value;
      assert row in LiveRowsWith(t, c.user, c.jti) && p in MetasByDigest(t, c.user, req.digest);
      OwnMeta(t, c.user, p);
      assert LiveFor(t.mappings[row], t.metas[p], c, req);
    }
  }

  /** A live row of the token in a session of its user that is not revoked and that the request names. */
  predicate LiveFor(row: Mapping, m: Meta, c: Claims, req: Request) {
    && row.jti == c.jti && row.user == c.user && row.revokedAt.None?
    && m.user == c.user && m.key == row.key && m.key != "" && m.digest == req.digest && req.digest != "" && m.revokedAt.None?
  }

  // ---------------------------------------------------------------- logout

  /** The session a request is in: of its Django key, else of the least meta of the user with its digest. */
  lemma CurrentExactly(t: Tables, user: UserId, req: Request)
    ensures var key := CurrentKey(t, user, req);
            && (req.djKey != "" ==> key == req.djKey)
            && (req.djKey == "" && !HasDigest(t, user, req.digest) ==> key == "")
            && (req.djKey == "" && HasDigest(t, user, req.digest) ==>
                  exists p :: p in t.metas && t.metas[p].user == user && t.metas[p].digest == req.digest && t.metas[p].key == key
                              && forall q | q in t.metas && t.metas[q].user == user && t.metas[q].digest == req.digest :: p <= q)
    ensures LogoutKey(t, user, req) == CurrentKey(t, user, req)
  {
    var found := MetasByDigest(t, user, req.digest);
    if q :| q in t.metas && t.metas[q].user == user && t.metas[q].digest == req.digest { assert q in found; }
    if found != {} {
      var p := First(found).value;
      assert p in found;
      assert forall q | q in t.metas && t.metas[q].user == user && t.metas[q].digest == req.digest :: q in found;
    }
  }

  /** The meta of a session that is logged out: what was revoked stays as it was, what was not is revoked now;
      the digest is filled in if there was none. */
  predicate LoggedOut(t: Tables, m: Meta, now: Time, user: UserId, key: string, digest: string) {
    && m.user == user && m.key == key
    && (forall p | p in t.metas && t.metas[p].user == user && t.metas[p].key == key ::
          && m.revokedAt == (if t.metas[p].revokedAt.Some? then t.metas[p].revokedAt else Some(now))
          && m.reason == (if t.metas[p].reason != "" then t.metas[p].reason else "logout")
          && m.digest == if t.metas[p].digest != "" then t.metas[p].digest else digest)
    && ((forall p | p in t.metas :: !(t.metas[p].user == user && t.metas[p].key == key)) ==>
          m.revokedAt == Some(now) && m.reason == "logout" && m.digest == digest)
  }

  /** Logging out ends the Django session of the request and closes the session it is in, if any; nothing
      else changes. */
  lemma LogoutExactly(t: Tables, now: Time, user: UserId, req: Request)
    requires Consistent(t, now)
    ensures var t1 := Logout(t, now, user, req);
            var key := CurrentKey(t, user, req);
            && t1.djSessions == t.djSessions - {req.djKey} && t1.userSessions == t.userSessions
            && (key == "" ==> t1 == t.(djSessions := t1.djSessions))
            && (key != "" ==>
                  && Closed(t1, user, key) && RestUntouched(t, t1.(djSessions := t.djSessions), user, {key})
                  && exists p :: p in t1.metas && LoggedOut(t, t1.metas[p], now, user, key, req.digest))
  {
    CurrentExactly(t, user, req);
    hide Consistent, LogoutKey, CurrentKey, LogoutSession, RestUntouched, Closed, LoggedOut, HasDigest;
    var key := CurrentKey(t, user, req);
    if key != "" {
      LogoutSessionKeeps(t, now, user, key, req.digest);
      LogoutTouchesOneSession(t, now, user, key, req.digest);
      var t2 := LogoutSession(t, now, user, key, req.digest);
      ClosedIntro(t2, user, key);
      var t1 := Logout(t, now, user, req);
      ClosedIgnoresSessions(t2, t1, user, key);
      var p := LogoutMeta(t, now, user, key, req.digest);
      LogoutSessionSessions(t, now, user, key, req.digest);
      assert t1.(djSessions := t.djSessions) == t2;
    }
  }

  lemma LogoutSessionSessions(t: Tables, now: Time, user: UserId, key: string, digest: string)
    ensures var t1 := LogoutSession(t, now, user, key, digest);
            t1.djSessions == t.djSessions && t1.userSessions == t.userSessions
  {
    hide MetaByKey;
  }

  lemma LogoutMeta(t: Tables, now: Time, user: UserId, key: string, digest: string) returns (p: nat)
    requires Consistent(t, now)
    ensures var t1 := LogoutSession(t, now, user, key, digest); p in t1.metas && LoggedOut(t, t1.metas[p], now, user, key, digest)
  {
    EnsureMetaKeeps(t, now, user, key, digest);
    KnownExactly(t, user, key);
    p := EnsureMeta(t, now, user, key, digest).1;
    hide Sound, KeysOk, JtisUnique, RowsMatchSigned;
  }

  /** Changing the password: refused for the old password again or an invalid form, for a request the guard
      refuses, and when the current session cannot be told, always leaving everything as it was; otherwise
      every other session ends, for that reason, and the current one is logged out exactly if asked. */
  lemma ChangePasswordExactly(t: Tables, now: Time, user: UserId, req: Request, same: bool, valid: bool, logoutCurrent: bool)
    requires Consistent(t, now)
    ensures var touched := Touch(t, now, user, req);
            var (t1, r) := ChangePassword(t, now, user, req, same, valid, logoutCurrent);
            var current := CurrentKey(touched, user, req);
            if same || !valid then r.HttpError? && r.status == 400 && t1 == t
            else if Guard(t, req).Some? then r.HttpError? && r.status == 401 && t1 == t
            else if current == "" then r.HttpError? && r.status == 409 && t1 == t
            else
              && r == Ok(logoutCurrent)
              && exists t2: Tables, report: BulkReport ::
                   && t1 == (if logoutCurrent then Logout(t2, now, user, req) else t2)
                   && report.current == current && BulkDone(touched, t2, now, user, {}, report, "password_changed")
  {
    hide Consistent, Touch, Guard, RevokeBulk, BulkDone, CurrentKey, Logout;
    RevokeBulkExactly(t, now, user, req, {}, true, PASSWORD_REASON);
    var (t2, out) := RevokeBulk(t, now, user, req, {}, true, PASSWORD_REASON);
    if out.Ok? { assert BulkDone(Touch(t, now, user, req), t2, now, user, {}, out.value, "password_changed"); }
  }

  // ---------------------------------------------------------------- invalidate all

  /** The cutover ends every session of everyone: what was live is revoked now, what was revoked keeps its
      stamp and reason, every token on record is blacklisted, and no token whatever can be refreshed. */
  lemma InvalidateEndsAll(t: Tables, now: Time)
    requires Consistent(t, now)
    ensures var t1 := InvalidateAll(t, now);
            && t1.djSessions == {} && t1.userSessions == {} && t1.blacklist == t.outstanding.Keys
            && t1.outstanding == t.outstanding && t1.signed == t.signed
            && t1.metas.Keys == t.metas.Keys && t1.mappings.Keys == t.mappings.Keys
            && (forall p | p in t.metas ::
                  t1.metas[p] == if t.metas[p].revokedAt.Some? then t.metas[p]
                                 else t.metas[p].(revokedAt := Some(now), reason := "cookie_name_cutover"))
            && (forall p | p in t.mappings ::
                  t1.mappings[p] == if t.mappings[p].revokedAt.Some? then t.mappings[p] else t.mappings[p].(revokedAt := Some(now)))
            && (forall later: Time, active: set<UserId>, req: Request, c: Claims, minted: Claims
                  | minted.jti !in t1.signed && minted.user == c.user ::
                  !Refresh(t1, later, active, req, Some(c), minted).1.Ok?)
            && (forall p, req: Request | p in t.metas && req.digest != "" && t.metas[p].digest == req.digest :: Guard(t1, req).Some?)
  {
    var t1 := InvalidateAll(t, now);
    forall later: Time, active: set<UserId>, req: Request, c: Claims, minted: Claims
      | minted.jti !in t1.signed && minted.user == c.user
      ensures !Refresh(t1, later, active, req, Some(c), minted).1.Ok?
    {
      assert LiveRowsWith(t1, c.user, c.jti) == {};
    }
  }
}
