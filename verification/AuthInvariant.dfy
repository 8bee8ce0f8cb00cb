/** What every request and maintenance command keeps true of the auth tables. */
module AuthInvariant {
  import opened Prelude
  import opened AuthTables

  // ---------------------------------------------------------------- the invariant

  /** Primary keys come from one sequence and foreign keys resolve. */
  ghost predicate KeysOk(t: Tables) {
    && (forall p | p in t.metas :: 0 < p < t.nextPk)
    && (forall p | p in t.mappings :: 0 < p < t.nextPk)
    && (forall p | p in t.outstanding :: 0 < p < t.nextPk)
    && t.blacklist <= t.outstanding.Keys
    && 0 < t.nextPk
  }

  ghost predicate MetasUnique(metas: map<nat, Meta>) {
    forall p, q | p in metas && q in metas
      && metas[p].user == metas[q].user && metas[p].key == metas[q].key :: p == q
  }

  ghost predicate JtisUnique(mappings: map<nat, Mapping>, outstanding: map<nat, Outstanding>) {
    && (forall p, q | p in mappings && q in mappings && mappings[p].jti == mappings[q].jti :: p == q)
    && (forall p, q | p in outstanding && q in outstanding && outstanding[p].jti == outstanding[q].jti :: p == q)
  }

  /** A row about a token repeats what was signed into that token. */
  ghost predicate RowsMatchSigned(mappings: map<nat, Mapping>, outstanding: map<nat, Outstanding>,
                                  signed: map<Jti, Claims>) {
    && (forall p | p in mappings :: MappingMatches(signed, mappings[p]))
    && (forall p | p in outstanding ::
        var o := outstanding[p]; o.jti in signed && signed[o.jti] == Claims(o.jti, o.user, o.expiresAt))
  }

  ghost predicate MappingMatches(signed: map<Jti, Claims>, m: Mapping) {
    && m.jti in signed && signed[m.jti].user == m.user && signed[m.jti].jti == m.jti
    && (m.expiresAt.Some? ==> m.expiresAt.value == signed[m.jti].exp)
  }

  ghost predicate Schema(t: Tables) {
    && KeysOk(t) && MetasUnique(t.metas)
    && JtisUnique(t.mappings, t.outstanding) && RowsMatchSigned(t.mappings, t.outstanding, t.signed)
  }

  ghost predicate KeyRevoked(t: Tables, user: UserId, key: string) {
    exists p :: p in t.metas && t.metas[p].user == user && t.metas[p].key == key && t.metas[p].revokedAt.Some?
  }

  /** What a mapping that is not revoked promises: its token is on record unless it
      has expired, is not blacklisted, and its session is not revoked. */
  ghost predicate Sound(t: Tables, now: Time, m: Mapping)
    requires m.jti in t.signed
  {
    && (t.signed[m.jti].exp <= now || IsOutstanding(t, m.jti))
    && !Blacklisted(t, m.jti)
    && !KeyRevoked(t, m.user, m.key)
  }

  ghost predicate Consistent(t: Tables, now: Time) {
    && Schema(t)
    && forall p | p in t.mappings && t.mappings[p].revokedAt.None? :: Sound(t, now, t.mappings[p])
  }

  /** As Consistent, but promising nothing about the live rows of one session. */
  ghost predicate ConsistentBut(t: Tables, now: Time, user: UserId, key: string) {
    && Schema(t)
    && forall p | p in t.mappings && t.mappings[p].revokedAt.None? && !LiveRow(t.mappings[p], user, key) ::
         Sound(t, now, t.mappings[p])
  }

  /** Assumption on a request: its Django session key belongs to its user alone. */
  ghost predicate OwnedBy(t: Tables, req: Request, user: UserId) {
    req.djKey != "" ==> forall p | p in t.metas && t.metas[p].key == req.djKey :: t.metas[p].user == user
  }

  // ---------------------------------------------------------------- single writes

  lemma EnsureMetaKeeps(t: Tables, now: Time, user: UserId, key: string, digest: string)
    requires Consistent(t, now)
    ensures var (t1, p) := EnsureMeta(t, now, user, key, digest);
            && Consistent(t1, now) && t1.metas[p].user == user && t1.metas[p].key == key
            && t1.metas.Keys == t.metas.Keys + {p}
            && (forall q | q in t.metas :: t1.metas[q] == t.metas[q])
            && t1 == t.(metas := t1.metas, nextPk := t1.nextPk)
            && (p !in t.metas ==> t1.metas[p].revokedAt.None?)
  {
    var found := MetaByKey(t, user, key);
    if found.None? {
      assert MetasByKey(t, user, key) == {};
      forall q | q in t.metas ensures !(t.metas[q].user == user && t.metas[q].key == key) {
        assert q !in MetasByKey(t, user, key);
      }
      var (t1, p) := EnsureMeta(t, now, user, key, digest);
      SameSoundness(t, t1, now);
    }
  }

  /** Soundness of the live rows survives any change that keeps the token tables and
      does not revoke a session holding a live row. */
  lemma SameSoundness(t: Tables, t1: Tables, now: Time)
    requires Consistent(t, now) && Schema(t1)
    requires t1.mappings == t.mappings && t1.outstanding == t.outstanding
    requires t1.blacklist == t.blacklist && t1.signed == t.signed
    requires forall p | p in t1.metas && t1.metas[p].revokedAt.Some? ::
               KeyRevoked(t, t1.metas[p].user, t1.metas[p].key)
    ensures Consistent(t1, now)
  {
    forall p | p in t1.mappings && t1.mappings[p].revokedAt.None? ensures Sound(t1, now, t1.mappings[p]) {
      assert Sound(t, now, t.mappings[p]);
    }
  }

  lemma SessionsDoNotMatter(t: Tables, t1: Tables, now: Time)
    requires Consistent(t, now) && t1 == t.(userSessions := t1.userSessions, djSessions := t1.djSessions)
    ensures Consistent(t1, now)
  {
    SameSoundness(t, t1, now);
  }

  lemma TouchKeeps(t: Tables, now: Time, user: UserId, req: Request)
    requires Consistent(t, now)
    ensures Consistent(Touch(t, now, user, req), now) && Touch(t, now, user, req).signed == t.signed
  {
    hide Sound, JtisUnique, RowsMatchSigned;
    if !(req.token == "" && req.djKey == "") {
      var key := if req.djKey != "" then req.djKey else req.token;
      EnsureMetaKeeps(t, now, user, key, req.digest);
      var (t1, p) := EnsureMeta(t, now, user, key, req.digest);
      var t2 := Touch(t, now, user, req);
      assert forall q | q in t2.metas :: (
        && q in t1.metas && t2.metas[q].revokedAt == t1.metas[q].revokedAt
        && t2.metas[q].user == t1.metas[q].user && t2.metas[q].key == t1.metas[q].key);
      SameSoundness(t1, t2, now);
    }
  }

  /** A request past the guard holds no revoked session: not by key, not by token,
      not by digest. The key lookup ignores the user, hence the ownership assumption. */
  lemma GuardedSessionIsLive(t: Tables, req: Request, user: UserId)
    requires MetasUnique(t.metas) && OwnedBy(t, req, user) && Guard(t, req).None?
    ensures req.djKey != "" ==> !KeyRevoked(t, user, req.djKey)
    ensures !KeyRevoked(t, user, req.token)
    ensures req.digest != "" ==> forall p | p in t.metas && t.metas[p].digest == req.digest :: t.metas[p].revokedAt.None?
  {
    if req.djKey != "" {
      var found := KeyHolders(t, req.djKey);
      forall p | p in t.metas && t.metas[p].user == user && t.metas[p].key == req.djKey
        ensures t.metas[p].revokedAt.None?
      {
        assert p in found;
        assert First(found).value in found;
      }
    }
  }

  ghost predicate ResolvesLive(t: Tables, user: UserId, req: Request) {
    && (req.digest != "" ==> forall p | p in t.metas && t.metas[p].digest == req.digest :: t.metas[p].revokedAt.None?)
    && (req.djKey != "" ==> !KeyRevoked(t, user, req.djKey))
  }

  lemma TouchResolvesLive(t: Tables, now: Time, user: UserId, req: Request)
    requires Consistent(t, now) && OwnedBy(t, req, user) && Guard(t, req).None?
    ensures ResolvesLive(Touch(t, now, user, req), user, req)
  {
    GuardedSessionIsLive(t, req, user);
    var key := if req.djKey != "" then req.djKey else req.token;
    EnsureMetaKeeps(t, now, user, key, req.digest);
    var (t1, p) := EnsureMeta(t, now, user, key, req.digest);
    assert t1.metas[p].revokedAt.None?;
    var t2 := Touch(t, now, user, req);
    forall q | q in t2.metas && t2.metas[q].user == user && t2.metas[q].key == key
      ensures t2.metas[q].revokedAt.None?
    {
      assert q == p;
    }
  }

  lemma AdoptMetaKeeps(t: Tables, now: Time, p: nat, req: Request)
    requires Consistent(t, now) && p in t.metas && t.metas[p].revokedAt.None?
    ensures var (t1, r) := AdoptMeta(t, p, req);
            && Consistent(t1, now) && t1.signed == t.signed
            && (r.Ok? ==> t1.metas[p].user == t.metas[p].user && !KeyRevoked(t1, t1.metas[p].user, t1.metas[p].key))
  {
    var (t1, r) := AdoptMeta(t, p, req);
    if r.Ok? {
      RebindKeeps(t, t1, now, p);
      forall q | q in t1.metas && t1.metas[q].user == t1.metas[p].user && t1.metas[q].key == t1.metas[p].key
        ensures t1.metas[q].revokedAt.None?
      {
        assert q == p;
      }
    }
  }

  /** Binding reaches a live session meta of this user. */
  lemma BindMetaKeeps(t: Tables, now: Time, user: UserId, req: Request)
    requires Consistent(t, now) && ResolvesLive(t, user, req)
    ensures var (t1, r) := BindMeta(t, now, user, req);
            && Consistent(t1, now) && t1.signed == t.signed
            && (r.Ok? ==> t1.metas[r.value].user == user && !KeyRevoked(t1, user, t1.metas[r.value].key))
  {
    var found := ResolveMeta(t, user, req);
    var fallback := if req.djKey != "" then req.djKey else req.token;
    if found.Some? {
      AdoptMetaKeeps(t, now, found.value, req);
    } else if fallback != "" && MetaByKey(t, user, fallback).None? {
      EnsureMetaKeeps(t, now, user, fallback, req.digest);
      var (t1, p) := EnsureMeta(t, now, user, fallback, req.digest);
      AdoptMetaKeeps(t1, now, p, req);
    }
  }

  /** A live meta row may take over a key nobody holds, and fill in its digest. */
  lemma RebindKeeps(t: Tables, t1: Tables, now: Time, p: nat)
    requires Consistent(t, now) && p in t.metas && t.metas[p].revokedAt.None?
    requires t1 == t.(metas := t1.metas) && t1.metas.Keys == t.metas.Keys
    requires forall q | q in t.metas && q != p :: t1.metas[q] == t.metas[q]
    requires t1.metas[p].user == t.metas[p].user && t1.metas[p].revokedAt.None?
    requires t1.metas[p].key == t.metas[p].key || MetaByKey(t, t.metas[p].user, t1.metas[p].key).None?
    ensures Consistent(t1, now)
  {
    var m := t1.metas[p];
    if m.key != t.metas[p].key {
      forall q | q in t.metas ensures !(t.metas[q].user == m.user && t.metas[q].key == m.key) {
        assert q !in MetasByKey(t, m.user, m.key);
      }
    }
    SameSoundness(t, t1, now);
  }

  lemma SignKeeps(t: Tables, now: Time, c: Claims)
    requires Consistent(t, now) && c.jti !in t.signed
    ensures var t1 := Sign(t, c);
            Consistent(t1, now) && IsOutstanding(t1, c.jti) && !Blacklisted(t1, c.jti)
  {
    var t1 := Sign(t, c);
    assert t1.outstanding[t.nextPk].jti == c.jti;
    forall p | p in t1.mappings && t1.mappings[p].revokedAt.None? ensures Sound(t1, now, t1.mappings[p]) {
      var m := t.mappings[p];
      assert Sound(t, now, m);
      if IsOutstanding(t, m.jti) {
        var q :| q in t.outstanding && t.outstanding[q].jti == m.jti;
        assert t1.outstanding[q].jti == m.jti;
      }
      forall q | q in t1.blacklist && q in t1.outstanding ensures t1.outstanding[q].jti != m.jti {
        assert q in t.blacklist && q in t.outstanding;
      }
    }
  }

  lemma MintForKeeps(t: Tables, now: Time, key: string, c: Claims)
    requires Consistent(t, now) && c.jti !in t.signed && !KeyRevoked(t, c.user, key)
    ensures Consistent(MintFor(t, key, c), now)
  {
    SignKeeps(t, now, c);
    var t1 := Sign(t, c);
    var t2 := MintFor(t, key, c);
    forall p | p in t2.mappings && t2.mappings[p].revokedAt.None? ensures Sound(t2, now, t2.mappings[p]) {
      if p != t1.nextPk { assert Sound(t1, now, t1.mappings[p]); }
    }
  }

  /** Rotation moves a live row from the old token to the new one. */
  lemma MoveRowKeeps(t: Tables, now: Time, row: nat, minted: Claims)
    requires Consistent(t, now) && minted.jti !in t.signed && row in t.mappings
    requires t.mappings[row].revokedAt.None? && minted.user == t.mappings[row].user
    ensures Consistent(MoveRow(t, row, t.mappings[row].jti, minted), now)
  {
    var mapping := t.mappings[row];
    var t' := MoveRow(t, row, mapping.jti, minted);
    SignKeeps(t, now, minted);
    var t1 := Sign(t, minted);
    assert Sound(t, now, mapping);
    forall p | p in t'.mappings && t'.mappings[p].revokedAt.None? ensures Sound(t', now, t'.mappings[p]) {
      var m := t'.mappings[p];
      if p != row { assert Sound(t1, now, t1.mappings[p]); assert m.jti != mapping.jti; }
      forall q | q in t'.blacklist && q in t'.outstanding ensures t'.outstanding[q].jti != m.jti {
        assert q in t1.blacklist || t'.outstanding[q].jti == mapping.jti;
      }
    }
  }

  lemma RotateKeeps(t: Tables, now: Time, active: set<UserId>, req: Request, c: Claims, minted: Claims)
    requires Consistent(t, now) && minted.jti !in t.signed && minted.user == c.user
    ensures Consistent(Rotate(t, active, req, c, minted).0, now)
  {
    hide Consistent, MoveRow;
    var r := Rotate(t, active, req, c, minted).1;
    if r.Ok? { MoveRowKeeps(t, now, r.value, minted); }
  }

  // ---------------------------------------------------------------- revocation

  /** Revoking a meta row voids the promise for that session's live rows only. */
  lemma RevokeMetaKeeps(t: Tables, now: Time, p: nat, m: Meta)
    requires Consistent(t, now) && p in t.metas
    requires m.user == t.metas[p].user && m.key == t.metas[p].key && m.revokedAt.Some?
    ensures var t1 := t.(metas := t.metas[p := m]);
            ConsistentBut(t1, now, m.user, m.key) && KeyRevoked(t1, m.user, m.key)
  {
    var t1 := t.(metas := t.metas[p := m]);
    assert t1.metas[p].revokedAt.Some?;
    forall q | q in t1.mappings && t1.mappings[q].revokedAt.None? && !LiveRow(t1.mappings[q], m.user, m.key)
      ensures Sound(t1, now, t1.mappings[q])
    {
      assert Sound(t, now, t.mappings[q]);
    }
  }

  /** Stamping and blacklisting the live rows of a session restores the invariant:
      no other row shares a jti with them. */
  lemma RevokeRowsKeeps(t: Tables, now: Time, user: UserId, key: string, at: Time)
    requires ConsistentBut(t, now, user, key)
    ensures Consistent(RevokeRows(t, user, key, at), now)
  {
    var t1 := RevokeRows(t, user, key, at);
    forall p | p in t1.mappings && t1.mappings[p].revokedAt.None? ensures Sound(t1, now, t1.mappings[p]) {
      var m := t.mappings[p];
      assert p !in LiveRows(t, user, key);
      assert Sound(t, now, m);
      forall q | q in t1.blacklist && q in t1.outstanding ensures t1.outstanding[q].jti != m.jti {
        if q !in t.blacklist {
          var w :| w in LiveRows(t, user, key) && t.mappings[w].jti == t.outstanding[q].jti;
        }
      }
    }
  }

  lemma MarkRevokedKeeps(t: Tables, now: Time, user: UserId, key: string, reason: string)
    requires Consistent(t, now)
    ensures ConsistentBut(MarkRevoked(t, now, user, key, reason), now, user, key)
    ensures KeyRevoked(MarkRevoked(t, now, user, key, reason), user, key)
  {
    EnsureMetaKeeps(t, now, user, key, "");
    var (t1, p) := EnsureMeta(t, now, user, key, "");
    RevokeMetaKeeps(t1, now, p, t1.metas[p].(revokedAt := Some(now), reason := reason));
  }

  lemma RevokeKeyKeeps(t: Tables, now: Time, user: UserId, key: string, reason: string)
    requires Consistent(t, now)
    ensures var t1 := RevokeKey(t, now, user, key, reason);
            Consistent(t1, now) && KeyRevoked(t1, user, key) && LiveRows(t1, user, key) == {}
  {
    var t1 := t.(userSessions := t.userSessions - {(user, key)});
    SameSoundness(t, t1, now);
    MarkRevokedKeeps(t1, now, user, key, reason);
    var t2 := MarkRevoked(t1, now, user, key, reason);
    RevokeRowsKeeps(t2, now, user, key, now);
    var t3 := RevokeRows(t2, user, key, now);
    SameSoundness(t3, t3.(djSessions := t3.djSessions - {key}), now);
  }

  lemma LogoutKeeps(t: Tables, now: Time, user: UserId, req: Request)
    requires Consistent(t, now)
    ensures Consistent(Logout(t, now, user, req), now)
  {
    var key := LogoutKey(t, user, req);
    var t1 := t;
    if key != "" {
      LogoutSessionKeeps(t, now, user, key, req.digest);
      t1 := LogoutSession(t, now, user, key, req.digest);
    }
    SameSoundness(t1, t1.(djSessions := t1.djSessions - {req.djKey}), now);
  }

  lemma LogoutSessionKeeps(t: Tables, now: Time, user: UserId, key: string, digest: string)
    requires Consistent(t, now)
    ensures var t1 := LogoutSession(t, now, user, key, digest);
            Consistent(t1, now) && KeyRevoked(t1, user, key) && LiveRows(t1, user, key) == {}
  {
    EnsureMetaKeeps(t, now, user, key, digest);
    var (t1, p) := EnsureMeta(t, now, user, key, digest);
    var m := EndedByLogout(t1.metas[p], now, digest);
    RevokeMetaKeeps(t1, now, p, m);
    RevokeRowsKeeps(t1.(metas := t1.metas[p := m]), now, user, key, now);
  }

  lemma {:induction false} SweepKeeps(t: Tables, now: Time, user: UserId, keys: seq<string>, reason: string)
    requires Consistent(t, now)
    ensures Consistent(Sweep(t, now, user, keys, reason).tables, now)
  {
    if keys != [] {
      SweepKeeps(t, now, user, keys[..|keys| - 1], reason);
      RevokeKeyKeeps(Sweep(t, now, user, keys[..|keys| - 1], reason).tables, now, user, keys[|keys| - 1], reason);
    }
  }

  // ---------------------------------------------------------------- maintenance

  /** Dropping rows keeps the invariant as long as a token record goes only after the
      token has expired. */
  lemma DroppingKeeps(t: Tables, t1: Tables, now: Time)
    requires Consistent(t, now)
    requires t1 == t.(metas := t1.metas, mappings := t1.mappings, outstanding := t1.outstanding, blacklist := t1.blacklist)
    requires forall p | p in t1.metas :: p in t.metas && t1.metas[p] == t.metas[p]
    requires forall p | p in t1.mappings :: p in t.mappings && t1.mappings[p] == t.mappings[p]
    requires forall p | p in t1.outstanding :: p in t.outstanding && t1.outstanding[p] == t.outstanding[p]
    requires t1.blacklist <= t.blacklist && t1.blacklist <= t1.outstanding.Keys
    requires forall p | p in t.outstanding && p !in t1.outstanding :: t.outstanding[p].expiresAt <= now
    ensures Consistent(t1, now)
  {
    forall p | p in t1.mappings && t1.mappings[p].revokedAt.None? ensures Sound(t1, now, t1.mappings[p]) {
      var m := t.mappings[p];
      assert Sound(t, now, m);
      if t.signed[m.jti].exp > now {
        var q :| q in t.outstanding && t.outstanding[q].jti == m.jti;
        assert q in t1.outstanding;
      }
    }
  }

  lemma CleanupKeeps(t: Tables, now: Time, sessionCutoff: Time, tokenCutoff: Time)
    requires Consistent(t, now) && tokenCutoff <= now + 1
    ensures Consistent(PurgeTokens(t, now, tokenCutoff), now)
    ensures Consistent(Cleanup(t, now, sessionCutoff, tokenCutoff), now)
  {
    hide Consistent, PurgeTokens;
    PurgeTokensKeeps(t, now, tokenCutoff);
    PurgeSessionsKeeps(t, now, sessionCutoff);
    PurgeTokensKeeps(PurgeMetas(PurgeUserSessions(t), sessionCutoff), now, tokenCutoff);
  }

  lemma PurgeSessionsKeeps(t: Tables, now: Time, cutoff: Time)
    requires Consistent(t, now)
    ensures Consistent(PurgeMetas(PurgeUserSessions(t), cutoff), now)
  {
    var t0 := PurgeUserSessions(t);
    SameSoundness(t, t0, now);
    DroppingKeeps(t0, PurgeMetas(t0, cutoff), now);
  }

  lemma PurgeTokensKeeps(t: Tables, now: Time, cutoff: Time)
    requires Consistent(t, now) && cutoff <= now + 1
    ensures Consistent(PurgeJwtRecords(t, cutoff), now)
    ensures Consistent(PurgeTokens(t, now, cutoff), now)
  {
    var t1 := PurgeJwtRecords(t, cutoff);
    DroppingKeeps(t, t1, now);
    DroppingKeeps(t1, PurgeMappings(t1, now, cutoff), now);
  }

  lemma InvalidateKeeps(t: Tables, now: Time)
    requires Consistent(t, now)
    ensures Consistent(InvalidateAll(t, now), now)
  {
  }

  /** Time passing only expires tokens. */
  lemma LaterIsConsistent(t: Tables, now: Time, later: Time)
    requires Consistent(t, now) && now <= later
    ensures Consistent(t, later)
  {
    forall p | p in t.mappings && t.mappings[p].revokedAt.None? ensures Sound(t, later, t.mappings[p]) {
      assert Sound(t, now, t.mappings[p]);
    }
  }
}
