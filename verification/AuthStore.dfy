/** The auth tables as the services update them: row by row, in source order.
    Each method is tied to the function in `AuthTables` that says what it amounts to. */
module AuthStores {
  import opened Prelude
  import T = AuthTables
  import opened AuthInvariant

  const BLACKLIST_BATCH_SIZE := 1000

  /** Revoking one more row is one more turn of the loop. */
  lemma RevokeOneMore(t: T.Tables, user: T.UserId, done: set<nat>, p: nat, at: T.Time)
    requires p in t.mappings && p !in done
    ensures var t1 := T.RevokeSome(t, user, done, at);
            p in t1.mappings &&
            T.RevokeSome(t, user, done + {p}, at)
            == T.StampRevoked(T.BlacklistUserJti(t1, user, t.mappings[p].jti), p, at)
  {
    var t1 := T.RevokeSome(t, user, done, at);
    var t2 := T.StampRevoked(T.BlacklistUserJti(t1, user, t.mappings[p].jti), p, at);
    var t3 := T.RevokeSome(t, user, done + {p}, at);
    assert t2.mappings == t3.mappings;
    assert t2.blacklist == t3.blacklist;
  }

  lemma RevokeNone(t: T.Tables, user: T.UserId, at: T.Time)
    ensures T.RevokeSome(t, user, {}, at) == t
  {
    assert T.RevokeSome(t, user, {}, at).mappings == t.mappings;
  }

  lemma RevokeSomeLeavesOthers(t: T.Tables, user: T.UserId, done: set<nat>, p: nat, at: T.Time)
    requires p in t.mappings && p !in done
    ensures var t1 := T.RevokeSome(t, user, done, at); p in t1.mappings && t1.mappings[p] == t.mappings[p]
  {
  }

  /** A batch takes everything up to its last key, so the next may start after it. */
  lemma BatchIsDownwardClosed(pending: set<nat>, n: nat)
    requires pending != {} && n > 0
    ensures var batch := Smallest(pending, n);
            batch != [] && batch[0] in pending
            && forall q | q in pending && q <= batch[|batch| - 1] :: q in batch
  {
    var batch := Smallest(pending, n);
    assert batch[|batch| - 1] in batch && batch[0] in batch;
  }

  class AuthStore {
    var metas: map<nat, T.Meta>
    var mappings: map<nat, T.Mapping>
    var outstanding: map<nat, T.Outstanding>
    var blacklist: set<nat>
    var userSessions: set<(T.UserId, string)>
    var djSessions: set<string>
    var nextPk: nat
    var signed: map<T.Jti, T.Claims>

    function Tables(): T.Tables
      reads this
    {
      T.Tables(metas, mappings, outstanding, blacklist, userSessions, djSessions, nextPk, signed)
    }

    /** `get_or_create` on the session metas. */
    method GetOrCreateMeta(now: T.Time, user: T.UserId, key: string, digest: string) returns (p: nat)
      modifies this`metas, this`nextPk
      ensures (Tables(), p) == T.EnsureMeta(old(Tables()), now, user, key, digest)
      ensures p in metas
    {
      var found := T.MetaByKey(Tables(), user, key);
      if found.Some? {
        p := found.value;
      } else {
        p := nextPk;
        metas := metas[p := T.Meta(user, key, digest, now, None, None, "")];
        nextPk := nextPk + 1;
      }
    }

    method Touch(now: T.Time, user: T.UserId, req: T.Request)
      modifies this
      ensures Tables() == T.Touch(old(Tables()), now, user, req)
    {
      if req.token == "" && req.djKey == "" { return; }
      var p := GetOrCreateMeta(now, user, if req.djKey != "" then req.djKey else req.token, req.digest);
      if req.digest != "" && metas[p].digest == "" {
        metas := metas[p := metas[p].(digest := req.digest)];
      }
      if metas[p].lastSeen.None? || now - metas[p].lastSeen.value >= T.LAST_SEEN_THROTTLE {
        metas := metas[p := metas[p].(lastSeen := Some(now))];
      }
      if req.djKey != "" {
        userSessions := userSessions + {(user, req.djKey)};
      }
    }

    /** `RefreshToken.for_user`: sign a token and record it as outstanding. */
    method MintToken(c: T.Claims)
      requires c.jti !in signed
      modifies this`outstanding, this`signed, this`nextPk
      ensures Tables() == T.Sign(old(Tables()), c)
    {
      signed := signed[c.jti := c];
      outstanding := outstanding[nextPk := T.Outstanding(c.user, c.jti, c.exp)];
      nextPk := nextPk + 1;
    }

    /** Fill in the digest, move to the current Django session key, and save. */
    method AdoptMeta(p: nat, req: T.Request) returns (r: Outcome<nat>)
      requires p in metas
      modifies this`metas
      ensures (Tables(), r) == T.AdoptMeta(old(Tables()), p, req)
    {
      var meta := metas[p];
      if req.digest != "" && meta.digest == "" {
        meta := meta.(digest := req.digest);
      }
      if req.djKey != "" && meta.key != req.djKey {
        if T.MetaByKey(Tables(), meta.user, req.djKey).Some? { return IntegrityError; }
        meta := meta.(key := req.djKey);
      }
      metas := metas[p := meta];
      r := Ok(p);
    }

    method IssuePair(now: T.Time, user: T.UserId, req: T.Request, c: T.Claims) returns (r: Outcome<T.Jti>)
      requires c.jti !in signed && c.user == user
      modifies this
      ensures (Tables(), r) == T.IssuePair(old(Tables()), now, user, req, c)
    {
      var meta := T.ResolveMeta(Tables(), user, req);
      if meta.None? {
        var fallback := if req.djKey != "" then req.djKey else req.token;
        if fallback == "" { return HttpError(401, "session binding missing"); }
        if T.MetaByKey(Tables(), user, fallback).Some? { return IntegrityError; }
        var p := GetOrCreateMeta(now, user, fallback, req.digest);
        meta := Some(p);
      }
      var bound := AdoptMeta(meta.value, req);
      if bound.IntegrityError? { return IntegrityError; }
      assert (Tables(), bound) == T.BindMeta(old(Tables()), now, user, req);
      MintToken(c);
      mappings := mappings[nextPk := T.Mapping(user, metas[meta.value].key, c.jti, Some(c.exp), None)];
      nextPk := nextPk + 1;
      r := Ok(c.jti);
    }

    /** `refresh_pair`, from the token check to the rotated row. */
    method RefreshPair(now: T.Time, active: set<T.UserId>, req: T.Request,
                       presented: Option<T.Claims>, minted: T.Claims) returns (r: Outcome<nat>)
      requires minted.jti !in signed && (presented.Some? ==> minted.user == presented.value.user)
      modifies this
      ensures (Tables(), r) == T.Refresh(old(Tables()), now, active, req, presented, minted)
    {
      if presented.None? { return HttpError(401, "refresh required"); }
      var c := presented.value;
      if !T.Verifies(Tables(), now, c) { return HttpError(401, "invalid refresh"); }
      if c.user !in active { return HttpError(401, "invalid user"); }
      var row := T.MappingFor(Tables(), c.user, c.jti);
      if row.None? { return HttpError(401, "invalid refresh"); }
      var mapping := mappings[row.value];
      if req.token == "" { return HttpError(401, "session token required for refresh"); }
      var bound := T.MetaByDigest(Tables(), c.user, req.digest);
      if bound.None? || metas[bound.value].key == "" { return HttpError(401, "invalid session token"); }
      if mapping.key != metas[bound.value].key { return HttpError(401, "invalid refresh"); }
      var current := T.MetaByKey(Tables(), c.user, mapping.key);
      if current.Some? && metas[current.value].revokedAt.Some? { return HttpError(401, "invalid refresh"); }

      MintToken(minted);
      blacklist := blacklist + set q | q in outstanding && outstanding[q].jti == c.jti;
      mappings := mappings[row.value := mapping.(jti := minted.jti, expiresAt := Some(minted.exp))];
      r := Ok(row.value);
    }

    /** Blacklist the user's outstanding token with this jti, if it is still on record. */
    method BlacklistForUser(user: T.UserId, jti: T.Jti)
      modifies this`blacklist
      ensures Tables() == T.BlacklistUserJti(old(Tables()), user, jti)
    {
      blacklist := blacklist + set q | q in outstanding && outstanding[q].jti == jti && outstanding[q].user == user;
    }

    /** The loop `logout_current` and `_blacklist_session_tokens` share. */
    method RevokeSessionRows(user: T.UserId, key: string, at: T.Time)
      modifies this`mappings, this`blacklist
      ensures Tables() == T.RevokeRows(old(Tables()), user, key, at)
    {
      hide T.RevokeSome;
      ghost var before := Tables();
      var rows := T.LiveRows(Tables(), user, key);
      var todo := rows;
      RevokeNone(before, user, at);
      assert rows - todo == {};
      while todo != {}
        invariant todo <= rows
        invariant Tables() == T.RevokeSome(before, user, rows - todo, at)
        decreases |todo|
      {
        var p := Least(todo);
        RevokeOneMore(before, user, rows - todo, p, at);
        RevokeSomeLeavesOthers(before, user, rows - todo, p, at);
        BlacklistForUser(user, mappings[p].jti);
        mappings := mappings[p := mappings[p].(revokedAt := Some(at))];
        assert rows - (todo - {p}) == rows - todo + {p};
        todo := todo - {p};
      }
      assert rows - todo == rows;
    }

    /** Close a session meta at logout, keeping an earlier revocation's time and reason. */
    method CloseMeta(p: nat, now: T.Time, digest: string)
      requires p in metas
      modifies this`metas
      ensures Tables() == old(Tables()).(metas := old(metas)[p := T.EndedByLogout(old(metas)[p], now, digest)])
    {
      var meta := metas[p];
      if digest != "" && meta.digest == "" {
        meta := meta.(digest := digest);
      }
      if meta.revokedAt.None? {
        meta := meta.(revokedAt := Some(now));
      }
      if meta.reason == "" {
        meta := meta.(reason := "logout");
      }
      metas := metas[p := meta];
    }

    method LogoutCurrent(now: T.Time, user: T.UserId, req: T.Request)
      modifies this
      ensures Tables() == T.Logout(old(Tables()), now, user, req)
    {
      var key := req.djKey;
      if key == "" {
        var meta := T.ResolveMeta(Tables(), user, req);
        if meta.Some? { key := metas[meta.value].key; }
      }
      if key != "" {
        var p := GetOrCreateMeta(now, user, key, req.digest);
        CloseMeta(p, now, req.digest);
        RevokeSessionRows(user, key, now);
      }
      djSessions := djSessions - {req.djKey};
    }

    /** `_revoke_session_key`. */
    method RevokeSessionKey(now: T.Time, user: T.UserId, req: T.Request, key: string, reason: string)
      modifies this
      ensures Tables() == T.RevokeKey(old(Tables()), now, user, key, reason)
    {
      var backed := (user, key) in userSessions;
      if backed {
        userSessions := userSessions - {(user, key)};
        djSessions := djSessions - {key};
      }
      var p := GetOrCreateMeta(now, user, key, "");
      metas := metas[p := metas[p].(revokedAt := Some(now), reason := reason)];
      RevokeSessionRows(user, key, now);
      if req.djKey == key {
        djSessions := djSessions - {key};
      } else if !backed {
        // the meta row just written makes the session owned
        djSessions := djSessions - {key};
      }
      assert userSessions == old(userSessions) - {(user, key)};
      assert djSessions == old(djSessions) - {key};
    }

    method RevokeBulk(now: T.Time, user: T.UserId, req: T.Request, ids: set<string>,
                      allExceptCurrent: bool, reason: string) returns (r: Outcome<T.BulkReport>)
      modifies this
      ensures (Tables(), r) == T.RevokeBulk(old(Tables()), now, user, req, ids, allExceptCurrent, reason)
    {
      hide T.Guard, T.Touch, T.CurrentKey, T.Candidates, T.RevokeKey;
      var refused := T.Guard(Tables(), req);
      if refused.Some? { return HttpError(401, refused.value); }
      Touch(now, user, req);
      if ids != {} && allExceptCurrent {
        return HttpError(400, "Use either ids or all_except_current, not both");
      }
      if ids == {} && !allExceptCurrent {
        return HttpError(400, "Either ids or all_except_current=true is required");
      }
      var current := T.CurrentKey(Tables(), user, req);
      if allExceptCurrent && current == "" {
        return HttpError(409, "current session is not resolvable for bulk revoke");
      }
      var keys := T.Candidates(Tables(), user, ids, allExceptCurrent, current);
      var revoked, skipped := [], [];
      ghost var t1 := Tables();
      for i := 0 to |keys|
        invariant T.Sweep(t1, now, user, keys[..i], reason) == T.Swept(Tables(), revoked, skipped)
      {
        ghost var done := keys[..i + 1];
        assert done[..|done| - 1] == keys[..i] && done[|done| - 1] == keys[i];
        var meta := T.MetaByKey(Tables(), user, keys[i]);
        if meta.Some? && metas[meta.value].revokedAt.Some? && (user, keys[i]) !in userSessions {
          skipped := skipped + [keys[i]];
        } else {
          RevokeSessionKey(now, user, req, keys[i], reason);
          revoked := revoked + [keys[i]];
        }
      }
      assert keys[..|keys|] == keys;
      r := Ok(T.BulkReport(current, revoked, skipped));
    }

    method RevokeSingle(now: T.Time, user: T.UserId, req: T.Request, key: string, reason: string)
        returns (r: Outcome<string>)
      modifies this
      ensures (Tables(), r) == T.RevokeSingle(old(Tables()), now, user, req, key, reason)
    {
      var refused := T.Guard(Tables(), req);
      if refused.Some? { return HttpError(401, refused.value); }
      Touch(now, user, req);
      var meta := T.MetaByKey(Tables(), user, key);
      if (user, key) !in userSessions && meta.None? { return HttpError(404, "session not found"); }
      RevokeSessionKey(now, user, req, key, reason);
      r := Ok(key);
    }

    /** Roll back to earlier tables. */
    method Restore(before: T.Tables)
      modifies this
      ensures Tables() == before
    {
      metas, mappings, outstanding, blacklist := before.metas, before.mappings, before.outstanding, before.blacklist;
      userSessions, djSessions, nextPk, signed := before.userSessions, before.djSessions, before.nextPk, before.signed;
    }

    method ChangePassword(now: T.Time, user: T.UserId, req: T.Request, same: bool, valid: bool, logoutCurrent: bool)
        returns (r: Outcome<bool>)
      modifies this
      ensures (Tables(), r) == T.ChangePassword(old(Tables()), now, user, req, same, valid, logoutCurrent)
    {
      hide T.RevokeBulk, T.Logout;
      if same { return HttpError(400, "new password must differ from current"); }
      if !valid { return HttpError(400, "invalid form"); }
      var before := Tables();
      var report := RevokeBulk(now, user, req, {}, true, T.PASSWORD_REASON);
      if !report.Ok? {
        Restore(before);
        return if report.HttpError? then HttpError(report.status, report.detail) else IntegrityError;
      }
      if logoutCurrent { LogoutCurrent(now, user, req); }
      r := Ok(logoutCurrent);
    }

    // -------------------------------------------------------------- maintenance commands

    /** One `purge()` per allauth session, counting those that went. */
    method PurgeAllauthSessions() returns (purged: nat)
      modifies this`userSessions
      ensures Tables() == T.PurgeUserSessions(old(Tables()))
      ensures purged == |old(userSessions)| - |userSessions|
    {
      purged := 0;
      var todo := userSessions;
      while todo != {}
        invariant todo <= userSessions <= old(userSessions)
        invariant purged == |old(userSessions)| - |userSessions|
        invariant forall s | s in old(userSessions) :: s in userSessions <==> s in todo || s.1 in djSessions
        decreases |todo|
      {
        var s :| s in todo;
        todo := todo - {s};
        if s.1 !in djSessions {
          userSessions := userSessions - {s};
          purged := purged + 1;
        }
      }
      assert userSessions == T.PurgeUserSessions(old(Tables())).userSessions;
    }

    method PurgeMetas(cutoff: T.Time)
      modifies this`metas
      ensures Tables() == T.PurgeMetas(old(Tables()), cutoff)
    {
      var expired := set p | p in metas && metas[p].key !in djSessions && T.LastActivity(metas[p]) < cutoff;
      metas := metas - expired;
      var revoked := set p | p in metas && metas[p].revokedAt.Some? && metas[p].revokedAt.value < cutoff;
      metas := metas - revoked;
      assert metas == T.PurgeMetas(old(Tables()), cutoff).metas;
    }

    method PurgeJwtRecords(cutoff: T.Time)
      modifies this`blacklist, this`outstanding
      ensures Tables() == T.PurgeJwtRecords(old(Tables()), cutoff)
    {
      blacklist := blacklist - set q | q in outstanding && outstanding[q].expiresAt < cutoff;
      outstanding := outstanding - set q | q in outstanding && outstanding[q].expiresAt < cutoff;
      assert blacklist == T.PurgeBlacklist(old(Tables()), cutoff).blacklist;
      assert outstanding == T.PurgeOutstanding(old(Tables()), cutoff).outstanding;
    }

    method PurgeTokenMappings(now: T.Time, cutoff: T.Time)
      modifies this`mappings
      ensures Tables() == T.PurgeMappings(old(Tables()), now, cutoff)
    {
      var stale := set p | p in mappings && T.Stale(Tables(), mappings[p], now, cutoff);
      mappings := mappings - stale;
      assert mappings == T.PurgeMappings(old(Tables()), now, cutoff).mappings;
    }

    /** `cleanup_auth_data`: sessions, metas, blacklist, outstanding, mappings, in that order. */
    method CleanupAuthData(now: T.Time, sessionRetention: int, tokenRetention: int)
      modifies this
      ensures Tables() == T.Cleanup(old(Tables()), now, now - sessionRetention, now - tokenRetention)
    {
      hide T.PurgeUserSessions, T.PurgeMetas, T.PurgeJwtRecords, T.PurgeMappings;
      var purged := PurgeAllauthSessions();
      PurgeMetas(now - sessionRetention);
      PurgeJwtRecords(now - tokenRetention);
      PurgeTokenMappings(now, now - tokenRetention);
    }

    /** The next batch of outstanding tokens above `lastPk` that are not blacklisted. */
    method NextBatch(lastPk: nat) returns (batch: seq<nat>)
      ensures forall q | q in batch :: q in outstanding && q !in blacklist && q > lastPk
      ensures batch == [] ==> forall q | q in outstanding && q > lastPk :: q in blacklist
      ensures batch != [] ==> forall q | q in outstanding && lastPk < q <= batch[|batch| - 1] :: q in blacklist || q in batch
      ensures |batch| <= BLACKLIST_BATCH_SIZE
    {
      var pending := set q | q in outstanding && q !in blacklist && q > lastPk;
      batch := Smallest(pending, BLACKLIST_BATCH_SIZE);
      if batch == [] {
        assert forall q | q in outstanding && q > lastPk :: q !in pending ==> q in blacklist;
      } else {
        BatchIsDownwardClosed(pending, BLACKLIST_BATCH_SIZE);
        assert forall q | q in outstanding && lastPk < q && q !in blacklist :: q in pending;
      }
    }

    /** The keyset-batched loop of `invalidate_legacy_auth_sessions`: walk the outstanding
        tokens upwards in batches, blacklisting those that are not yet. */
    method BlacklistOutstanding()
      requires forall q | q in outstanding :: 0 < q
      modifies this`blacklist
      ensures blacklist == old(blacklist) + outstanding.Keys
    {
      var lastPk := 0;
      while true
        invariant old(blacklist) <= blacklist <= old(blacklist) + outstanding.Keys
        invariant forall q | q in outstanding && q <= lastPk :: q in blacklist
        decreases outstanding.Keys - blacklist
      {
        var batch := NextBatch(lastPk);
        if batch == [] { break; }
        assert batch[0] in batch && batch[|batch| - 1] in batch;
        blacklist := blacklist + set q | q in batch;
        lastPk := batch[|batch| - 1];
      }
    }

    method InvalidateLegacySessions(now: T.Time)
      requires forall q | q in outstanding :: 0 < q
      modifies this
      ensures Tables() == T.InvalidateAll(old(Tables()), now)
    {
      djSessions := {};
      userSessions := {};
      metas := map p | p in metas ::
        if metas[p].revokedAt.None?
        then metas[p].(revokedAt := Some(now), reason := T.CUTOVER_REASON) else metas[p];
      mappings := map p | p in mappings ::
        if mappings[p].revokedAt.None? then mappings[p].(revokedAt := Some(now)) else mappings[p];
      BlacklistOutstanding();
    }
  }
}
