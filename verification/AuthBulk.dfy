/** What a bulk revocation leaves behind. */
module AuthBulk {
  import opened Prelude
  import opened AuthTables
  import opened AuthInvariant
  import opened AuthRuns

  /** Every row of sessions other than those in `keys`, and of other users, is as before. */
  ghost predicate RestUntouched(t: Tables, t1: Tables, user: UserId, keys: set<string>) {
    && t1.outstanding == t.outstanding && t1.signed == t.signed && t.blacklist <= t1.blacklist
    && t1.mappings.Keys == t.mappings.Keys
    && (forall p | p in t.mappings && !(t.mappings[p].user == user && t.mappings[p].key in keys) ::
          t1.mappings[p] == t.mappings[p])
    && t.metas.Keys <= t1.metas.Keys
    && (forall p | p in t.metas && !(t.metas[p].user == user && t.metas[p].key in keys) :: t1.metas[p] == t.metas[p])
    && (forall p | p in t1.metas && p !in t.metas :: t1.metas[p].user == user && t1.metas[p].key in keys)
    && (forall p | p in t.metas :: t1.metas[p].user == t.metas[p].user && t1.metas[p].key == t.metas[p].key)
    && (forall p | p in t.mappings :: t1.mappings[p].(revokedAt := None) == t.mappings[p].(revokedAt := None))
    && (forall s | s in t.userSessions && !(s.0 == user && s.1 in keys) :: s in t1.userSessions)
    && t1.userSessions <= t.userSessions && t1.djSessions <= t.djSessions
    && t.djSessions - keys <= t1.djSessions
  }

  lemma MetaWriteTouchesOneSession(t: Tables, t1: Tables, user: UserId, key: string, p: nat)
    requires t1 == t.(metas := t1.metas, nextPk := t1.nextPk) && t1.metas.Keys == t.metas.Keys + {p}
    requires t1.metas[p].user == user && t1.metas[p].key == key
    requires p in t.metas ==> t.metas[p].user == user && t.metas[p].key == key
    requires forall q | q in t.metas && q != p :: t1.metas[q] == t.metas[q]
    ensures RestUntouched(t, t1, user, {key})
  {
  }

  lemma RevokeRowsTouchesOneSession(t: Tables, user: UserId, key: string, at: Time)
    ensures RestUntouched(t, RevokeRows(t, user, key, at), user, {key})
  {
  }

  lemma RevokeKeyTouchesOneSession(t: Tables, now: Time, user: UserId, key: string, reason: string)
    requires Consistent(t, now)
    ensures RestUntouched(t, RevokeKey(t, now, user, key, reason), user, {key})
  {
    hide Consistent, RestUntouched, RevokeRows, EnsureMeta;
    var t1 := t.(userSessions := t.userSessions - {(user, key)});
    assert Consistent(t1, now) by { SessionsDoNotMatter(t, t1, now); }
    EnsureMetaKeeps(t1, now, user, key, "");
    var p := EnsureMeta(t1, now, user, key, "").1;
    var t2 := MarkRevoked(t1, now, user, key, reason);
    var t3 := RevokeRows(t2, user, key, now);
    var t4 := t3.(djSessions := t3.djSessions - {key});
    MetaWriteTouchesOneSession(t1, t2, user, key, p);
    RevokeRowsTouchesOneSession(t2, user, key, now);
    assert RestUntouched(t, t1, user, {key}) && RestUntouched(t3, t4, user, {key}) by {
      SessionWriteTouchesOneSession(t, t1, user, key);
      SessionWriteTouchesOneSession(t3, t4, user, key);
    }
    RestUntouchedChains(t, t1, t2, user, {key}, {key});
    RestUntouchedChains(t, t2, t3, user, {key}, {key});
    RestUntouchedChains(t, t3, t4, user, {key}, {key});
    assert {key} + {key} == {key};
  }

  lemma SessionWriteTouchesOneSession(t: Tables, t1: Tables, user: UserId, key: string)
    requires t1 == t.(userSessions := t1.userSessions, djSessions := t1.djSessions)
    requires t.userSessions - {(user, key)} <= t1.userSessions <= t.userSessions
    requires t.djSessions - {key} <= t1.djSessions <= t.djSessions
    ensures RestUntouched(t, t1, user, {key})
  {
  }

  lemma RestUntouchedChains(t: Tables, t1: Tables, t2: Tables, user: UserId, keys: set<string>, more: set<string>)
    requires RestUntouched(t, t1, user, keys) && RestUntouched(t1, t2, user, more)
    ensures RestUntouched(t, t2, user, keys + more)
  {
  }

  ghost predicate Closed(t: Tables, user: UserId, key: string) {
    KeyRevoked(t, user, key) && LiveRows(t, user, key) == {}
  }

  /** A later revocation of other sessions leaves a closed session closed. */
  lemma ClosedStaysClosed(t: Tables, t1: Tables, user: UserId, key: string, keys: set<string>)
    requires Closed(t, user, key) && RestUntouched(t, t1, user, keys) && key !in keys
    ensures Closed(t1, user, key)
  {
    var p :| p in t.metas && t.metas[p].user == user && t.metas[p].key == key && t.metas[p].revokedAt.Some?;
    assert t1.metas[p] == t.metas[p];
    forall q | q in t1.mappings ensures !LiveRow(t1.mappings[q], user, key) {
      assert q !in LiveRows(t, user, key);
    }
  }

  /** A skipped session is closed already: the table invariant says so. */
  lemma SkippedIsClosed(t: Tables, now: Time, user: UserId, key: string)
    requires Consistent(t, now) && Skips(t, user, key)
    ensures Closed(t, user, key)
  {
    var p := MetaByKey(t, user, key).value;
    assert p in MetasByKey(t, user, key);
    forall q | q in t.mappings && t.mappings[q].user == user && t.mappings[q].key == key
      ensures t.mappings[q].revokedAt.Some?
    {
      assert KeyRevoked(t, user, key);
    }
  }

  ghost predicate NoRepeats(s: seq<string>) {
    forall i, j | 0 <= i < j < |s| :: s[i] != s[j]
  }

  ghost function Elements(s: seq<string>): set<string> {
    set x | x in s
  }

  lemma {:induction false} SweepCloses(t: Tables, now: Time, user: UserId, keys: seq<string>, reason: string)
    requires Consistent(t, now) && NoRepeats(keys)
    ensures var s := Sweep(t, now, user, keys, reason);
            && NoRepeats(s.revoked) && NoRepeats(s.skipped)
            && Elements(s.revoked) !! Elements(s.skipped)
            && Elements(s.revoked) + Elements(s.skipped) == Elements(keys)
            && RestUntouched(t, s.tables, user, Elements(s.revoked))
            && forall key | key in keys :: Closed(s.tables, user, key)
  {
    hide Consistent, RevokeKey, Skips, Closed, RestUntouched;
    if keys == [] {
      assert RestUntouched(t, t, user, {}) by { RestUntouchedByNothing(t, user); }
      assert Elements([]) == {};
    } else {
      var front := keys[..|keys| - 1];
      var key := keys[|keys| - 1];
      assert Elements(keys) == Elements(front) + {key} && key !in Elements(front);
      SweepCloses(t, now, user, front, reason);
      SweepKeeps(t, now, user, front, reason);
      var s := Sweep(t, now, user, front, reason);
      var s1 := Sweep(t, now, user, keys, reason);
      if Skips(s.tables, user, key) {
        SkippedIsClosed(s.tables, now, user, key);
        assert Elements(s1.skipped) == Elements(s.skipped) + {key};
      } else {
        RevokeKeyTouchesOneSession(s.tables, now, user, key, reason);
        RevokeKeyKeeps(s.tables, now, user, key, reason);
        RestUntouchedChains(t, s.tables, s1.tables, user, Elements(s.revoked), {key});
        assert Elements(s1.revoked) == Elements(s.revoked) + {key};
        assert Closed(s1.tables, user, key) by { ClosedIntro(s1.tables, user, key); }
        forall other | other in front ensures Closed(s1.tables, user, other) {
          ClosedStaysClosed(s.tables, s1.tables, user, other, {key});
        }
      }
    }
  }

  lemma RestUntouchedByNothing(t: Tables, user: UserId)
    ensures RestUntouched(t, t, user, {})
  {
  }

  lemma ClosedIntro(t: Tables, user: UserId, key: string)
    requires KeyRevoked(t, user, key) && LiveRows(t, user, key) == {}
    ensures Closed(t, user, key)
  {
  }

  /** "Sign out everywhere else": the two id lists partition the known sessions other
      than the current one, each of those ends revoked with no live token row, and
      neither the current session nor any other user notices. */
  lemma EverywhereElseIsClosed(t: Tables, now: Time, user: UserId, req: Request, reason: string)
    requires Consistent(t, now)
    requires RevokeBulk(t, now, user, req, {}, true, reason).1.Ok?
    ensures var t1 := Touch(t, now, user, req);
            var (t2, out) := RevokeBulk(t, now, user, req, {}, true, reason);
            var report := out.value;
            && report.current == CurrentKey(t1, user, req) != ""
            && NoRepeats(report.revoked) && NoRepeats(report.skipped)
            && Elements(report.revoked) !! Elements(report.skipped)
            && Elements(report.revoked) + Elements(report.skipped) == KnownKeys(t1, user) - {report.current, ""}
            && (forall key | key in KnownKeys(t1, user) - {report.current, ""} :: Closed(t2, user, key))
            && RestUntouched(t1, t2, user, Elements(report.revoked))
            && report.current !in Elements(report.revoked)
  {
    hide Consistent, Touch, Closed, RestUntouched, Sweep, Guard;
    TouchKeeps(t, now, user, req);
    var t1 := Touch(t, now, user, req);
    var current := CurrentKey(t1, user, req);
    var keys := Candidates(t1, user, {}, true, current);
    assert Elements(keys) == KnownKeys(t1, user) - {current, ""};
    SweepCloses(t1, now, user, keys, reason);
  }

  /** Changing the password and logging out as well closes every known session. */
  lemma PasswordChangeWithLogoutClosesAll(t: Tables, now: Time, user: UserId, req: Request, reason: string)
    requires Consistent(t, now)
    requires RevokeBulk(t, now, user, req, {}, true, reason).1.Ok?
    ensures var t1 := Touch(t, now, user, req);
            var t3 := Logout(RevokeBulk(t, now, user, req, {}, true, reason).0, now, user, req);
            forall key | key in KnownKeys(t1, user) - {""} :: Closed(t3, user, key)
  {
    hide Consistent, Touch, Closed, RestUntouched, Sweep, Guard, LogoutSession, DigestsKept, LogoutKey;
    EverywhereElseIsClosed(t, now, user, req, reason);
    RevokeBulkKeeps(t, now, user, req, {}, true, reason);
    TouchKeeps(t, now, user, req);
    var t1 := Touch(t, now, user, req);
    var (t2, out) := RevokeBulk(t, now, user, req, {}, true, reason);
    var current := out.value.current;
    SweepKeepsDigests(t1, now, user, Candidates(t1, user, {}, true, current), reason);
    LogoutActsOnCurrent(t1, t2, user, req);
    LogoutSessionKeeps(t2, now, user, current, req.digest);
    LogoutTouchesOneSession(t2, now, user, current, req.digest);
    var t4 := LogoutSession(t2, now, user, current, req.digest);
    var t3 := t4.(djSessions := t4.djSessions - {req.djKey});
    assert Closed(t4, user, current) by { ClosedIntro(t4, user, current); }
    forall key | key in KnownKeys(t1, user) - {""} ensures Closed(t3, user, key) {
      if key != current { ClosedStaysClosed(t2, t4, user, key, {current}); }
      ClosedIgnoresSessions(t4, t3, user, key);
    }
  }

  /** Changing the password either changes nothing, or closes every other known session, and with
      the logout asked for every known session; the tables stay consistent either way. */
  lemma PasswordChangeCloses(t: Tables, now: Time, user: UserId, req: Request, same: bool, valid: bool, logoutCurrent: bool)
    requires Consistent(t, now)
    ensures var (t1, r) := ChangePassword(t, now, user, req, same, valid, logoutCurrent);
            var touched := Touch(t, now, user, req);
            && Consistent(t1, now)
            && (!r.Ok? ==> t1 == t)
            && (r.Ok? ==> forall key | key in KnownKeys(touched, user) - {""} ::
                  (!logoutCurrent && key == CurrentKey(touched, user, req)) || Closed(t1, user, key))
  {
    hide Consistent, Touch, Closed, RestUntouched, RevokeBulk, Logout, KnownKeys;
    var (t1, r) := ChangePassword(t, now, user, req, same, valid, logoutCurrent);
    if r.Ok? {
      EverywhereElseIsClosed(t, now, user, req, PASSWORD_REASON);
      PasswordChangeWithLogoutClosesAll(t, now, user, req, PASSWORD_REASON);
      RevokeBulkKeeps(t, now, user, req, {}, true, PASSWORD_REASON);
      LogoutKeeps(RevokeBulk(t, now, user, req, {}, true, PASSWORD_REASON).0, now, user, req);
    }
  }

  lemma ClosedIgnoresSessions(t: Tables, t1: Tables, user: UserId, key: string)
    requires Closed(t, user, key) && t1 == t.(djSessions := t1.djSessions)
    ensures Closed(t1, user, key)
  {
    assert LiveRows(t1, user, key) == LiveRows(t, user, key);
  }

  /** No digest changed, and rows created since carry none. */
  ghost predicate DigestsKept(t: Tables, t1: Tables) {
    && (forall p | p in t.metas :: p in t1.metas && t1.metas[p].digest == t.metas[p].digest
                                    && t1.metas[p].user == t.metas[p].user && t1.metas[p].key == t.metas[p].key)
    && (forall p | p in t1.metas && p !in t.metas :: t1.metas[p].digest == "")
  }

  lemma {:induction false} SweepKeepsDigests(t: Tables, now: Time, user: UserId, keys: seq<string>, reason: string)
    requires Consistent(t, now)
    ensures DigestsKept(t, Sweep(t, now, user, keys, reason).tables)
  {
    hide Sound;
    if keys != [] {
      SweepKeepsDigests(t, now, user, keys[..|keys| - 1], reason);
      SweepKeeps(t, now, user, keys[..|keys| - 1], reason);
      var s := Sweep(t, now, user, keys[..|keys| - 1], reason);
      RevokeKeyKeepsDigests(s.tables, now, user, keys[|keys| - 1], reason);
    }
  }

  lemma RevokeKeyKeepsDigests(t: Tables, now: Time, user: UserId, key: string, reason: string)
    requires Consistent(t, now)
    ensures DigestsKept(t, RevokeKey(t, now, user, key, reason))
  {
    hide Sound;
  }

  /** The session a logout resolves is the one the bulk revocation spared. */
  lemma LogoutActsOnCurrent(t1: Tables, t2: Tables, user: UserId, req: Request)
    requires DigestsKept(t1, t2) && CurrentKey(t1, user, req) != ""
    ensures LogoutKey(t2, user, req) == CurrentKey(t1, user, req)
  {
    if req.djKey == "" {
      assert req.digest != "" ==> MetasByDigest(t2, user, req.digest) == MetasByDigest(t1, user, req.digest);
    }
  }

  lemma LogoutTouchesOneSession(t: Tables, now: Time, user: UserId, key: string, digest: string)
    requires Consistent(t, now)
    ensures RestUntouched(t, LogoutSession(t, now, user, key, digest), user, {key})
  {
    hide Consistent, RestUntouched, RevokeRows, EnsureMeta;
    EnsureMetaKeeps(t, now, user, key, digest);
    var (t1, p) := EnsureMeta(t, now, user, key, digest);
    var t2 := t1.(metas := t1.metas[p := EndedByLogout(t1.metas[p], now, digest)]);
    MetaWriteTouchesOneSession(t, t2, user, key, p);
    RevokeRowsTouchesOneSession(t2, user, key, now);
    RestUntouchedChains(t, t2, LogoutSession(t, now, user, key, digest), user, {key}, {key});
    assert {key} + {key} == {key};
  }
}
