/** The steps that race are the operations taken apart: run without interruption, they do what the
    whole operation does. */
module AuthRaceSteps {
  import opened Prelude
  import opened AuthTables
  import opened AuthRaces

  function RowsOf(order: seq<nat>): set<nat> {
    set p | p in order
  }

  /** Blacklist and stamp, n times over. */
  function Stamping(pid: nat, n: nat): seq<Event> {
    if n == 0 then [] else [BlacklistSeen(pid), StampSeen(pid)] + Stamping(pid, n - 1)
  }

  lemma RunTwo(w: World, a: Event, b: Event, rest: seq<Event>)
    ensures Run(w, [a, b] + rest) == Run(Step(Step(w, a), b), rest)
  {
    hide Step;
    assert ([a, b] + rest)[1..] == [b] + rest;
    assert ([b] + rest)[1..] == rest;
    assert Run(w, [a, b] + rest) == Run(Step(w, a), [b] + rest);
  }

  /** The revocation has read these rows of `t0` and dealt with the first k of them. */
  ghost predicate Halfway(w: World, pid: nat, t0: Tables, r: Revoker, order: seq<nat>, k: nat) {
    && k <= |order| && (forall i | 0 <= i < |order| :: order[i] in t0.mappings)
    && w.t == RevokeSome(t0, r.user, RowsOf(order[..k]), r.at)
    && pid in w.revokers && w.revokers[pid].user == r.user && w.revokers[pid].at == r.at
    && (k < |order| ==> w.revokers[pid].stage.Working? && w.revokers[pid].stage.todo == Read(t0, order)[k..]
                        && !w.revokers[pid].stage.blacklisted)
    && (k == |order| ==> w.revokers[pid].stage.Finished?)
  }

  lemma StampOne(t0: Tables, user: UserId, order: seq<nat>, k: nat, at: Time)
    requires k < |order| && forall i | 0 <= i < |order| :: order[i] in t0.mappings
    ensures var t := BlacklistUserJti(RevokeSome(t0, user, RowsOf(order[..k]), at), user, t0.mappings[order[k]].jti);
            order[k] in t.mappings && StampRevoked(t, order[k], at) == RevokeSome(t0, user, RowsOf(order[..k + 1]), at)
  {
    var before, after := RowsOf(order[..k]), RowsOf(order[..k + 1]);
    assert after == before + {order[k]} by { assert order[..k + 1] == order[..k] + [order[k]]; }
    hide RowsOf;
    var t := BlacklistUserJti(RevokeSome(t0, user, before, at), user, t0.mappings[order[k]].jti);
    assert StampRevoked(t, order[k], at).mappings == RevokeSome(t0, user, after, at).mappings;
    assert t.blacklist == RevokeSome(t0, user, after, at).blacklist;
  }

  lemma StampStep(w: World, pid: nat, t0: Tables, r: Revoker, order: seq<nat>, k: nat)
    requires k < |order| && Halfway(w, pid, t0, r, order, k)
    ensures Halfway(Step(Step(w, BlacklistSeen(pid)), StampSeen(pid)), pid, t0, r, order, k + 1)
  {
    hide RevokeSome, BlacklistUserJti, StampRevoked, RowsOf;
    var seen := Read(t0, order);
    assert seen[k..][0] == Seen(order[k], t0.mappings[order[k]].jti) && seen[k..][1..] == seen[k + 1..];
    StampOne(t0, r.user, order, k, r.at);
  }

  lemma {:induction false} StampingFinishes(w: World, pid: nat, t0: Tables, r: Revoker, order: seq<nat>, k: nat)
    requires Halfway(w, pid, t0, r, order, k)
    ensures Halfway(Run(w, Stamping(pid, |order| - k)), pid, t0, r, order, |order|)
    decreases |order| - k
  {
    hide Step, Halfway;
    if k < |order| {
      StampStep(w, pid, t0, r, order, k);
      RunTwo(w, BlacklistSeen(pid), StampSeen(pid), Stamping(pid, |order| - k - 1));
      StampingFinishes(Step(Step(w, BlacklistSeen(pid)), StampSeen(pid)), pid, t0, r, order, k + 1);
    } else {
      HalfwayBounds(w, pid, t0, r, order, k);
    }
  }

  lemma HalfwayBounds(w: World, pid: nat, t0: Tables, r: Revoker, order: seq<nat>, k: nat)
    requires Halfway(w, pid, t0, r, order, k)
    ensures k <= |order|
  {
  }

  /** Marking a session, reading its rows in any order, and blacklisting and stamping each of them, with
      nothing in between, is revoking the session, its allauth and Django rows aside. */
  lemma UninterruptedIsRevoke(w: World, pid: nat, user: UserId, key: string, reason: string, order: seq<nat>)
    requires pid !in w.revokers && Enumerates(order, LiveRows(w.t, user, key))
    ensures var w1 := Run(w, [MarkSession(pid, user, key, reason), ReadRows(pid, order)] + Stamping(pid, |order|));
            && pid in w1.revokers && w1.revokers[pid].stage.Finished?
            && w1.t.(userSessions := w.t.userSessions - {(user, key)}, djSessions := w.t.djSessions - {key})
               == RevokeKey(w.t, w.now, user, key, reason)
  {
    hide Run, Stamping, Step, Halfway, Enumerates, LiveRows, MarkRevoked, RevokeKey, RevokeRows;
    var r := Revoker(user, key, w.now, Marked);
    var t0 := MarkRevoked(w.t, w.now, user, key, reason);
    var read := Step(Step(w, MarkSession(pid, user, key, reason)), ReadRows(pid, order));
    RunTwo(w, MarkSession(pid, user, key, reason), ReadRows(pid, order), Stamping(pid, |order|));
    MarkingKeepsRows(w.t, w.now, user, key, reason);
    ReadIsHalfway(w, pid, user, key, reason, order);
    StampingFinishes(read, pid, t0, r, order, 0);
    HalfwayEnds(Run(read, Stamping(pid, |order|)), pid, t0, r, order);
    SessionsAside(w.t, w.now, user, key, reason);
  }

  lemma HalfwayEnds(w: World, pid: nat, t0: Tables, r: Revoker, order: seq<nat>)
    requires Halfway(w, pid, t0, r, order, |order|) && Enumerates(order, LiveRows(t0, r.user, r.key))
    ensures pid in w.revokers && w.revokers[pid].stage.Finished? && w.t == RevokeRows(t0, r.user, r.key, r.at)
  {
    assert order[..|order|] == order;
    assert RowsOf(order) == LiveRows(t0, r.user, r.key);
  }

  lemma MarkingKeepsRows(t: Tables, now: Time, user: UserId, key: string, reason: string)
    ensures var t0 := MarkRevoked(t, now, user, key, reason);
            t0.mappings == t.mappings && LiveRows(t0, user, key) == LiveRows(t, user, key)
  {
    hide MetaByKey;
  }

  lemma ReadIsHalfway(w: World, pid: nat, user: UserId, key: string, reason: string, order: seq<nat>)
    requires pid !in w.revokers && Enumerates(order, LiveRows(w.t, user, key))
    ensures var t0 := MarkRevoked(w.t, w.now, user, key, reason);
            Halfway(Step(Step(w, MarkSession(pid, user, key, reason)), ReadRows(pid, order)), pid, t0,
                    Revoker(user, key, w.now, Marked), order, 0)
  {
    hide MetaByKey, LiveRows, MarkRevoked, RevokeSome, SessionRows, Enumerates;
    MarkingKeepsRows(w.t, w.now, user, key, reason);
    var t0 := MarkRevoked(w.t, w.now, user, key, reason);
    EnumeratedExist(t0, user, key, order);
    assert Read(t0, order)[0..] == Read(t0, order);
    assert order[..0] == [];
    NoneRevoked(t0, user, w.now);
  }

  lemma EnumeratedExist(t: Tables, user: UserId, key: string, order: seq<nat>)
    requires Enumerates(order, LiveRows(t, user, key))
    ensures forall i | 0 <= i < |order| :: order[i] in t.mappings
  {
  }

  lemma NoneRevoked(t: Tables, user: UserId, at: Time)
    ensures RevokeSome(t, user, RowsOf([]), at) == t
  {
    assert RevokeSome(t, user, RowsOf([]), at).mappings == t.mappings;
    assert RevokeSome(t, user, RowsOf([]), at).blacklist == t.blacklist;
  }

  lemma SessionsAside(t: Tables, now: Time, user: UserId, key: string, reason: string)
    ensures var t0 := MarkRevoked(t, now, user, key, reason);
            RevokeKey(t, now, user, key, reason)
              == RevokeRows(t0, user, key, now).(userSessions := t.userSessions - {(user, key)}, djSessions := t.djSessions - {key})
  {
    var u := t.(userSessions := t.userSessions - {(user, key)});
    assert MetasByKey(u, user, key) == MetasByKey(t, user, key);
    hide MetasByKey;
    var t0 := MarkRevoked(t, now, user, key, reason);
    assert MarkRevoked(u, now, user, key, reason) == t0.(userSessions := u.userSessions);
    hide MarkRevoked;
    assert LiveRows(t0.(userSessions := u.userSessions), user, key) == LiveRows(t0, user, key);
  }

  /** Checking a token and committing its exchange at once is refreshing. */
  lemma UninterruptedIsRefresh(w: World, pid: nat, presented: Claims, active: set<UserId>, req: Request, minted: Claims)
    requires pid !in w.refreshers && minted.jti !in w.t.signed && minted.user == presented.user
    ensures Run(w, [CheckToken(pid, presented), CommitRefresh(pid, active, req, minted)] + []).t
         == Refresh(w.t, w.now, active, req, Some(presented), minted).0
  {
    hide Run, Verifies, MappingFor, MetaByDigest, MetaByKey, MoveRow;
    RunTwo(w, CheckToken(pid, presented), CommitRefresh(pid, active, req, minted), []);
    RunNone(Step(Step(w, CheckToken(pid, presented)), CommitRefresh(pid, active, req, minted)));
  }

  /** The four deletions of a cleanup, one after the other, are the cleanup. */
  lemma UninterruptedIsCleanup(w: World, sessionCutoff: Time, tokenCutoff: Time)
    ensures Run(w, [DeleteMetas(sessionCutoff), DeleteBlacklist(tokenCutoff)]
                   + ([DeleteOutstanding(tokenCutoff), DeleteMappings(w.now, tokenCutoff)] + [])).t
         == Cleanup(w.t, w.now, sessionCutoff, tokenCutoff)
  {
    hide Run, Step, Cleanup;
    var half := Step(Step(w, DeleteMetas(sessionCutoff)), DeleteBlacklist(tokenCutoff));
    RunTwo(w, DeleteMetas(sessionCutoff), DeleteBlacklist(tokenCutoff),
           [DeleteOutstanding(tokenCutoff), DeleteMappings(w.now, tokenCutoff)] + []);
    RunTwo(half, DeleteOutstanding(tokenCutoff), DeleteMappings(w.now, tokenCutoff), []);
    RunNone(Step(Step(half, DeleteOutstanding(tokenCutoff)), DeleteMappings(w.now, tokenCutoff)));
    CleanupSteps(w, sessionCutoff, tokenCutoff);
  }

  lemma CleanupSteps(w: World, sessionCutoff: Time, tokenCutoff: Time)
    ensures var half := Step(Step(w, DeleteMetas(sessionCutoff)), DeleteBlacklist(tokenCutoff));
            Step(Step(half, DeleteOutstanding(tokenCutoff)), DeleteMappings(w.now, tokenCutoff)).t
              == Cleanup(w.t, w.now, sessionCutoff, tokenCutoff)
  {
    hide PurgeUserSessions, PurgeMetas, PurgeBlacklist, PurgeOutstanding, PurgeMappings;
  }

  /** The steps that are whole operations: issuing, touching, logging out and invalidating; and time passing. */
  lemma WholeSteps(w: World, user: UserId, req: Request, minted: Claims, pid: nat, elapsed: nat)
    requires minted.jti !in w.t.signed && minted.user == user && pid !in w.revokers
    ensures Step(w, Issue(user, req, minted)).t == IssuePair(w.t, w.now, user, req, minted).0
    ensures Step(w, TouchSession(user, req)).t == Touch(w.t, w.now, user, req)
    ensures Step(w, LogoutLocked(pid, user, req)).t == Logout(w.t, w.now, user, req)
    ensures Step(w, InvalidateLegacy).t == InvalidateAll(w.t, w.now)
    ensures Step(w, Tick(elapsed)).t == w.t && Step(w, Tick(elapsed)).now == w.now + elapsed
  {
    hide IssuePair, Touch, Logout, LogoutKey, InvalidateAll;
    IssueFails(w, user, req, minted);
  }

  lemma IssueFails(w: World, user: UserId, req: Request, minted: Claims)
    requires minted.jti !in w.t.signed && minted.user == user
    ensures !IssuePair(w.t, w.now, user, req, minted).1.Ok? ==> IssuePair(w.t, w.now, user, req, minted).0 == w.t
  {
    hide BindMeta, MintFor;
  }

  lemma RunNone(w: World)
    ensures Run(w, []) == w
  {
  }
}
