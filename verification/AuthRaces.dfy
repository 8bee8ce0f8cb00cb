/** Requests interleaved at the granularity of their locks.

    A refresh checks its token, and later runs its locked section. A revocation marks
    the session, reads the session's rows without a lock, and then, row by row,
    blacklists the token it read and stamps the row; a refresh may rotate a row in
    between. Maintenance deletes table by table. Each step is visible at once. */
module AuthRaces {
  import opened Prelude
  import opened AuthTables

  /** A mapping as a revocation read it: the row may carry another token by now. */
  datatype Seen = Seen(row: nat, jti: Jti)

  datatype Stage =
    | Marked
    | Working(cover: set<nat>, todo: seq<Seen>, blacklisted: bool)
    | Finished(cover: set<nat>)
    | Failed

  datatype Revoker = Revoker(user: UserId, key: string, at: Time, stage: Stage)

  /** `carrier` remembers which row a token was ever put into, `exchanged` which tokens
      were traded for a new one, in order. Neither is stored by the program. */
  datatype World = World(t: Tables, now: Time, revokers: map<nat, Revoker>, refreshers: map<nat, Claims>,
                         carrier: map<Jti, nat>, exchanged: seq<Jti>)

  datatype Event =
    | Tick(elapsed: nat)
    | TouchSession(user: UserId, req: Request)
    | Issue(user: UserId, req: Request, minted: Claims)
    | CheckToken(pid: nat, presented: Claims)
    | CommitRefresh(pid: nat, active: set<UserId>, req: Request, minted: Claims)
    | LogoutLocked(pid: nat, user: UserId, req: Request)
    | MarkSession(pid: nat, user: UserId, key: string, reason: string)
    | ReadRows(pid: nat, order: seq<nat>)
    | BlacklistSeen(pid: nat)
    | StampSeen(pid: nat)
    | DeleteMetas(cutoff: Time)
    | DeleteBlacklist(cutoff: Time)
    | DeleteOutstanding(cutoff: Time)
    | DeleteMappings(at: Time, cutoff: Time)
    | InvalidateLegacy

  function SessionRows(t: Tables, user: UserId, key: string): set<nat> {
    set p | p in t.mappings && t.mappings[p].user == user && t.mappings[p].key == key
  }

  predicate Enumerates(order: seq<nat>, rows: set<nat>) {
    && (forall i | 0 <= i < |order| :: order[i] in rows)
    && (forall p | p in rows :: p in order)
  }

  function Read(t: Tables, order: seq<nat>): (seen: seq<Seen>)
    requires forall i | 0 <= i < |order| :: order[i] in t.mappings
    ensures |seen| == |order|
    ensures forall i | 0 <= i < |order| :: seen[i] == Seen(order[i], t.mappings[order[i]].jti)
  {
    if order == [] then []
    else Read(t, order[..|order| - 1]) + [Seen(order[|order| - 1], t.mappings[order[|order| - 1]].jti)]
  }

  predicate IsWorking(w: World, pid: nat) {
    pid in w.revokers && w.revokers[pid].stage.Working? && w.revokers[pid].stage.todo != []
  }

  function SetStage(w: World, pid: nat, stage: Stage): World
    requires pid in w.revokers
  {
    w.(revokers := w.revokers[pid := w.revokers[pid].(stage := stage)])
  }

  /** A step of the revocation `pid`. */
  function RevokeStep(w: World, e: Event): World {
    match e
    case LogoutLocked(pid, user, req) =>
      if pid in w.revokers then w
      else
        var key := LogoutKey(w.t, user, req);
        w.(t := Logout(w.t, w.now, user, req),
           revokers := w.revokers[pid := Revoker(user, key, w.now,
             if key == "" then Failed else Finished(SessionRows(w.t, user, key)))])
    case MarkSession(pid, user, key, reason) =>
      if pid in w.revokers then w
      else w.(t := MarkRevoked(w.t, w.now, user, key, reason),
              revokers := w.revokers[pid := Revoker(user, key, w.now, Marked)])
    case ReadRows(pid, order) =>
      if pid !in w.revokers || !w.revokers[pid].stage.Marked?
         || !Enumerates(order, LiveRows(w.t, w.revokers[pid].user, w.revokers[pid].key)) then w
      else
        var r := w.revokers[pid];
        var seen := Read(w.t, order);
        SetStage(w, pid, if seen == [] then Finished(SessionRows(w.t, r.user, r.key))
                         else Working(SessionRows(w.t, r.user, r.key), seen, false))
    case BlacklistSeen(pid) =>
      if !IsWorking(w, pid) then w
      else
        var r := w.revokers[pid];
        SetStage(w, pid, r.stage.(blacklisted := true)).(t := BlacklistUserJti(w.t, r.user, r.stage.todo[0].jti))
    case StampSeen(pid) =>
      if !IsWorking(w, pid) || !w.revokers[pid].stage.blacklisted then w
      else
        var r := w.revokers[pid];
        var head := r.stage.todo[0];
        if head.row !in w.t.mappings then SetStage(w, pid, Failed)
        else
          var rest := r.stage.todo[1..];
          SetStage(w, pid, if rest == [] then Finished(r.stage.cover) else Working(r.stage.cover, rest, false))
            .(t := StampRevoked(w.t, head.row, r.at))
    case _ => w
  }

  /** A deletion `cleanup_auth_data` commits, or the cutover command. */
  function Maintain(w: World, e: Event): World {
    match e
    case DeleteMetas(cutoff) => w.(t := PurgeMetas(PurgeUserSessions(w.t), cutoff))
    case DeleteBlacklist(cutoff) => w.(t := PurgeBlacklist(w.t, cutoff))
    case DeleteOutstanding(cutoff) => w.(t := PurgeOutstanding(w.t, cutoff))
    case DeleteMappings(at, cutoff) => w.(t := PurgeMappings(w.t, at, cutoff))
    case InvalidateLegacy => w.(t := InvalidateAll(w.t, w.now))
    case _ => w
  }

  /** One step; an event that is not enabled changes nothing. */
  function Step(w: World, e: Event): World {
    match e
    case Tick(elapsed) => w.(now := w.now + elapsed)
    case TouchSession(user, req) => w.(t := Touch(w.t, w.now, user, req))
    case Issue(user, req, minted) =>
      if minted.jti in w.t.signed || minted.user != user then w
      else
        var (t1, r) := IssuePair(w.t, w.now, user, req, minted);
        if r.Ok? then w.(t := t1, carrier := w.carrier[minted.jti := t1.nextPk - 1]) else w
    case CheckToken(pid, presented) =>
      if pid !in w.refreshers && Verifies(w.t, w.now, presented)
      then w.(refreshers := w.refreshers[pid := presented]) else w
    case CommitRefresh(pid, active, req, minted) =>
      if pid !in w.refreshers || minted.jti in w.t.signed || minted.user != w.refreshers[pid].user then w
      else
        var c := w.refreshers[pid];
        var (t1, r) := Rotate(w.t, active, req, c, minted);
        var w1 := w.(t := t1, refreshers := w.refreshers - {pid});
        if r.Ok? then w1.(carrier := w1.carrier[minted.jti := r.value], exchanged := w1.exchanged + [c.jti]) else w1
    case _ => if IsRevokeStep(e) then RevokeStep(w, e) else Maintain(w, e)
  }

  predicate IsRevokeStep(e: Event) {
    e.LogoutLocked? || e.MarkSession? || e.ReadRows? || e.BlacklistSeen? || e.StampSeen?
  }

  function Run(w: World, events: seq<Event>): World
    decreases |events|
  {
    if events == [] then w else Run(Step(w, events[0]), events[1..])
  }

  // ---------------------------------------------------------------- the invariant

  /** Each row's token was put into that row, and tokens already traded sit in no row. */
  ghost predicate Carried(t: Tables, carrier: map<Jti, nat>, exchanged: seq<Jti>) {
    && carrier.Keys <= t.signed.Keys
    && (forall j | j in carrier :: carrier[j] < t.nextPk)
    && (forall p | p in t.mappings :: t.mappings[p].jti in carrier && carrier[t.mappings[p].jti] == p)
    && (forall j | j in exchanged :: j in carrier)
    && (forall p | p in t.mappings :: t.mappings[p].jti !in exchanged)
    && (forall i, j | 0 <= i < j < |exchanged| :: exchanged[i] != exchanged[j])
  }

  /** Rows a revocation covers are closed for good, save those it still has to stamp. */
  ghost predicate Closing(t: Tables, cover: set<nat>, todo: seq<Seen>) {
    && (forall p | p in cover :: p < t.nextPk)
    && forall p | p in cover && p in t.mappings && t.mappings[p].revokedAt.None? ::
         exists k :: 0 <= k < |todo| && todo[k].row == p
  }

  ghost predicate StageOk(t: Tables, stage: Stage) {
    match stage
    case Working(cover, todo, _) => Closing(t, cover, todo)
    case Finished(cover) => Closing(t, cover, [])
    case _ => true
  }

  ghost predicate Ok(w: World) {
    && Carried(w.t, w.carrier, w.exchanged)
    && forall pid | pid in w.revokers :: StageOk(w.t, w.revokers[pid].stage)
  }

  /** What any step does to the mapping rows: no row number is reused, and a revoked row
      never becomes live again. */
  ghost predicate RowsAge(t: Tables, t1: Tables) {
    && t.nextPk <= t1.nextPk
    && forall p | p in t1.mappings && p < t.nextPk ::
         p in t.mappings && (t.mappings[p].revokedAt.Some? ==> t1.mappings[p].revokedAt.Some?)
  }

  lemma StagesAge(w: World, w1: World)
    requires Ok(w) && RowsAge(w.t, w1.t)
    ensures forall pid | pid in w.revokers :: StageOk(w1.t, w.revokers[pid].stage)
  {
  }

  // ---------------------------------------------------------------- every step keeps it

  lemma IssueAges(t: Tables, now: Time, user: UserId, req: Request, c: Claims) returns (key: string)
    requires c.jti !in t.signed && c.user == user
    ensures var (t1, r) := IssuePair(t, now, user, req, c);
            r.Ok? ==> && t.nextPk <= t1.nextPk - 1 && t1.signed == t.signed[c.jti := c]
                      && t1.mappings == t.mappings[t1.nextPk - 1 := Mapping(user, key, c.jti, Some(c.exp), None)]
  {
    var (t0, bound) := BindMeta(t, now, user, req);
    key := if bound.Ok? then t0.metas[bound.value].key else "";
  }

  predicate Issues(w: World, e: Event) {
    e.Issue? && e.minted.jti !in w.t.signed && e.minted.user == e.user
  }

  lemma RevokeStepAges(w: World, e: Event)
    ensures RowsAge(w.t, RevokeStep(w, e).t)
  {
    hide MetaByKey, MetaByDigest, ResolveMeta, LogoutKey;
  }

  lemma MaintainAges(w: World, e: Event)
    ensures RowsAge(w.t, Maintain(w, e).t)
  {
    hide Stale;
  }

  lemma StepAges(w: World, e: Event)
    ensures RowsAge(w.t, Step(w, e).t)
  {
    hide MetaByKey, MetaByDigest, ResolveMeta, LogoutKey, Stale, Verifies, IssuePair, RevokeStep, Maintain;
    RevokeStepAges(w, e);
    MaintainAges(w, e);
    if Issues(w, e) { var _ := IssueAges(w.t, w.now, e.user, e.req, e.minted); }
  }

  lemma IssueCarries(w: World, e: Event)
    requires Carried(w.t, w.carrier, w.exchanged) && Issues(w, e)
    ensures var w1 := Step(w, e); Carried(w1.t, w1.carrier, w1.exchanged)
  {
    hide IssuePair;
    var _ := IssueAges(w.t, w.now, e.user, e.req, e.minted);
  }

  lemma CommitCarries(w: World, e: Event)
    requires Carried(w.t, w.carrier, w.exchanged) && e.CommitRefresh?
    ensures var w1 := Step(w, e); Carried(w1.t, w1.carrier, w1.exchanged)
  {
    hide MetaByKey, MetaByDigest;
  }

  ghost predicate JtisKept(w: World, w1: World) {
    && w1.t.signed == w.t.signed && w1.carrier == w.carrier && w1.exchanged == w.exchanged
    && w.t.nextPk <= w1.t.nextPk
    && forall p | p in w1.t.mappings :: p in w.t.mappings && w1.t.mappings[p].jti == w.t.mappings[p].jti
  }

  lemma RevokeStepKeepsJtis(w: World, e: Event)
    ensures JtisKept(w, RevokeStep(w, e))
  {
    hide MetaByKey, MetaByDigest, ResolveMeta, LogoutKey;
  }

  lemma MaintainKeepsJtis(w: World, e: Event)
    ensures JtisKept(w, Maintain(w, e))
  {
    hide Stale;
  }

  lemma StepCarries(w: World, e: Event)
    requires Carried(w.t, w.carrier, w.exchanged)
    ensures var w1 := Step(w, e); Carried(w1.t, w1.carrier, w1.exchanged)
  {
    hide RevokeStep, Maintain, IssuePair, Rotate;
    if Issues(w, e) {
      IssueCarries(w, e);
    } else if e.CommitRefresh? {
      CommitCarries(w, e);
    } else {
      RevokeStepKeepsJtis(w, e);
      MaintainKeepsJtis(w, e);
    }
  }

  /** A stage that this step does not advance stays good because rows only age. */
  lemma StepStages(w: World, e: Event)
    requires Ok(w)
    ensures var w1 := Step(w, e); forall pid | pid in w1.revokers :: StageOk(w1.t, w1.revokers[pid].stage)
  {
    StepAges(w, e);
    StagesAge(w, Step(w, e));
    hide StageOk;
    match e
    case LogoutLocked(pid, user, req) => LogoutCloses(w, pid, user, req);
    case ReadRows(pid, order) => ReadCloses(w, pid, order);
    case StampSeen(pid) => StampCloses(w, pid);
    case _ =>
  }

  lemma LogoutCloses(w: World, pid: nat, user: UserId, req: Request)
    requires Ok(w)
    ensures var w1 := Step(w, LogoutLocked(pid, user, req));
            pid in w1.revokers && StageOk(w1.t, w1.revokers[pid].stage)
  {
    StepAges(w, LogoutLocked(pid, user, req));
  }

  lemma ReadCloses(w: World, pid: nat, order: seq<nat>)
    requires Ok(w)
    ensures var w1 := Step(w, ReadRows(pid, order));
            pid in w1.revokers ==> StageOk(w1.t, w1.revokers[pid].stage)
  {
    if pid in w.revokers && w.revokers[pid].stage.Marked?
       && Enumerates(order, LiveRows(w.t, w.revokers[pid].user, w.revokers[pid].key))
    {
      var r := w.revokers[pid];
      var seen := Read(w.t, order);
      forall p | p in SessionRows(w.t, r.user, r.key) && w.t.mappings[p].revokedAt.None?
        ensures exists k :: 0 <= k < |seen| && seen[k].row == p
      {
        assert p in LiveRows(w.t, r.user, r.key);
        var k :| 0 <= k < |order| && order[k] == p;
        assert seen[k].row == p;
      }
    }
  }

  lemma StampCloses(w: World, pid: nat)
    requires Ok(w)
    ensures var w1 := Step(w, StampSeen(pid));
            pid in w1.revokers ==> StageOk(w1.t, w1.revokers[pid].stage)
  {
    if IsWorking(w, pid) && w.revokers[pid].stage.blacklisted && w.revokers[pid].stage.todo[0].row in w.t.mappings {
      var stage := w.revokers[pid].stage;
      var t1 := StampRevoked(w.t, stage.todo[0].row, w.revokers[pid].at);
      var rest := stage.todo[1..];
      forall p | p in stage.cover && p in t1.mappings && t1.mappings[p].revokedAt.None?
        ensures exists k :: 0 <= k < |rest| && rest[k].row == p
      {
        var k :| 0 <= k < |stage.todo| && stage.todo[k].row == p;
        assert rest[k - 1].row == p;
      }
    }
  }

  lemma StepKeepsOk(w: World, e: Event)
    requires Ok(w)
    ensures Ok(Step(w, e))
  {
    hide Step, Carried, StageOk;
    StepCarries(w, e);
    StepStages(w, e);
  }

  lemma {:induction false} RunKeepsOk(w: World, events: seq<Event>)
    requires Ok(w)
    ensures Ok(Run(w, events))
    decreases |events|
  {
    hide Ok, Step;
    if events != [] {
      StepKeepsOk(w, events[0]);
      RunKeepsOk(Step(w, events[0]), events[1..]);
    }
  }

  // ---------------------------------------------------------------- single use

  /** A world in which nothing is in flight and nothing has been exchanged yet. */
  ghost predicate Quiet(w: World) {
    w.revokers == map[] && w.refreshers == map[] && w.exchanged == [] && Carried(w.t, w.carrier, [])
  }

  /** However requests, revocations and deletions interleave, no refresh token is ever
      exchanged twice, not even after its blacklist row has been purged. */
  lemma EachTokenIsExchangedOnce(w: World, events: seq<Event>)
    requires Quiet(w)
    ensures var done := Run(w, events).exchanged;
            forall i, j | 0 <= i < j < |done| :: done[i] != done[j]
  {
    RunKeepsOk(w, events);
  }

  // ---------------------------------------------------------------- permanence

  /** What a step adds to the history, and from which row the exchanged token came. */
  lemma StepExchanges(w: World, e: Event)
    requires Ok(w)
    ensures var w1 := Step(w, e);
            && w.exchanged <= w1.exchanged
            && (forall j | j in w.carrier :: j in w1.carrier && w1.carrier[j] == w.carrier[j])
            && (forall i | |w.exchanged| <= i < |w1.exchanged| ::
                  && w1.exchanged[i] in w.carrier
                  && var p := w.carrier[w1.exchanged[i]]; p in w.t.mappings && w.t.mappings[p].revokedAt.None?)
  {
    hide RevokeStep, Maintain, IssuePair, MetaByKey, MetaByDigest, StageOk, Verifies;
    RevokeStepKeepsJtis(w, e);
    MaintainKeepsJtis(w, e);
  }

  lemma {:induction false} ClosedRowsStayOut(w: World, events: seq<Event>, cover: set<nat>)
    requires Ok(w) && Closing(w.t, cover, [])
    ensures var w1 := Run(w, events);
            && w.exchanged <= w1.exchanged
            && (forall j | j in w.carrier :: j in w1.carrier && w1.carrier[j] == w.carrier[j])
            && (forall i | |w.exchanged| <= i < |w1.exchanged| ::
                  w1.exchanged[i] in w1.carrier && w1.carrier[w1.exchanged[i]] !in cover)
            && Closing(w1.t, cover, [])
    decreases |events|
  {
    hide Step;
    if events != [] {
      var w1 := Step(w, events[0]);
      StepKeepsOk(w, events[0]);
      StepExchanges(w, events[0]);
      StepAges(w, events[0]);
      ClosedRowsStayOut(w1, events[1..], cover);
    }
  }

  /** A revocation never changes its mind about which rows it covers. */
  ghost predicate Covers(w: World, pid: nat, cover: set<nat>) {
    pid in w.revokers && match w.revokers[pid].stage
                         case Working(c, _, _) => c == cover
                         case Finished(c) => c == cover
                         case Failed => true
                         case Marked => false
  }

  lemma {:induction false} CoverIsFixed(w: World, events: seq<Event>, pid: nat, cover: set<nat>)
    requires Covers(w, pid, cover)
    ensures Covers(Run(w, events), pid, cover)
    decreases |events|
  {
    if events != [] {
      StepKeepsCover(w, events[0], pid, cover);
      CoverIsFixed(Step(w, events[0]), events[1..], pid, cover);
    }
  }

  lemma StepKeepsCover(w: World, e: Event, pid: nat, cover: set<nat>)
    requires Covers(w, pid, cover)
    ensures Covers(Step(w, e), pid, cover)
  {
  }

  /** Once a revocation that read the session's rows in `w` has finished, no token any of
      those rows ever carried, before or after the read, is exchanged again: whatever
      raced with it, and whatever is deleted later. */
  lemma RevocationIsPermanent(w: World, pid: nat, order: seq<nat>, racing: seq<Event>, later: seq<Event>)
    requires Ok(w) && pid in w.revokers && w.revokers[pid].stage.Marked?
    requires Enumerates(order, LiveRows(w.t, w.revokers[pid].user, w.revokers[pid].key))
    requires var w2 := Run(Step(w, ReadRows(pid, order)), racing);
             pid in w2.revokers && w2.revokers[pid].stage.Finished?
    ensures var rows := SessionRows(w.t, w.revokers[pid].user, w.revokers[pid].key);
            var w2 := Run(Step(w, ReadRows(pid, order)), racing);
            var w3 := Run(w2, later);
            forall i | |w2.exchanged| <= i < |w3.exchanged| ::
              w3.exchanged[i] in w3.carrier && w3.carrier[w3.exchanged[i]] !in rows
  {
    hide Ok;
    var rows := SessionRows(w.t, w.revokers[pid].user, w.revokers[pid].key);
    var w1 := Step(w, ReadRows(pid, order));
    StepKeepsOk(w, ReadRows(pid, order));
    CoverIsFixed(w1, racing, pid, rows);
    RunKeepsOk(w1, racing);
    var w2 := Run(w1, racing);
    assert Closing(w2.t, rows, []) by { FinishedIsClosed(w2, pid); }
    ClosedRowsStayOut(w2, later, rows);
  }

  lemma FinishedIsClosed(w: World, pid: nat)
    requires Ok(w) && pid in w.revokers && w.revokers[pid].stage.Finished?
    ensures Closing(w.t, w.revokers[pid].stage.cover, [])
  {
    assert StageOk(w.t, w.revokers[pid].stage);
  }

  /** A logout holds its rows locked, so it covers them all in one step. */
  lemma LogoutIsPermanent(w: World, pid: nat, user: UserId, req: Request, later: seq<Event>)
    requires Ok(w) && pid !in w.revokers && LogoutKey(w.t, user, req) != ""
    ensures var rows := SessionRows(w.t, user, LogoutKey(w.t, user, req));
            var w1 := Step(w, LogoutLocked(pid, user, req));
            var w2 := Run(w1, later);
            forall i | |w1.exchanged| <= i < |w2.exchanged| ::
              w2.exchanged[i] in w2.carrier && w2.carrier[w2.exchanged[i]] !in rows
  {
    var w1 := Step(w, LogoutLocked(pid, user, req));
    StepKeepsOk(w, LogoutLocked(pid, user, req));
    FinishedIsClosed(w1, pid);
    ClosedRowsStayOut(w1, later, SessionRows(w.t, user, LogoutKey(w.t, user, req)));
  }
}
