/** A run in which a refresh moves a row on between a revocation's read of it and the stamp: the
    token the revocation read is no longer the row's, and the row is closed all the same. */
module AuthRaceWitness {
  import opened Prelude
  import opened AuthTables
  import opened R = AuthRaces

  const USER: UserId := 1
  const KEY := "s"
  const NOW: Time := 10
  const REQUEST := Request("", KEY, "d")

  function Old(a: Jti): Claims { Claims(a, USER, 100) }
  function New(b: Jti): Claims { Claims(b, USER, 200) }

  function Session(revokedAt: Option<Time>, reason: string): Meta {
    Meta(USER, KEY, "d", 0, None, revokedAt, reason)
  }

  /** One session with one row, which carries token a. */
  function Before(a: Jti): Tables {
    Tables(map[0 := Session(None, "")], map[1 := Mapping(USER, KEY, a, Some(100), None)],
           map[2 := Outstanding(USER, a, 100)], {}, {}, {}, 3, map[a := Old(a)])
  }

  function Start(a: Jti): World {
    World(Before(a), NOW, map[], map[], map[a := 1], [])
  }

  function Revoking(stage: Stage): map<nat, Revoker> {
    map[0 := Revoker(USER, KEY, NOW, stage)]
  }

  function Reading(a: Jti, blacklisted: bool): map<nat, Revoker> {
    Revoking(Working({1}, [Seen(1, a)], blacklisted))
  }

  /** The revocation has marked the session. */
  function Marks(a: Jti): World {
    Start(a).(t := Before(a).(metas := map[0 := Session(Some(NOW), "admin")]), revokers := Revoking(Marked))
  }

  /** The revoked session has been deleted, and a later request has created it again. */
  function Recreated(a: Jti): World {
    Start(a).(t := Before(a).(metas := map[3 := Meta(USER, KEY, "d", NOW, Some(NOW), None, "")], nextPk := 4),
              revokers := Reading(a, false))
  }

  /** A refresh has moved the row from a to b. */
  function Moved(a: Jti, b: Jti): World {
    var w := Recreated(a);
    w.(t := w.t.(mappings := map[1 := Mapping(USER, KEY, b, Some(200), None)],
                 outstanding := w.t.outstanding[4 := Outstanding(USER, b, 200)], blacklist := {2}, nextPk := 5,
                 signed := w.t.signed[b := New(b)]),
       carrier := map[a := 1, b := 1], exchanged := [a])
  }

  function Stamped(a: Jti, b: Jti): World {
    var w := Moved(a, b);
    w.(t := w.t.(mappings := map[1 := Mapping(USER, KEY, b, Some(200), Some(NOW))]), revokers := Revoking(Finished({1})))
  }

  /** What happens between the read and the end of the revocation. */
  function Racing(a: Jti, b: Jti): seq<Event> {
    [DeleteMetas(NOW + 1), TouchSession(USER, REQUEST), CheckToken(0, Old(a)),
     CommitRefresh(0, {USER}, REQUEST, New(b)), BlacklistSeen(0), StampSeen(0)]
  }

  lemma OnlyOne(s: set<nat>, p: nat)
    requires s == {p}
    ensures First(s) == Some(p)
  {
    assert First(s).value in s;
  }

  lemma MarkStep(a: Jti)
    ensures Step(Start(a), MarkSession(0, USER, KEY, "admin")) == Marks(a)
  {
    OnlyOne(MetasByKey(Before(a), USER, KEY), 0);
    hide First;
  }

  lemma RowsOfMarked(a: Jti)
    ensures LiveRows(Marks(a).t, USER, KEY) == {1} && SessionRows(Marks(a).t, USER, KEY) == {1}
    ensures Read(Marks(a).t, [1]) == [Seen(1, a)]
  {
  }

  lemma ReadStep(a: Jti)
    ensures Enumerates([1], LiveRows(Marks(a).t, USER, KEY))
    ensures Step(Marks(a), ReadRows(0, [1])) == Marks(a).(revokers := Reading(a, false))
  {
    RowsOfMarked(a);
    hide LiveRows, SessionRows, Read;
  }

  lemma RecreateSteps(a: Jti)
    ensures var w := Marks(a).(revokers := Reading(a, false));
            Step(Step(w, DeleteMetas(NOW + 1)), TouchSession(USER, REQUEST)) == Recreated(a)
  {
    var w := Marks(a).(revokers := Reading(a, false));
    assert Step(w, DeleteMetas(NOW + 1)) == w.(t := w.t.(metas := map[]));
    assert MetasByKey(w.t.(metas := map[]), USER, KEY) == {};
  }

  lemma RefreshSteps(a: Jti, b: Jti)
    requires a != b
    ensures Step(Step(Recreated(a), CheckToken(0, Old(a))), CommitRefresh(0, {USER}, REQUEST, New(b))) == Moved(a, b)
  {
    var w := Recreated(a);
    assert Step(w, CheckToken(0, Old(a))) == w.(refreshers := map[0 := Old(a)]);
    OnlyOne(LiveRowsWith(w.t, USER, a), 1);
    OnlyOne(MetasByDigest(w.t, USER, "d"), 3);
    OnlyOne(MetasByKey(w.t, USER, KEY), 3);
    RotateMoves(a, b);
  }

  lemma RotateMoves(a: Jti, b: Jti)
    requires a != b
    ensures Rotate(Recreated(a).t, {USER}, REQUEST, Old(a), New(b)) == (Moved(a, b).t, Ok(1))
  {
    var t := Recreated(a).t;
    OnlyOne(LiveRowsWith(t, USER, a), 1);
    OnlyOne(MetasByDigest(t, USER, "d"), 3);
    OnlyOne(MetasByKey(t, USER, KEY), 3);
    hide First;
    var moved := MoveRow(t, 1, a, New(b));
    assert moved.blacklist == {2} && moved.mappings == Moved(a, b).t.mappings;
    assert moved == Moved(a, b).t;
  }

  lemma BlacklistStep(a: Jti, b: Jti)
    requires a != b
    ensures Step(Moved(a, b), BlacklistSeen(0)) == Moved(a, b).(revokers := Reading(a, true))
  {
    assert BlacklistUserJti(Moved(a, b).t, USER, a).blacklist == {2};
  }

  lemma StampSteps(a: Jti, b: Jti)
    requires a != b
    ensures Step(Step(Moved(a, b), BlacklistSeen(0)), StampSeen(0)) == Stamped(a, b)
  {
    BlacklistStep(a, b);
    hide BlacklistUserJti;
    assert Moved(a, b).t.mappings[1 := Mapping(USER, KEY, b, Some(200), Some(NOW))] == Stamped(a, b).t.mappings;
  }

  lemma RunFirst(w: World, e: Event, rest: seq<Event>)
    ensures Run(w, [e] + rest) == Run(Step(w, e), rest)
  {
    hide Step;
    assert ([e] + rest)[1..] == rest;
  }

  lemma RunSix(w: World, a: Event, b: Event, c: Event, d: Event, e: Event, f: Event)
    ensures Run(w, [a, b, c, d, e, f]) == Step(Step(Step(Step(Step(Step(w, a), b), c), d), e), f)
  {
    hide Step;
    assert [a, b, c, d, e, f] == [a] + ([b] + ([c] + ([d] + ([e] + ([f] + [])))));
    var w2 := Step(Step(w, a), b);
    var w4 := Step(Step(w2, c), d);
    RunFirst(w, a, [b] + ([c] + ([d] + ([e] + ([f] + [])))));
    RunFirst(Step(w, a), b, [c] + ([d] + ([e] + ([f] + []))));
    RunFirst(w2, c, [d] + ([e] + ([f] + [])));
    RunFirst(Step(w2, c), d, [e] + ([f] + []));
    RunFirst(w4, e, [f] + []);
    RunFirst(Step(w4, e), f, []);
  }

  lemma RacingRun(a: Jti, b: Jti)
    requires a != b
    ensures Run(Step(Marks(a), ReadRows(0, [1])), Racing(a, b)) == Stamped(a, b)
  {
    hide Step, Run, Marks, Recreated, Moved, Stamped, Reading;
    ReadStep(a);
    RecreateSteps(a);
    RefreshSteps(a, b);
    StampSteps(a, b);
    RunSix(Step(Marks(a), ReadRows(0, [1])), DeleteMetas(NOW + 1), TouchSession(USER, REQUEST), CheckToken(0, Old(a)),
           CommitRefresh(0, {USER}, REQUEST, New(b)), BlacklistSeen(0), StampSeen(0));
  }

  lemma MarkedIsOk(a: Jti)
    ensures Quiet(Start(a)) && R.Ok(Marks(a))
  {
  }

  /** The refresh gets its token out between the read and the stamp, the revocation never blacklists
      that token, and still the token is never exchanged. */
  lemma MovedRowIsClosed(a: Jti, b: Jti, later: seq<Event>)
    requires a != b
    ensures var w2 := Run(Step(Marks(a), ReadRows(0, [1])), Racing(a, b));
            && Step(Start(a), MarkSession(0, USER, KEY, "admin")) == Marks(a) && Quiet(Start(a))
            && Step(Marks(a), ReadRows(0, [1])).revokers == Reading(a, false)
            && w2.exchanged == [a] && w2.revokers == Revoking(Finished({1})) && !Blacklisted(w2.t, b)
            && w2.t.mappings == map[1 := Mapping(USER, KEY, b, Some(200), Some(NOW))]
            && b !in Run(w2, later).exchanged
  {
    MarkStep(a);
    MarkedIsOk(a);
    RacingRun(a, b);
    StampedFields(a, b);
    hide Run, Step, Quiet, R.Ok, Stamped, Marks, Blacklisted;
    var w2 := Stamped(a, b);
    ReadStep(a);
    MarkedFields(a);
    RevocationIsPermanent(Marks(a), 0, [1], Racing(a, b), later);
    var w3 := Run(w2, later);
    ReadKeepsOk(a);
    RunKeepsOk(Step(Marks(a), ReadRows(0, [1])), Racing(a, b));
    CarrierStays(w2, later);
    forall i | 0 <= i < |w3.exchanged| ensures w3.exchanged[i] != b {
      if i == 0 { assert w3.exchanged[0] == a; }
    }
  }

  lemma StampedFields(a: Jti, b: Jti)
    requires a != b
    ensures var w := Stamped(a, b);
            && w.exchanged == [a] && w.revokers == Revoking(Finished({1})) && !Blacklisted(w.t, b)
            && w.t.mappings == map[1 := Mapping(USER, KEY, b, Some(200), Some(NOW))]
            && b in w.carrier && w.carrier[b] == 1
  {
  }

  lemma MarkedFields(a: Jti)
    ensures 0 in Marks(a).revokers && Marks(a).revokers[0] == Revoker(USER, KEY, NOW, Marked)
  {
  }

  lemma ReadKeepsOk(a: Jti)
    ensures R.Ok(Step(Marks(a), ReadRows(0, [1])))
  {
    hide Step, R.Ok;
    MarkedIsOk(a);
    StepKeepsOk(Marks(a), ReadRows(0, [1]));
  }

  lemma {:induction false} CarrierStays(w: World, events: seq<Event>)
    requires R.Ok(w)
    ensures var w1 := Run(w, events);
            w.exchanged <= w1.exchanged && forall j | j in w.carrier :: j in w1.carrier && w1.carrier[j] == w.carrier[j]
    decreases |events|
  {
    hide Step, R.Ok;
    if events != [] {
      StepKeepsOk(w, events[0]);
      StepExchanges(w, events[0]);
      CarrierStays(Step(w, events[0]), events[1..]);
    }
  }
}
