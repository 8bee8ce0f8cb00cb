/** Admin MFA attempts of one user and address, overlapping in time with each other, with rotations
    and with all other traffic of the cache: which epoch each of them reads, and which counters
    that epoch outlives. */
module RateEpochRuns {
  import opened Prelude
  import C = SecurityCache
  import R = RateEpochs

  /** Whose epoch is watched, in a cache of what capacity, under which two configured rates. */
  datatype Setup = Setup(user: int, address: string, capacity: nat, verificationRate: string, optionsRate: string)

  /** The rates are ones the service accepts; it refuses every attempt otherwise. */
  predicate Configured(u: Setup) {
    R.EpochTimeout(u.verificationRate, u.optionsRate).Open?
  }

  function Key(u: Setup): string { R.EpochKey(u.user, u.address) }

  function Timeout(u: Setup): int
    requires Configured(u)
  {
    R.EpochTimeout(u.verificationRate, u.optionsRate).value
  }

  function Longest(u: Setup): int
    requires Configured(u)
  {
    Timeout(u) - R.FUDGE
  }

  /** A failure counter: when it was counted, for which window, under which epoch. */
  datatype Counter = Counter(at: real, window: int, epoch: string)

  /** `epoch` and `touched` are history: what the last write or touch of the row left in it, and when.
      Attempts are numbered as they start. */
  datatype World = World(cache: C.World<string>, epoch: string, touched: real, starts: seq<real>,
                         seen: map<nat, string>, minted: set<nat>, done: set<nat>, refused: set<nat>,
                         counters: seq<Counter>)

  datatype Event =
    | Tick(elapsed: real)
    | StartAttempt
    | CheckRoom(j: nat)
    | WriteCandidate(j: nat, candidate: string, ok: bool)
    | Read(j: nat)
    | Touch(j: nat)
    | Count(j: nat, window: int)
    | Refuse(j: nat)                       // any cache error: the attempt ends
    | CheckRotation(p: nat)                // a completed login replaces the epoch
    | WriteRotation(p: nat, epoch: string, ok: bool)
    | Traffic(e: C.Event<string>)          // other keys, other writers

  // ---------------------------------------------------------------- steps

  /** Writers of the cache: attempts, rotations and everyone else. */
  function Attempt(j: nat): nat { 3 * j }
  function Rotation(p: nat): nat { 3 * p + 1 }

  /** Other traffic leaves the key alone. */
  predicate Foreign(u: Setup, e: C.Event<string>) {
    match e
    case Check(writer, key, _) => writer % 3 == 2 && key != Key(u)
    case Write(writer, _, _, _) => writer % 3 == 2
    case GiveUp(writer) => writer % 3 == 2
    case TouchRow(key, _) => key != Key(u)
    case Advance(_) => false
    case DropExpired => true
  }

  /** The attempt has started and has neither finished its access nor been refused. */
  predicate InFlight(w: World, j: nat) {
    j < |w.starts| && j !in w.done && j !in w.refused
  }

  predicate Possible(w: World, u: Setup, e: Event) {
    match e
    case Tick(elapsed) => elapsed >= 0.0
    case CheckRoom(j) => InFlight(w, j)
    case WriteCandidate(j, _, _) => InFlight(w, j)
    case Read(j) => InFlight(w, j)
    case Touch(j) => InFlight(w, j) && j in w.seen
    case Count(j, window) => j in w.done && j in w.seen && R.ConfiguredWindow(u.verificationRate, u.optionsRate, window)
    case Refuse(j) => InFlight(w, j)
    case Traffic(e) => Foreign(u, e)
    case _ => true
  }

  /** A stored candidate is the attempt's own epoch, which it does not touch again. */
  function CandidateStep(w: World, u: Setup, j: nat, candidate: string, ok: bool): World
    requires Configured(u)
  {
    var cache := C.Step(w.cache, u.capacity, C.Write(Attempt(j), candidate, Timeout(u), ok));
    if |cache.log| > |w.cache.log|
    then w.(cache := cache, epoch := candidate, touched := w.cache.now, minted := w.minted + {j})
    else w.(cache := cache)
  }

  /** An attempt that reads no epoch is refused. */
  function ReadStep(w: World, u: Setup, j: nat): World {
    var epoch := C.Get(w.cache.rows, Key(u), w.cache.now);
    if epoch.Some? then w.(seen := w.seen[j := epoch.value]) else w.(refused := w.refused + {j})
  }

  /** The touch that ends an access; one that finds no row refuses the attempt. */
  function TouchStep(w: World, u: Setup, j: nat): World
    requires Configured(u)
  {
    if j in w.minted then w.(done := w.done + {j})
    else
      var cache := C.Step(w.cache, u.capacity, C.TouchRow(Key(u), Timeout(u)));
      if Key(u) in cache.rows then w.(cache := cache, touched := w.cache.now, done := w.done + {j})
      else w.(cache := cache, refused := w.refused + {j})
  }

  function RotationStep(w: World, u: Setup, p: nat, epoch: string, ok: bool): World
    requires Configured(u)
  {
    var cache := C.Step(w.cache, u.capacity, C.Write(Rotation(p), epoch, Timeout(u), ok));
    if ok && Rotation(p) in w.cache.inflight then w.(cache := cache, epoch := epoch, touched := w.cache.now)
    else w.(cache := cache)
  }

  function Step(w: World, u: Setup, e: Event): World
    requires Configured(u)
  {
    if !Possible(w, u, e) then w
    else match e
      case Tick(elapsed) => w.(cache := C.Step(w.cache, u.capacity, C.Advance(elapsed)))
      case StartAttempt => w.(starts := w.starts + [w.cache.now])
      case CheckRoom(j) => w.(cache := C.Step(w.cache, u.capacity, C.Check(Attempt(j), Key(u), C.AddMode)))
      case WriteCandidate(j, candidate, ok) => CandidateStep(w, u, j, candidate, ok)
      case Read(j) => ReadStep(w, u, j)
      case Touch(j) => TouchStep(w, u, j)
      case Count(j, window) => w.(counters := w.counters + [Counter(w.cache.now, window, w.seen[j])])
      case Refuse(j) =>
        w.(cache := C.Step(w.cache, u.capacity, C.GiveUp(Attempt(j))), refused := w.refused + {j})
      case CheckRotation(p) => w.(cache := C.Step(w.cache, u.capacity, C.Check(Rotation(p), Key(u), C.SetMode)))
      case WriteRotation(p, epoch, ok) => RotationStep(w, u, p, epoch, ok)
      case Traffic(e) => w.(cache := C.Step(w.cache, u.capacity, e))
  }

  function Run(w: World, u: Setup, events: seq<Event>): World
    requires Configured(u)
    decreases |events|
  {
    if events == [] then w else Run(Step(w, u, events[0]), u, events[1..])
  }

  // ---------------------------------------------------------------- any run at all

  /** The last second of the row, as the last write or touch set it. */
  function LastSecond(w: World, u: Setup): int
    requires Configured(u)
  {
    C.Sec(w.touched) + Timeout(u)
  }

  predicate WritersKnown(w: World, u: Setup) {
    forall i | i in w.cache.inflight ::
      && (i % 3 == 0 ==> w.cache.inflight[i] == C.Pending(Key(u), C.AddMode))
      && (i % 3 == 1 ==> w.cache.inflight[i] == C.Pending(Key(u), C.SetMode))
      && (i % 3 == 2 ==> w.cache.inflight[i].key != Key(u) && !w.cache.inflight[i].mode.TouchMode?)
  }

  /** The row is as the last write or touch left it, or it has expired and is gone. */
  predicate RowTraced(w: World, u: Setup)
    requires Configured(u)
  {
    && w.touched <= w.cache.now
    && (if Key(u) in w.cache.rows
        then w.cache.rows[Key(u)] == C.Row(w.epoch, LastSecond(w, u))
        else LastSecond(w, u) < C.Sec(w.cache.now))
  }

  predicate Traced(w: World, u: Setup)
    requires Configured(u)
  {
    WritersKnown(w, u) && RowTraced(w, u)
  }

  /** A cache step brings at most its own check in flight. */
  lemma InflightMoves(c: C.World<string>, capacity: nat, e: C.Event<string>)
    ensures var c1 := C.Step(c, capacity, e);
            forall i | i in c1.inflight ::
              || (i in c.inflight && c1.inflight[i] == c.inflight[i])
              || (e.Check? && i == e.writer && !e.mode.TouchMode? && c1.inflight[i] == C.Pending(e.key, e.mode))
  {
    hide C.CanStore, C.BaseSet, C.Purge;
  }

  lemma WritersStayKnown(w: World, u: Setup, e: Event)
    requires Configured(u) && WritersKnown(w, u)
    ensures WritersKnown(Step(w, u, e), u)
  {
    hide C.Step, C.Get, R.EpochTimeout, R.ConfiguredWindow, R.EpochKey;
    if Possible(w, u, e) {
      match e
      case Tick(elapsed) => InflightMoves(w.cache, u.capacity, C.Advance(elapsed));
      case CheckRoom(j) => InflightMoves(w.cache, u.capacity, C.Check(Attempt(j), Key(u), C.AddMode));
      case WriteCandidate(j, candidate, ok) =>
        InflightMoves(w.cache, u.capacity, C.Write(Attempt(j), candidate, Timeout(u), ok));
      case Touch(j) => InflightMoves(w.cache, u.capacity, C.TouchRow(Key(u), Timeout(u)));
      case Refuse(j) => InflightMoves(w.cache, u.capacity, C.GiveUp(Attempt(j)));
      case CheckRotation(p) =>
        InflightMoves(w.cache, u.capacity, C.Check(Rotation(p), Key(u), C.SetMode));
        assert Rotation(p) % 3 == 1;
      case WriteRotation(p, epoch, ok) =>
        InflightMoves(w.cache, u.capacity, C.Write(Rotation(p), epoch, Timeout(u), ok));
      case Traffic(f) => InflightMoves(w.cache, u.capacity, f);
      case _ =>
    }
  }

  /** What the cache does to the row when the event does not write it. */
  lemma UnwrittenRow(c: C.World<string>, capacity: nat, e: C.Event<string>, key: string)
    requires !e.Advance? && (e.TouchRow? ==> e.key != key)
    requires e.Write? && e.writer in c.inflight ==> c.inflight[e.writer].key != key
    ensures var c1 := C.Step(c, capacity, e);
            && c1.now == c.now
            && (key in c1.rows ==> key in c.rows && c1.rows[key] == c.rows[key])
            && (key in c.rows && key !in c1.rows ==> c.rows[key].expires < C.Sec(c.now))
  {
    hide C.ExpiresAt;
  }

  lemma UnwrittenStaysTraced(w: World, u: Setup, e: C.Event<string>, w1: World)
    requires Configured(u) && RowTraced(w, u)
    requires !e.Advance? && (e.TouchRow? ==> e.key != Key(u))
    requires e.Write? && e.writer in w.cache.inflight ==> w.cache.inflight[e.writer].key != Key(u)
    requires w1.cache == C.Step(w.cache, u.capacity, e) && w1.epoch == w.epoch && w1.touched == w.touched
    ensures RowTraced(w1, u)
  {
    hide C.Step, R.EpochTimeout, R.EpochKey;
    UnwrittenRow(w.cache, u.capacity, e, Key(u));
  }

  lemma TickStaysTraced(w: World, u: Setup, elapsed: real)
    requires Configured(u) && RowTraced(w, u) && elapsed >= 0.0
    ensures RowTraced(Step(w, u, Tick(elapsed)), u)
  {
    hide R.EpochTimeout, R.EpochKey;
    C.WholeSeconds(w.cache.now, w.cache.now + elapsed, 0);
  }

  /** A candidate is stored exactly when the writer has passed its check, the database answers and the
      row has lapsed. */
  lemma CandidateStaysTraced(w: World, u: Setup, j: nat, candidate: string, ok: bool)
    requires Configured(u) && Traced(w, u) && InFlight(w, j)
    ensures var w1 := CandidateStep(w, u, j, candidate, ok);
            && RowTraced(w1, u)
            && (if ok && Attempt(j) in w.cache.inflight && LastSecond(w, u) < C.Sec(w.cache.now)
                then w1.epoch == candidate && w1.touched == w.cache.now
                else w1.epoch == w.epoch && w1.touched == w.touched)
  {
    hide R.EpochTimeout, R.EpochKey, C.ExpiresAt;
    C.WholeSeconds(w.cache.now, w.cache.now, Timeout(u));
  }

  lemma TouchStaysTraced(w: World, u: Setup, j: nat)
    requires Configured(u) && Traced(w, u)
    ensures var w1 := TouchStep(w, u, j);
            RowTraced(w1, u) && w1.epoch == w.epoch && w1.touched in {w.touched, w.cache.now}
  {
    hide R.EpochTimeout, R.EpochKey, C.ExpiresAt;
    C.WholeSeconds(w.cache.now, w.cache.now, Timeout(u));
  }

  lemma RotationStaysTraced(w: World, u: Setup, p: nat, epoch: string, ok: bool)
    requires Configured(u) && Traced(w, u)
    ensures RowTraced(RotationStep(w, u, p, epoch, ok), u)
  {
    hide R.EpochTimeout, R.EpochKey, C.ExpiresAt;
    C.WholeSeconds(w.cache.now, w.cache.now, Timeout(u));
    assert Rotation(p) % 3 == 1;
  }

  lemma StepStaysTraced(w: World, u: Setup, e: Event)
    requires Configured(u) && Traced(w, u)
    ensures Traced(Step(w, u, e), u)
  {
    WritersStayKnown(w, u, e);
    hide C.Step, R.EpochTimeout, R.EpochKey, RowTraced, WritersKnown, CandidateStep, TouchStep, RotationStep, R.ConfiguredWindow;
    if Possible(w, u, e) {
      match e
      case Tick(elapsed) => TickStaysTraced(w, u, elapsed);
      case StartAttempt => SameRowTraced(w, u, Step(w, u, e));
      case Read(j) => SameRowTraced(w, u, Step(w, u, e));
      case Count(j, window) => SameRowTraced(w, u, Step(w, u, e));
      case WriteCandidate(j, candidate, ok) => CandidateStaysTraced(w, u, j, candidate, ok);
      case Touch(j) => TouchStaysTraced(w, u, j);
      case WriteRotation(p, epoch, ok) => RotationStaysTraced(w, u, p, epoch, ok);
      case CheckRoom(j) => UnwrittenStaysTraced(w, u, C.Check(Attempt(j), Key(u), C.AddMode), Step(w, u, e));
      case CheckRotation(p) => UnwrittenStaysTraced(w, u, C.Check(Rotation(p), Key(u), C.SetMode), Step(w, u, e));
      case Refuse(j) => UnwrittenStaysTraced(w, u, C.GiveUp(Attempt(j)), Step(w, u, e));
      case Traffic(f) =>
        ForeignWritesElsewhere(w, u, f);
        UnwrittenStaysTraced(w, u, f, Step(w, u, e));
    }
  }

  lemma SameRowTraced(w: World, u: Setup, w1: World)
    requires Configured(u) && RowTraced(w, u)
    requires w1.cache == w.cache && w1.epoch == w.epoch && w1.touched == w.touched
    ensures RowTraced(w1, u)
  {
  }

  lemma ForeignWritesElsewhere(w: World, u: Setup, e: C.Event<string>)
    requires WritersKnown(w, u) && Foreign(u, e)
    ensures !e.Advance? && (e.TouchRow? ==> e.key != Key(u))
    ensures e.Write? && e.writer in w.cache.inflight ==> w.cache.inflight[e.writer].key != Key(u)
  {
  }

  lemma {:induction false} RunStaysTraced(w: World, u: Setup, events: seq<Event>)
    requires Configured(u) && Traced(w, u)
    ensures Traced(Run(w, u, events), u)
    decreases |events|
  {
    hide Step, Traced, Configured;
    if events != [] {
      StepStaysTraced(w, u, events[0]);
      RunStaysTraced(Step(w, u, events[0]), u, events[1..]);
    }
  }

  /** Whatever has happened before, and at whatever pace, the epoch is read exactly until the last
      touch's second plus the longest window plus sixty. */
  lemma ReadsExactly(w: World, u: Setup, events: seq<Event>)
    requires Configured(u) && Traced(w, u)
    ensures var w1 := Run(w, u, events);
            C.Get(w1.cache.rows, Key(u), w1.cache.now)
              == if C.Sec(w1.cache.now) <= C.Sec(w1.touched) + Longest(u) + R.FUDGE then Some(w1.epoch) else None
  {
    hide Run, R.EpochTimeout, R.EpochKey, WritersKnown;
    RunStaysTraced(w, u, events);
  }

  /** And it is replaced exactly by a rotation, or by an attempt's candidate after that second. */
  lemma EpochChangesExactly(w: World, u: Setup, e: Event)
    requires Configured(u) && Traced(w, u) && Possible(w, u, e)
    ensures Step(w, u, e).epoch ==
              if e.WriteRotation? && e.ok && Rotation(e.p) in w.cache.inflight then e.epoch
              else if e.WriteCandidate? && e.ok && Attempt(e.j) in w.cache.inflight && LastSecond(w, u) < C.Sec(w.cache.now)
              then e.candidate
              else w.epoch
  {
    hide C.Step, R.EpochTimeout, R.EpochKey, R.ConfiguredWindow, RowTraced, WritersKnown, CandidateStep;
    if e.WriteCandidate? { CandidateStaysTraced(w, u, e.j, e.candidate, e.ok); }
  }

  // ---------------------------------------------------------------- paced runs

  /** The attempt counts: it has started and was not refused. */
  predicate Standing(w: World, j: nat) { j < |w.starts| && j !in w.refused }

  /** Attempts that are not refused take at most a minute, their failures are counted within it, and
      each starts at most the longest window after an earlier one. */
  predicate Paced(w: World, u: Setup, e: Event)
    requires Configured(u)
  {
    match e
    case Tick(elapsed) =>
      forall j | 0 <= j < |w.starts| && InFlight(w, j) :: w.cache.now + elapsed <= w.starts[j] + R.FUDGE as real
    case StartAttempt => Follows(w, u, |w.starts|, w.cache.now)
    case Count(j, _) => j < |w.starts| ==> w.cache.now <= w.starts[j] + R.FUDGE as real
    case _ => true
  }

  /** Some earlier attempt that was not refused started at most the longest window before. */
  predicate Follows(w: World, u: Setup, k: nat, start: real)
    requires Configured(u) && k <= |w.starts|
  {
    exists i | 0 <= i < k :: i !in w.refused && start <= w.starts[i] + Longest(u) as real
  }

  /** Refused attempts leave no gap: every later one still follows another. */
  predicate Linked(w: World, u: Setup)
    requires Configured(u)
  {
    forall k | 0 < k < |w.starts| && k !in w.refused :: Follows(w, u, k, w.starts[k])
  }

  /** Every event is paced, refusals leave no gap, and no rotation writes. */
  predicate PacedRun(w: World, u: Setup, events: seq<Event>)
    requires Configured(u)
    decreases |events|
  {
    events == [] ||
    (&& Paced(w, u, events[0]) && !events[0].WriteRotation?
     && Linked(Step(w, u, events[0]), u)
     && PacedRun(Step(w, u, events[0]), u, events[1..]))
  }

  predicate AllStarted(w: World) {
    && w.starts != [] && 0 in w.done && 0 !in w.refused
    && (forall j | j in w.done :: j < |w.starts|)
    && (forall j | 0 <= j < |w.starts| :: w.starts[j] <= w.cache.now)
  }

  /** What has been read is the epoch, and finished attempts were touched after they started. */
  predicate OneEpochSoFar(w: World, u: Setup, epoch: string)
    requires Configured(u)
  {
    && w.epoch == epoch && w.minted == {}
    && (forall j | j in w.seen :: w.seen[j] == epoch)
    && (forall j | j in w.done && j < |w.starts| :: w.starts[j] <= w.touched)
    && (forall j | 0 <= j < |w.starts| && InFlight(w, j) :: w.cache.now <= w.starts[j] + R.FUDGE as real)
  }

  predicate CountersCovered(w: World, u: Setup, epoch: string)
    requires Configured(u)
  {
    forall c | c in w.counters :: c.epoch == epoch && C.Sec(c.at + c.window as real) <= LastSecond(w, u)
  }

  predicate Sound(w: World, u: Setup, epoch: string)
    requires Configured(u)
  {
    Traced(w, u) && AllStarted(w) && Linked(w, u) && OneEpochSoFar(w, u, epoch) && CountersCovered(w, u, epoch)
  }

  lemma FirstOpen(w: World) returns (k: nat)
    requires exists j: nat :: InFlight(w, j)
    ensures InFlight(w, k) && forall i: nat | i < k :: !InFlight(w, i)
  {
    var j: nat :| InFlight(w, j);
    var pending := set i: nat | i <= j && InFlight(w, i);
    assert j in pending;
    k := Least(pending);
    forall i: nat | i < k ensures !InFlight(w, i) {
      assert i !in pending;
    }
  }

  /** While an attempt is in flight, the row outlives the present moment. */
  lemma LiveNow(w: World, u: Setup, epoch: string)
    requires Configured(u) && Sound(w, u, epoch) && exists j: nat :: InFlight(w, j)
    ensures C.Sec(w.cache.now) <= LastSecond(w, u)
  {
    hide R.EpochTimeout, R.EpochKey, Traced, CountersCovered;
    var k := FirstOpen(w);
    assert k > 0;
    assert Follows(w, u, k, w.starts[k]);
    var i :| 0 <= i < k && i !in w.refused && w.starts[k] <= w.starts[i] + Longest(u) as real;
    assert !InFlight(w, i) && i in w.done;
    C.WholeSeconds(w.cache.now, w.touched + Timeout(u) as real, 0);
    C.WholeSeconds(w.touched, w.touched, Timeout(u));
  }

  lemma StartedStays(w: World, u: Setup, e: Event)
    requires Configured(u) && AllStarted(w)
    ensures AllStarted(Step(w, u, e))
  {
    hide C.CanStore, C.BaseSet, C.Purge, R.EpochTimeout, R.EpochKey, R.ConfiguredWindow;
  }

  /** No candidate is stored and every read finds the epoch. */
  lemma EpochStays(w: World, u: Setup, epoch: string, e: Event)
    requires Configured(u) && Sound(w, u, epoch) && Paced(w, u, e) && !e.WriteRotation?
    ensures OneEpochSoFar(Step(w, u, e), u, epoch)
  {
    hide C.Step, R.EpochTimeout, R.EpochKey, R.ConfiguredWindow, WritersKnown, Linked, CountersCovered, Foreign, CandidateStep;
    if Possible(w, u, e) {
      if e.WriteCandidate? || e.Read? || e.Touch? {
        assert InFlight(w, e.j);
        LiveNow(w, u, epoch);
      }
      NowMoves(w, u, e);
      if e.WriteCandidate? { CandidateIsIdle(w, u, epoch, e.j, e.candidate, e.ok); }
    }
  }

  lemma CandidateIsIdle(w: World, u: Setup, epoch: string, j: nat, candidate: string, ok: bool)
    requires Configured(u) && Traced(w, u) && InFlight(w, j) && C.Sec(w.cache.now) <= LastSecond(w, u)
    ensures var w1 := CandidateStep(w, u, j, candidate, ok); w1 == w.(cache := w1.cache)
  {
    hide R.EpochTimeout, R.EpochKey, C.ExpiresAt;
  }

  lemma NowMoves(w: World, u: Setup, e: Event)
    requires Configured(u) && Possible(w, u, e)
    ensures Step(w, u, e).cache.now == if e.Tick? then w.cache.now + e.elapsed else w.cache.now
  {
    hide C.CanStore, C.BaseSet, C.Purge, R.EpochTimeout, R.EpochKey, R.ConfiguredWindow;
  }

  /** Touches only move the row's last second on, and a new counter ends before it. */
  lemma CountersStayCovered(w: World, u: Setup, epoch: string, e: Event)
    requires Configured(u) && Sound(w, u, epoch) && Paced(w, u, e) && !e.WriteRotation?
    ensures CountersCovered(Step(w, u, e), u, epoch)
  {
    hide C.Step, R.EpochTimeout, R.EpochKey, R.ConfiguredWindow, WritersKnown, Linked, Foreign, CandidateStep;
    if Possible(w, u, e) {
      C.WholeSeconds(w.touched, w.cache.now, 0);
      if e.WriteCandidate? {
        LiveNow(w, u, epoch);
        CandidateIsIdle(w, u, epoch, e.j, e.candidate, e.ok);
      }
      if e.Count? {
        CounterEndsFirst(w, u, e.j, e.window);
      }
    }
  }

  /** A failure counted within a minute of the attempt's start ends before the row does. */
  lemma CounterEndsFirst(w: World, u: Setup, j: nat, window: int)
    requires Configured(u) && R.ConfiguredWindow(u.verificationRate, u.optionsRate, window)
    requires j < |w.starts| && w.starts[j] <= w.touched && w.cache.now <= w.starts[j] + R.FUDGE as real
    ensures C.Sec(w.cache.now + window as real) <= LastSecond(w, u)
  {
    R.TimeoutCoversWindows(u.verificationRate, u.optionsRate);
    hide R.EpochTimeout, R.ConfiguredWindow;
    C.WholeSeconds(w.cache.now + window as real, w.touched + Timeout(u) as real, 0);
    C.WholeSeconds(w.touched, w.touched, Timeout(u));
  }

  lemma StepStaysSound(w: World, u: Setup, epoch: string, e: Event)
    requires Configured(u) && Sound(w, u, epoch) && Paced(w, u, e) && !e.WriteRotation? && Linked(Step(w, u, e), u)
    ensures Sound(Step(w, u, e), u, epoch)
  {
    hide Step, Traced, AllStarted, OneEpochSoFar, CountersCovered, Paced, Configured, Linked;
    StepStaysTraced(w, u, e);
    StartedStays(w, u, e);
    EpochStays(w, u, epoch, e);
    CountersStayCovered(w, u, epoch, e);
  }

  lemma {:induction false} PacedRunIsSound(w: World, u: Setup, epoch: string, events: seq<Event>)
    requires Configured(u) && Sound(w, u, epoch) && PacedRun(w, u, events)
    ensures Sound(Run(w, u, events), u, epoch)
    decreases |events|
  {
    hide Step, Sound, Paced, Configured, Linked;
    if events != [] {
      StepStaysSound(w, u, epoch, events[0]);
      PacedRunIsSound(Step(w, u, events[0]), u, epoch, events[1..]);
    }
  }

  /** Between rotations, attempts of one user and address that follow each other within the longest
      configured window and take at most a minute all read one epoch, however they overlap, however
      often the password stage is restarted, whatever other traffic the cache has and whichever
      attempts it refuses; and the epoch is still read at every moment of the window of every counter
      an attempt has counted under it. */
  lemma OneEpoch(w: World, u: Setup, epoch: string, events: seq<Event>)
    requires Configured(u) && Sound(w, u, epoch) && PacedRun(w, u, events)
    ensures var w1 := Run(w, u, events);
            && (forall j | j in w1.seen :: w1.seen[j] == epoch)
            && (forall c | c in w1.counters :: c.epoch == epoch)
            && ((exists c :: c in w1.counters && w1.cache.now <= c.at + c.window as real) ==>
                  C.Get(w1.cache.rows, Key(u), w1.cache.now) == Some(epoch))
  {
    hide Run, PacedRun, R.EpochTimeout, R.EpochKey, WritersKnown, Linked, AllStarted;
    PacedRunIsSound(w, u, epoch, events);
    var w1 := Run(w, u, events);
    if c :| c in w1.counters && w1.cache.now <= c.at + c.window as real {
      C.WholeSeconds(w1.cache.now, c.at + c.window as real, 0);
    }
  }

  /** The start of such a run: an attempt that has just created or refreshed the epoch. */
  function Fresh(u: Setup, rows: map<string, C.Row<string>>, epoch: string, now: real): World {
    World(C.World(rows, map[], now, []), epoch, now, [now], map[0 := epoch], {}, {0}, {}, [])
  }

  lemma FreshIsSound(u: Setup, rows: map<string, C.Row<string>>, epoch: string, now: real)
    requires Configured(u) && Key(u) in rows && rows[Key(u)] == C.Row(epoch, C.ExpiresAt(now, Timeout(u)))
    ensures Sound(Fresh(u, rows, epoch, now), u, epoch)
  {
    hide R.EpochTimeout, R.EpochKey;
    C.WholeSeconds(now, now, Timeout(u));
  }

  // ---------------------------------------------------------------- exactly when an epoch is kept

  /** The event stores a candidate: the attempt has passed its check, the database answers and the
      row's last second has passed. */
  predicate StoresCandidate(w: World, u: Setup, e: Event)
    requires Configured(u)
  {
    && e.WriteCandidate? && InFlight(w, e.j)
    && e.ok && Attempt(e.j) in w.cache.inflight && LastSecond(w, u) < C.Sec(w.cache.now)
  }

  predicate NeverLate(w: World, u: Setup, events: seq<Event>)
    requires Configured(u)
    decreases |events|
  {
    events == [] || (!StoresCandidate(w, u, events[0]) && NeverLate(Step(w, u, events[0]), u, events[1..]))
  }

  /** No rotation writes, and no candidate is this epoch. */
  predicate Candidates(epoch: string, events: seq<Event>) {
    forall e | e in events :: !e.WriteRotation? && (e.WriteCandidate? ==> e.candidate != epoch)
  }

  lemma ChangesWhenStored(w: World, u: Setup, epoch: string, e: Event)
    requires Configured(u) && Traced(w, u) && Candidates(epoch, [e])
    ensures Step(w, u, e).epoch == if StoresCandidate(w, u, e) then e.candidate else w.epoch
    ensures StoresCandidate(w, u, e) ==> e.candidate != epoch
  {
    assert e in [e];
    if Possible(w, u, e) {
      EpochChangesExactly(w, u, e);
    }
  }

  lemma {:induction false} LostForGood(w: World, u: Setup, epoch: string, events: seq<Event>)
    requires Configured(u) && Traced(w, u) && Candidates(epoch, events) && w.epoch != epoch
    ensures Run(w, u, events).epoch != epoch
    decreases |events|
  {
    hide Step, Traced, Configured, StoresCandidate;
    if events != [] {
      assert Candidates(epoch, [events[0]]) && Candidates(epoch, events[1..]);
      ChangesWhenStored(w, u, epoch, events[0]);
      StepStaysTraced(w, u, events[0]);
      LostForGood(Step(w, u, events[0]), u, epoch, events[1..]);
    }
  }

  /** Over any run at any pace, an epoch that no rotation replaces is kept exactly when no attempt
      writes after the last touch's second plus the longest window plus sixty. */
  lemma {:induction false} EpochKeptExactly(w: World, u: Setup, epoch: string, events: seq<Event>)
    requires Configured(u) && Traced(w, u) && Candidates(epoch, events) && w.epoch == epoch
    ensures Run(w, u, events).epoch == epoch <==> NeverLate(w, u, events)
    decreases |events|
  {
    hide Step, Traced, Configured, StoresCandidate;
    if events != [] {
      assert Candidates(epoch, [events[0]]) && Candidates(epoch, events[1..]);
      ChangesWhenStored(w, u, epoch, events[0]);
      StepStaysTraced(w, u, events[0]);
      var w1 := Step(w, u, events[0]);
      if StoresCandidate(w, u, events[0]) {
        LostForGood(w1, u, epoch, events[1..]);
      } else {
        EpochKeptExactly(w1, u, epoch, events[1..]);
      }
    }
  }

  lemma RunFirst(w: World, u: Setup, e: Event, rest: seq<Event>)
    requires Configured(u)
    ensures Run(w, u, [e] + rest) == Run(Step(w, u, e), u, rest)
  {
    hide Step, R.EpochTimeout;
    assert ([e] + rest)[1..] == rest;
  }

  lemma FiveEvents(w: World, u: Setup, a: Event, b: Event, c: Event, d: Event, e: Event)
    requires Configured(u)
    ensures Run(w, u, [a, b, c, d, e]) == Step(Step(Step(Step(Step(w, u, a), u, b), u, c), u, d), u, e)
  {
    hide Step, R.EpochTimeout;
    var w3 := Step(Step(Step(w, u, a), u, b), u, c);
    assert [a, b, c, d, e] == [a] + ([b] + ([c] + ([d] + ([e] + []))));
    RunFirst(w, u, a, [b] + ([c] + ([d] + ([e] + []))));
    RunFirst(Step(w, u, a), u, b, [c] + ([d] + ([e] + [])));
    RunFirst(Step(Step(w, u, a), u, b), u, c, [d] + ([e] + []));
    RunFirst(w3, u, d, [e] + []);
    RunFirst(Step(w3, u, d), u, e, []);
  }

  /** An attempt on its own, after a pause, up to its write. */
  function PausedTo(u: Setup, rows: map<string, C.Row<string>>, epoch: string, now: real, pause: real): World {
    World(C.World(rows, map[Attempt(1) := C.Pending(Key(u), C.AddMode)], now + pause, []), epoch, now, [now, now + pause],
          map[0 := epoch], {}, {0}, {}, [])
  }

  lemma PausedRun(u: Setup, rows: map<string, C.Row<string>>, epoch: string, now: real, pause: real)
    requires Configured(u) && Key(u) in rows && pause >= 0.0
    ensures var w := Fresh(u, rows, epoch, now);
            Step(Step(Step(w, u, Tick(pause)), u, StartAttempt), u, CheckRoom(1)) == PausedTo(u, rows, epoch, now, pause)
  {
    hide R.EpochTimeout, R.EpochKey, C.BaseSet, C.Purge, R.ConfiguredWindow;
  }

  lemma PausedFields(u: Setup, rows: map<string, C.Row<string>>, epoch: string, now: real, pause: real)
    requires Configured(u)
    ensures var w := PausedTo(u, rows, epoch, now, pause);
            && InFlight(w, 1) && Attempt(1) in w.cache.inflight && w.epoch == epoch && w.cache.now == now + pause
            && LastSecond(w, u) == C.Sec(now) + Longest(u) + R.FUDGE
  {
  }

  lemma ReadFinds(w: World, u: Setup, j: nat)
    requires Configured(u) && RowTraced(w, u) && InFlight(w, j) && C.Sec(w.cache.now) <= LastSecond(w, u)
    ensures Step(w, u, Read(j)).seen == w.seen[j := w.epoch]
  {
    hide C.Step, R.EpochTimeout, R.EpochKey, R.ConfiguredWindow;
  }

  /** What an attempt reads right after its write. */
  lemma PausedRead(w: World, u: Setup, candidate: string)
    requires Configured(u) && Traced(w, u) && InFlight(w, 1) && Attempt(1) in w.cache.inflight
    ensures var w1 := Step(Step(w, u, WriteCandidate(1, candidate, true)), u, Read(1));
            1 in w1.seen && w1.seen[1] == if C.Sec(w.cache.now) <= LastSecond(w, u) then w.epoch else candidate
  {
    R.TimeoutCoversWindows(u.verificationRate, u.optionsRate);
    hide C.Step, CandidateStep, R.EpochTimeout, R.EpochKey, R.ConfiguredWindow, WritersKnown;
    CandidateStaysTraced(w, u, 1, candidate, true);
    CandidateKeepsTime(w, u, 1, candidate, true);
    var w1 := CandidateStep(w, u, 1, candidate, true);
    assert Step(w, u, WriteCandidate(1, candidate, true)) == w1;
    ReadFinds(w1, u, 1);
  }

  lemma CandidateKeepsTime(w: World, u: Setup, j: nat, candidate: string, ok: bool)
    requires Configured(u)
    ensures var w1 := CandidateStep(w, u, j, candidate, ok);
            w1.cache.now == w.cache.now && w1.starts == w.starts && w1.done == w.done && w1.refused == w.refused
  {
    hide C.BaseSet, R.EpochTimeout, R.EpochKey;
  }

  /** A lone attempt after a pause keeps the epoch exactly when it comes no later than the longest
      window and a minute after the last touch; later, its candidate takes over. */
  lemma PauseExactly(u: Setup, rows: map<string, C.Row<string>>, epoch: string, candidate: string, now: real, pause: real)
    requires Configured(u) && Key(u) in rows && rows[Key(u)] == C.Row(epoch, C.ExpiresAt(now, Timeout(u)))
    requires pause >= 0.0
    ensures var events := [Tick(pause), StartAttempt, CheckRoom(1), WriteCandidate(1, candidate, true), Read(1)];
            var w1 := Run(Fresh(u, rows, epoch, now), u, events);
            && 1 in w1.seen
            && w1.seen[1] == if C.Sec(now + pause) <= C.Sec(now) + Longest(u) + R.FUDGE then epoch else candidate
  {
    var w := Fresh(u, rows, epoch, now);
    FreshIsSound(u, rows, epoch, now);
    hide Run, Step, Configured, Traced, R.EpochTimeout, R.EpochKey, C.ExpiresAt, C.Sec, PausedTo;
    StepStaysTraced(w, u, Tick(pause));
    var w1 := Step(w, u, Tick(pause));
    StepStaysTraced(w1, u, StartAttempt);
    var w2 := Step(w1, u, StartAttempt);
    StepStaysTraced(w2, u, CheckRoom(1));
    PausedRun(u, rows, epoch, now, pause);
    PausedFields(u, rows, epoch, now, pause);
    PausedRead(PausedTo(u, rows, epoch, now, pause), u, candidate);
    FiveEvents(w, u, Tick(pause), StartAttempt, CheckRoom(1), WriteCandidate(1, candidate, true), Read(1));
  }
}
