/** The steps of attempts and rotations are the service's operations taken apart: run alone, with whatever
    pauses, they end as the operation does. */
module RateEpochSteps {
  import opened Prelude
  import opened RateEpochRuns
  import C = SecurityCache
  import R = RateEpochs

  lemma RunFirst(w: World, u: Setup, e: Event, rest: seq<Event>)
    requires Configured(u)
    ensures Run(w, u, [e] + rest) == Run(Step(w, u, e), u, rest)
  {
    hide Step;
    assert ([e] + rest)[1..] == rest;
  }

  lemma RunThree(w: World, u: Setup, a: Event, b: Event, c: Event)
    requires Configured(u)
    ensures Run(w, u, [a, b, c]) == Step(Step(Step(w, u, a), u, b), u, c)
  {
    hide Step;
    assert [a, b, c] == [a] + ([b] + ([c] + []));
    RunFirst(w, u, a, [b] + ([c] + []));
    RunFirst(Step(w, u, a), u, b, [c] + []);
    RunFirst(Step(Step(w, u, a), u, b), u, c, []);
  }

  /** Clock readings after these pauses, with a database that carries out the touch. */
  function TimesOf(now: real, first: real, second: real, third: real, ok: bool): R.Times {
    R.Times(now, now + first, now + first, now + first + second, now + first + second + third, ok, true)
  }

  /** The attempt is about to begin its access. */
  predicate Ready(w: World, j: nat) {
    InFlight(w, j) && j !in w.seen && j !in w.minted && Attempt(j) !in w.cache.inflight
  }

  function Added(w: World, u: Setup, candidate: string, first: real, ok: bool): (map<string, C.Row<string>>, C.AddResult)
    requires Configured(u)
  {
    var written := w.cache.now + first;
    C.Add(w.cache.rows, u.capacity, Key(u), candidate, Timeout(u), w.cache.now, written, written, ok)
  }

  /** Room check and write of an attempt. */
  function Offers(w: World, u: Setup, j: nat, candidate: string, first: real, ok: bool): World
    requires Configured(u)
  {
    Run(w, u, [CheckRoom(j), Tick(first), WriteCandidate(j, candidate, ok)])
  }

  lemma OffersExactly(w: World, u: Setup, j: nat, candidate: string, first: real, ok: bool)
    requires Configured(u) && Ready(w, j) && first >= 0.0
    ensures var (rows, r) := Added(w, u, candidate, first, ok);
            var w1 := Offers(w, u, j, candidate, first, ok);
            && w1.cache.rows == rows && w1.cache.inflight == w.cache.inflight && w1.cache.now == w.cache.now + first
            && w1 == if r.Stored?
                     then w.(cache := w1.cache, epoch := candidate, touched := w.cache.now + first, minted := w.minted + {j})
                     else w.(cache := w1.cache)
  {
    hide Run, C.Step, C.Add, R.EpochTimeout, R.EpochKey, TouchStep, ReadStep, RotationStep;
    RunThree(w, u, CheckRoom(j), Tick(first), WriteCandidate(j, candidate, ok));
    C.AddInSteps(w.cache, u.capacity, Attempt(j), Key(u), candidate, Timeout(u), first, ok);
    CheckKeeps(w.cache, u.capacity, Attempt(j), Key(u), first);
  }

  lemma CheckKeeps(c: C.World<string>, capacity: nat, writer: nat, key: string, pause: real)
    requires pause >= 0.0
    ensures var c1 := C.Step(C.Step(c, capacity, C.Check(writer, key, C.AddMode)), capacity, C.Advance(pause));
            c1.log == c.log && c1.now == c.now + pause
  {
  }

  /** Read and touch of an attempt. */
  function Reads(w: World, u: Setup, j: nat, second: real, third: real): World
    requires Configured(u)
  {
    Step(Run(w, u, [Tick(second), Read(j), Tick(third)]), u, Touch(j))
  }

  lemma ReadsExactly(w: World, u: Setup, j: nat, second: real, third: real)
    requires Configured(u) && InFlight(w, j) && j !in w.seen && second >= 0.0 && third >= 0.0
    ensures var read, touched := w.cache.now + second, w.cache.now + second + third;
            var epoch := C.Get(w.cache.rows, Key(u), read);
            var (rows, found) := if epoch.None? || j in w.minted then (w.cache.rows, true)
                                 else C.BaseSet(w.cache.rows, u.capacity, C.TouchMode, Key(u), "", Timeout(u), touched, true);
            Reads(w, u, j, second, third)
              == w.(cache := w.cache.(rows := rows, now := touched),
                    seen := if epoch.Some? then w.seen[j := epoch.value] else w.seen,
                    touched := if epoch.Some? && found && j !in w.minted then touched else w.touched,
                    done := if epoch.Some? && found then w.done + {j} else w.done,
                    refused := if epoch.Some? && found then w.refused else w.refused + {j})
  {
    hide Run, R.EpochTimeout, R.EpochKey, CandidateStep, RotationStep;
    RunThree(w, u, Tick(second), Read(j), Tick(third));
  }

  /** An attempt alone whose write is answered ends as the access does: same cache, and it has finished with
      that epoch exactly if the access answers with it; an epoch too short is only refused afterwards. */
  lemma UninterruptedIsAccess(w: World, u: Setup, j: nat, candidate: string, first: real, second: real, third: real, ok: bool)
    requires Configured(u) && Ready(w, j) && first >= 0.0 && second >= 0.0 && third >= 0.0
    requires var r := Added(w, u, candidate, first, ok).1; r.Stored? || r.AlreadyThere?
    ensures var w1 := Reads(Offers(w, u, j, candidate, first, ok), u, j, second, third);
            var t := TimesOf(w.cache.now, first, second, third, ok);
            var (rows, r) := R.GetEpoch(w.cache.rows, u.capacity, Key(u), candidate, Timeout(u), t);
            && w1.cache.rows == rows && w1.cache.inflight == w.cache.inflight && w1.cache.now == t.touched
            && w1.starts == w.starts && w1.counters == w.counters
            && (forall i: nat | i != j :: AsBefore(w, w1, i))
            && (j in w1.done <==> j !in w1.refused)
            && (j in w1.done ==> j in w1.seen)
            && r == (if j in w1.done && |w1.seen[j]| >= R.EPOCH_BYTES then Open(w1.seen[j]) else Rejected(R.UNAVAILABLE))
  {
    hide Offers, Reads, C.Add, C.BaseSet, C.Get, R.EpochTimeout, R.EpochKey;
    OffersExactly(w, u, j, candidate, first, ok);
    ReadsExactly(Offers(w, u, j, candidate, first, ok), u, j, second, third);
  }

  /** Another attempt is where it was. */
  predicate AsBefore(w: World, w1: World, i: nat) {
    && (i in w1.done <==> i in w.done) && (i in w1.refused <==> i in w.refused) && (i in w1.minted <==> i in w.minted)
    && (i in w1.seen <==> i in w.seen) && (i in w.seen ==> w1.seen[i] == w.seen[i])
  }

  /** An attempt alone whose write meets a cache error is refused, and the cache is as the access leaves it. */
  lemma ErrorIsRefusal(w: World, u: Setup, j: nat, candidate: string, first: real, second: real, third: real, ok: bool)
    requires Configured(u) && Ready(w, j) && first >= 0.0
    requires var r := Added(w, u, candidate, first, ok).1; r.CapacityError? || r.WriteError?
    ensures var w1 := Step(Offers(w, u, j, candidate, first, ok), u, Refuse(j));
            var t := TimesOf(w.cache.now, first, second, third, ok);
            && R.GetEpoch(w.cache.rows, u.capacity, Key(u), candidate, Timeout(u), t) == (w1.cache.rows, Rejected(R.UNAVAILABLE))
            && w1.cache.inflight == w.cache.inflight
            && w1 == w.(cache := w1.cache, refused := w.refused + {j})
  {
    hide Offers, C.Add, R.EpochTimeout, R.EpochKey, CandidateStep, RotationStep, TouchStep, ReadStep;
    OffersExactly(w, u, j, candidate, first, ok);
    GivesUp(Offers(w, u, j, candidate, first, ok).cache, u.capacity, Attempt(j));
  }

  lemma GivesUp(c: C.World<string>, capacity: nat, writer: nat)
    requires writer !in c.inflight
    ensures C.Step(c, capacity, C.GiveUp(writer)) == c
  {
    assert c.inflight - {writer} == c.inflight;
  }

  /** A rotation alone leaves the cache as the service's rotation does; if stored, its epoch is the one watched. */
  lemma UninterruptedIsRotation(w: World, u: Setup, p: nat, epoch: string, first: real, ok: bool)
    requires Configured(u) && Rotation(p) !in w.cache.inflight && first >= 0.0
    ensures var w1 := Run(w, u, [CheckRotation(p), Tick(first), WriteRotation(p, epoch, ok)]);
            var written := w.cache.now + first;
            var (rows, r) := C.Set(w.cache.rows, u.capacity, Key(u), epoch, Timeout(u), w.cache.now, written, ok);
            && w1 == w.(cache := C.World(rows, w.cache.inflight, written, w.cache.log),
                        epoch := if r.Stored? then epoch else w.epoch, touched := if r.Stored? then written else w.touched)
            && rows == R.Rotate(w.cache.rows, u.capacity, Key(u), epoch, Timeout(u), TimesOf(w.cache.now, first, 0.0, 0.0, ok)).0
  {
    hide Run, C.Step, C.Set, C.Get, R.EpochTimeout, R.EpochKey, TouchStep, ReadStep, CandidateStep;
    RunThree(w, u, CheckRotation(p), Tick(first), WriteRotation(p, epoch, ok));
    C.SetInSteps(w.cache, u.capacity, Rotation(p), Key(u), epoch, Timeout(u), first, ok);
    CheckStays(w.cache, u.capacity, Rotation(p), Key(u), first);
    StoredExactly(w.cache, u, p, epoch, first, ok);
  }

  lemma CheckStays(c: C.World<string>, capacity: nat, writer: nat, key: string, pause: real)
    requires pause >= 0.0
    ensures var c1 := C.Step(c, capacity, C.Check(writer, key, C.SetMode));
            C.Step(c1, capacity, C.Advance(pause)) == c1.(now := c.now + pause)
  {
  }

  lemma StoredExactly(c: C.World<string>, u: Setup, p: nat, epoch: string, first: real, ok: bool)
    requires Configured(u)
    ensures var r := C.Set(c.rows, u.capacity, Key(u), epoch, Timeout(u), c.now, c.now + first, ok).1;
            r.Stored? <==> ok && !r.CapacityError?
  {
    hide R.EpochTimeout, R.EpochKey;
  }

  /** A failure counted after an access is counted under the epoch that access read, for that window. */
  lemma CountedUnderItsEpoch(w: World, u: Setup, j: nat, window: int)
    requires Configured(u) && j in w.done && j in w.seen
    ensures var w1 := Step(w, u, Count(j, window));
            w1 == if R.ConfiguredWindow(u.verificationRate, u.optionsRate, window)
                  then w.(counters := w.counters + [Counter(w.cache.now, window, w.seen[j])]) else w
  {
  }
}
