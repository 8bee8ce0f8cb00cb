/** The fail-closed database cache: rows live until their whole second has passed, and
    nothing but expiry ever removes one. */
module SecurityCache {
  import opened Prelude

  /** A clock reading, in seconds. */
  type Instant = real

  datatype Row<+V> = Row(value: V, expires: int)

  function Sec(t: Instant): int { t.Floor }

  /** `datetime.fromtimestamp(now + timeout).replace(microsecond=0)`. */
  function ExpiresAt(t: Instant, timeout: int): int { Sec(t + timeout as real) }

  predicate Expired<V>(row: Row<V>, t: Instant) { row.expires < Sec(t) }

  predicate LiveAt<V>(rows: map<string, Row<V>>, key: string, t: Instant) {
    key in rows && !Expired(rows[key], t)
  }

  /** `DELETE ... WHERE expires < now`. */
  function Purge<V>(rows: map<string, Row<V>>, t: Instant): map<string, Row<V>> {
    map k | k in rows && !Expired(rows[k], t) :: rows[k]
  }

  /** `_can_store`: an existing key may always be written; a new one needs room. */
  function CanStore<V>(rows: map<string, Row<V>>, capacity: nat, key: string, t: Instant): (map<string, Row<V>>, bool) {
    if key in rows then (rows, true) else (Purge(rows, t), |Purge(rows, t)| < capacity)
  }

  datatype Mode = AddMode | SetMode | TouchMode

  /** Contract of the inherited `_base_set` with the overridden `_cull`: cull when over
      budget, then insert, replace or refuse. `ok` is false when the database fails. */
  function BaseSet<V>(rows: map<string, Row<V>>, capacity: nat, mode: Mode, key: string, value: V,
                      timeout: int, t: Instant, ok: bool): (map<string, Row<V>>, bool) {
    var kept := if |rows| > capacity then Purge(rows, t) else rows;
    var expires := ExpiresAt(t, timeout);
    if !ok then (kept, false)
    else match mode
      case AddMode =>
        if key in kept && !Expired(kept[key], t) then (kept, false) else (kept[key := Row(value, expires)], true)
      case SetMode => (kept[key := Row(value, expires)], true)
      case TouchMode =>
        if key in kept then (kept[key := Row(kept[key].value, expires)], true) else (kept, false)
  }

  /** Contract of the inherited `get`: the value of a row that has not expired. */
  function Get<V>(rows: map<string, Row<V>>, key: string, t: Instant): Option<V> {
    if LiveAt(rows, key, t) then Some(rows[key].value) else None
  }

  datatype AddResult = Stored | AlreadyThere | CapacityError | WriteError

  /** `add`, with the clock read at the room check, at the write and at the verifying read. */
  function Add<V>(rows: map<string, Row<V>>, capacity: nat, key: string, value: V, timeout: int,
                  checked: Instant, written: Instant, verified: Instant, ok: bool): (map<string, Row<V>>, AddResult) {
    var (roomy, room) := CanStore(rows, capacity, key, checked);
    if !room then (roomy, CapacityError)
    else
      var (after, stored) := BaseSet(roomy, capacity, AddMode, key, value, timeout, written, ok);
      if stored then (after, Stored)
      else if Get(after, key, verified).None? then (after, WriteError)
      else (after, AlreadyThere)
  }

  /** `set`, with the clock read at the room check and at the write. */
  function Set<V>(rows: map<string, Row<V>>, capacity: nat, key: string, value: V, timeout: int,
                  checked: Instant, written: Instant, ok: bool): (map<string, Row<V>>, AddResult) {
    var (roomy, room) := CanStore(rows, capacity, key, checked);
    if !room then (roomy, CapacityError)
    else
      var (after, stored) := BaseSet(roomy, capacity, SetMode, key, value, timeout, written, ok);
      (after, if stored then Stored else WriteError)
  }

  class FailClosedCache<V> {
    var rows: map<string, Row<V>>
    const capacity: nat

    constructor (capacity: nat)
      ensures rows == map[] && this.capacity == capacity
    {
      rows := map[];
      this.capacity := capacity;
    }

    method DeleteExpired(t: Instant)
      modifies this
      ensures rows == Purge(old(rows), t)
    {
      var stale := set k | k in rows && rows[k].expires < Sec(t);
      rows := rows - stale;
      assert rows == Purge(old(rows), t);
    }

    method CanStoreKey(key: string, t: Instant) returns (room: bool)
      modifies this
      ensures (rows, room) == CanStore(old(rows), capacity, key, t)
    {
      if key in rows { return true; }
      DeleteExpired(t);
      room := |rows| < capacity;
    }

    method BaseWrite(mode: Mode, key: string, value: V, timeout: int, t: Instant, ok: bool) returns (stored: bool)
      modifies this
      ensures (rows, stored) == BaseSet(old(rows), capacity, mode, key, value, timeout, t, ok)
    {
      if |rows| > capacity { DeleteExpired(t); }
      if !ok { return false; }
      var present := key in rows;
      if mode.TouchMode? && present {
        rows := rows[key := rows[key].(expires := ExpiresAt(t, timeout))];
      } else if mode.TouchMode? || (mode.AddMode? && present && !(rows[key].expires < Sec(t))) {
        return false;
      } else {
        rows := rows[key := Row(value, ExpiresAt(t, timeout))];
      }
      stored := true;
    }

    method AddKey(key: string, value: V, timeout: int, checked: Instant, written: Instant, verified: Instant, ok: bool)
      returns (r: AddResult)
      modifies this
      ensures (rows, r) == Add(old(rows), capacity, key, value, timeout, checked, written, verified, ok)
    {
      var room := CanStoreKey(key, checked);
      if !room { return CapacityError; }
      var stored := BaseWrite(AddMode, key, value, timeout, written, ok);
      if stored { return Stored; }
      if Get(rows, key, verified).None? { return WriteError; }
      r := AlreadyThere;
    }

    method SetKey(key: string, value: V, timeout: int, checked: Instant, written: Instant, ok: bool)
      returns (r: AddResult)
      modifies this
      ensures (rows, r) == Set(old(rows), capacity, key, value, timeout, checked, written, ok)
    {
      var room := CanStoreKey(key, checked);
      if !room { return CapacityError; }
      var stored := BaseWrite(SetMode, key, value, timeout, written, ok);
      r := if stored then Stored else WriteError;
    }
  }

  // ---------------------------------------------------------------- arithmetic of expiry

  /** Truncation commutes with a whole number of seconds, and is monotone. */
  lemma WholeSeconds(t: Instant, u: Instant, timeout: int)
    ensures ExpiresAt(t, timeout) == Sec(t) + timeout
    ensures t <= u ==> Sec(t) <= Sec(u)
  {
    assert t + timeout as real - 1.0 < (Sec(t) + timeout) as real <= t + timeout as real;
  }

  /** A key claimed once can be claimed again exactly when the write comes after the whole
      second in which the first claim ends. */
  lemma AgainExactly<V>(rows: map<string, Row<V>>, capacity: nat, key: string, value: V, timeout: int,
                        claimed: Instant, checked: Instant, written: Instant, verified: Instant)
    requires key in rows && rows[key].expires == ExpiresAt(claimed, timeout) && |rows| <= capacity
    requires checked <= written <= verified
    ensures Add(rows, capacity, key, value, timeout, checked, written, verified, true).1.Stored?
            <==> Sec(claimed) + timeout < Sec(written)
  {
    WholeSeconds(claimed, claimed, timeout);
  }

  function LiveKeys<V>(rows: map<string, Row<V>>, t: Instant): set<string> {
    set k | k in rows && !Expired(rows[k], t)
  }

  /** A new key is refused exactly when live rows fill the cache; a key that has a row never is. */
  lemma RefusedExactly<V>(rows: map<string, Row<V>>, capacity: nat, key: string, value: V, timeout: int,
                          checked: Instant, written: Instant, verified: Instant, ok: bool)
    ensures Add(rows, capacity, key, value, timeout, checked, written, verified, ok).1.CapacityError?
            <==> key !in rows && |LiveKeys(rows, checked)| >= capacity
    ensures Set(rows, capacity, key, value, timeout, checked, written, ok).1.CapacityError?
            <==> key !in rows && |LiveKeys(rows, checked)| >= capacity
  {
    hide BaseSet;
    var kept := Purge(rows, checked);
    assert kept.Keys == LiveKeys(rows, checked);
    assert |kept| == |kept.Keys|;
  }

  /** There is room for a key: it has a row, or the live rows do not fill the cache. */
  predicate Room<V>(rows: map<string, Row<V>>, capacity: nat, key: string, t: Instant) {
    key in rows || |LiveKeys(rows, t)| < capacity
  }

  /** A key is readable until its last whole second has passed. */
  predicate Readable<V>(rows: map<string, Row<V>>, key: string, t: Instant) {
    key in rows && Sec(t) <= rows[key].expires
  }

  /** The rows after a write of the key: all live ones, and this one, until `timeout` seconds after the write. */
  ghost predicate Written<V>(rows: map<string, Row<V>>, after: map<string, Row<V>>, key: string, value: V, timeout: int, t: Instant) {
    && key in after && after[key].value == value && after[key].expires == Sec(t) + timeout
    && (forall k | k != key && Readable(rows, k, t) :: k in after && after[k] == rows[k])
    && (forall k | k != key && k in after :: k in rows && after[k] == rows[k])
  }

  /** The four ends of an `add`: no room; stored, if the database answers and the key is not readable when it is
      written; a write error, if it is not stored and not readable afterwards either; and already there. */
  lemma AddExactly<V>(rows: map<string, Row<V>>, capacity: nat, key: string, value: V, timeout: int,
                      checked: Instant, written: Instant, verified: Instant, ok: bool)
    requires checked <= written <= verified
    ensures var (after, r) := Add(rows, capacity, key, value, timeout, checked, written, verified, ok);
            && (r == CapacityError <==> !Room(rows, capacity, key, checked))
            && (r == Stored <==> Room(rows, capacity, key, checked) && ok && !Readable(rows, key, written))
            && (r == WriteError <==> Room(rows, capacity, key, checked) && (!ok || Readable(rows, key, written))
                                     && !Readable(rows, key, verified))
            && (r == Stored ==> Written(rows, after, key, value, timeout, written))
            && (r != Stored ==> forall k | k in after :: k in rows && after[k] == rows[k])
  {
    RefusedExactly(rows, capacity, key, value, timeout, checked, written, verified, ok);
    WholeSeconds(checked, written, timeout);
    WholeSeconds(written, verified, timeout);
    hide LiveKeys, ExpiresAt, Sec;
  }

  /** The three ends of a `set`: no room; stored, if the database answers; and a write error. */
  lemma SetExactly<V>(rows: map<string, Row<V>>, capacity: nat, key: string, value: V, timeout: int,
                      checked: Instant, written: Instant, ok: bool)
    requires checked <= written
    ensures var (after, r) := Set(rows, capacity, key, value, timeout, checked, written, ok);
            && (r == CapacityError <==> !Room(rows, capacity, key, checked))
            && (r == Stored <==> Room(rows, capacity, key, checked) && ok)
            && r != AlreadyThere
            && (r == Stored ==> Written(rows, after, key, value, timeout, written))
            && (r != Stored ==> forall k | k in after :: k in rows && after[k] == rows[k])
  {
    RefusedExactly(rows, capacity, key, value, timeout, checked, written, written, ok);
    WholeSeconds(checked, written, timeout);
    WholeSeconds(written, written, timeout);
    hide LiveKeys, ExpiresAt, Sec;
  }

  // ---------------------------------------------------------------- racing writers

  /** A writer that has passed the room check and has not written yet. */
  datatype Pending = Pending(key: string, mode: Mode)

  /** A successful `add`: which key, at which reading, for how long. */
  datatype Claim = Claim(key: string, at: Instant, timeout: int)

  datatype World<+V> = World(rows: map<string, Row<V>>, inflight: map<nat, Pending>, now: Instant, log: seq<Claim>)

  datatype Event<+V> =
    | Advance(elapsed: real)
    | Check(writer: nat, key: string, mode: Mode)
    | Write(writer: nat, value: V, timeout: int, ok: bool)
    | GiveUp(writer: nat)
    | TouchRow(key: string, timeout: int)
    | DropExpired

  function CheckStep<V>(w: World<V>, capacity: nat, writer: nat, key: string, mode: Mode): World<V> {
    if writer in w.inflight || mode.TouchMode? then w
    else
      var (rows, room) := CanStore(w.rows, capacity, key, w.now);
      w.(rows := rows, inflight := if room then w.inflight[writer := Pending(key, mode)] else w.inflight)
  }

  function WriteStep<V>(w: World<V>, capacity: nat, writer: nat, value: V, timeout: int, ok: bool): World<V> {
    if writer !in w.inflight then w
    else
      var p := w.inflight[writer];
      var (rows, stored) := BaseSet(w.rows, capacity, p.mode, p.key, value, timeout, w.now, ok);
      w.(rows := rows, inflight := w.inflight - {writer},
         log := if stored && p.mode.AddMode? then w.log + [Claim(p.key, w.now, timeout)] else w.log)
  }

  function Step<V>(w: World<V>, capacity: nat, e: Event<V>): World<V> {
    match e
    case Advance(elapsed) => if elapsed < 0.0 then w else w.(now := w.now + elapsed)
    case Check(writer, key, mode) => CheckStep(w, capacity, writer, key, mode)
    case Write(writer, value, timeout, ok) => WriteStep(w, capacity, writer, value, timeout, ok)
    case GiveUp(writer) => w.(inflight := w.inflight - {writer})
    case TouchRow(key, timeout) =>
      if key !in w.rows then w
      else w.(rows := BaseSet(w.rows, capacity, TouchMode, key, w.rows[key].value, timeout, w.now, true).0)
    case DropExpired => w.(rows := Purge(w.rows, w.now))
  }

  function Run<V>(w: World<V>, capacity: nat, events: seq<Event<V>>): World<V>
    decreases |events|
  {
    if events == [] then w else Run(Step(w, capacity, events[0]), capacity, events[1..])
  }

  /** Room check and write of one writer, with a pause between them: an `add` taken apart. */
  lemma AddInSteps<V>(w: World<V>, capacity: nat, writer: nat, key: string, value: V, timeout: int, pause: real, ok: bool)
    requires writer !in w.inflight && pause >= 0.0
    ensures var checked := Step(w, capacity, Check(writer, key, AddMode));
            var w1 := Step(Step(checked, capacity, Advance(pause)), capacity, Write(writer, value, timeout, ok));
            var written := w.now + pause;
            var (rows, r) := Add(w.rows, capacity, key, value, timeout, w.now, written, written, ok);
            && w1 == World(rows, w.inflight, written, if r.Stored? then w.log + [Claim(key, written, timeout)] else w.log)
            && (writer in checked.inflight <==> r != CapacityError)
  {
    hide CanStore, BaseSet;
    assert w.inflight[writer := Pending(key, AddMode)] - {writer} == w.inflight;
  }

  /** Likewise a `set`. */
  lemma SetInSteps<V>(w: World<V>, capacity: nat, writer: nat, key: string, value: V, timeout: int, pause: real, ok: bool)
    requires writer !in w.inflight && pause >= 0.0
    ensures var checked := Step(w, capacity, Check(writer, key, SetMode));
            var w1 := Step(Step(checked, capacity, Advance(pause)), capacity, Write(writer, value, timeout, ok));
            var (rows, r) := Set(w.rows, capacity, key, value, timeout, w.now, w.now + pause, ok);
            && w1 == World(rows, w.inflight, w.now + pause, w.log)
            && (writer in checked.inflight <==> r != CapacityError)
  {
    hide CanStore, BaseSet;
    assert w.inflight[writer := Pending(key, SetMode)] - {writer} == w.inflight;
  }

  /** The event may replace the row at k: a `set` of k in flight, or a touch of it. */
  predicate Rewrites<V>(w: World<V>, e: Event<V>, k: string) {
    match e
    case Write(writer, _, _, _) => writer in w.inflight && w.inflight[writer] == Pending(k, SetMode)
    case TouchRow(key, _) => key == k
    case _ => false
  }

  /** No step of any writer removes a row that has not expired, and none but a `set` or a
      touch of that very key changes it. */
  lemma LiveRowsStay<V>(w: World<V>, capacity: nat, e: Event<V>)
    requires forall i | i in w.inflight :: !w.inflight[i].mode.TouchMode?
    ensures var w1 := Step(w, capacity, e);
            && w.now <= w1.now
            && (forall k | LiveAt(w.rows, k, w1.now) :: k in w1.rows && (!Rewrites(w, e, k) ==> w1.rows[k] == w.rows[k]))
  {
    WholeSeconds(w.now, Step(w, capacity, e).now, 0);
  }

  // ---------------------------------------------------------------- exclusive claims

  /** Nothing in the run writes k except `add`. */
  ghost predicate AddOnly<V>(k: string, events: seq<Event<V>>) {
    forall e | e in events ::
      && (e.Check? && e.key == k ==> e.mode.AddMode?)
      && (e.TouchRow? ==> e.key != k)
  }

  predicate AddOnlyInFlight<V>(w: World<V>, k: string) {
    forall i | i in w.inflight :: w.inflight[i].key == k ==> w.inflight[i].mode.AddMode?
  }

  /** Each claim on k is either still held by a row or older than a whole second past its end. */
  ghost predicate ClaimHeld<V>(w: World<V>, c: Claim) {
    || (c.key in w.rows && ExpiresAt(c.at, c.timeout) <= w.rows[c.key].expires)
    || ExpiresAt(c.at, c.timeout) < Sec(w.now)
  }

  ghost predicate ClaimsHeld<V>(w: World<V>, k: string) {
    && AddOnlyInFlight(w, k)
    && (forall i | 0 <= i < |w.log| && w.log[i].key == k :: ClaimHeld(w, w.log[i]))
    && (forall i, j | 0 <= i < j < |w.log| && w.log[i].key == k && w.log[j].key == k ::
          ExpiresAt(w.log[i].at, w.log[i].timeout) < Sec(w.log[j].at))
  }

  lemma WriteKeepsClaims<V>(w: World<V>, capacity: nat, writer: nat, value: V, timeout: int, ok: bool, k: string)
    requires ClaimsHeld(w, k) && writer in w.inflight
    ensures ClaimsHeld(WriteStep(w, capacity, writer, value, timeout, ok), k)
  {
    hide ExpiresAt;
    WholeSeconds(w.now, w.now, timeout);
    var p := w.inflight[writer];
    var kept := if |w.rows| > capacity then Purge(w.rows, w.now) else w.rows;
    forall i | 0 <= i < |w.log| && w.log[i].key == k
      ensures (k in kept && ExpiresAt(w.log[i].at, w.log[i].timeout) <= kept[k].expires)
              || ExpiresAt(w.log[i].at, w.log[i].timeout) < Sec(w.now)
    {
      assert ClaimHeld(w, w.log[i]);
    }
  }

  lemma OthersKeepClaims<V>(w: World<V>, capacity: nat, e: Event<V>, k: string)
    requires ClaimsHeld(w, k) && !e.Write?
    requires (e.Check? && e.key == k ==> e.mode.AddMode?) && (e.TouchRow? ==> e.key != k)
    ensures ClaimsHeld(Step(w, capacity, e), k)
  {
    hide ExpiresAt;
    var w1 := Step(w, capacity, e);
    WholeSeconds(w.now, w1.now, 0);
    forall i | 0 <= i < |w1.log| && w1.log[i].key == k ensures ClaimHeld(w1, w1.log[i]) {
      assert ClaimHeld(w, w.log[i]);
    }
  }

  lemma StepKeepsClaims<V>(w: World<V>, capacity: nat, e: Event<V>, k: string)
    requires ClaimsHeld(w, k) && AddOnly(k, [e])
    ensures ClaimsHeld(Step(w, capacity, e), k)
  {
    hide ClaimsHeld;
    assert e in [e];
    if e.Write? {
      if e.writer in w.inflight { WriteKeepsClaims(w, capacity, e.writer, e.value, e.timeout, e.ok, k); }
    } else {
      OthersKeepClaims(w, capacity, e, k);
    }
  }

  /** A key that is only ever added is held by one claim at a time: a later claim comes
      strictly after the whole second in which the earlier one ends. */
  lemma {:induction false} ClaimsExclude<V>(w: World<V>, capacity: nat, events: seq<Event<V>>, k: string)
    requires ClaimsHeld(w, k) && AddOnly(k, events)
    ensures ClaimsHeld(Run(w, capacity, events), k)
    decreases |events|
  {
    if events != [] {
      StepKeepsClaims(w, capacity, events[0], k);
      ClaimsExclude(Step(w, capacity, events[0]), capacity, events[1..], k);
    }
  }

  // ---------------------------------------------------------------- capacity

  /** Keys stored, or about to be. Writes only move keys from the second to the first. */
  function Spoken<V>(w: World<V>): set<string> {
    w.rows.Keys + Wanted(w.inflight)
  }

  function Wanted(m: map<nat, Pending>): set<string> {
    set i | i in m :: m[i].key
  }

  lemma {:induction false} WantedAreFew(m: map<nat, Pending>)
    ensures |Wanted(m)| <= |m|
    decreases |m|
  {
    if m != map[] {
      var k :| k in m;
      var rest := m - {k};
      WantedAreFew(rest);
      forall x | x in Wanted(m) ensures x in Wanted(rest) + {m[k].key} {
        var i :| i in m && m[i].key == x;
        assert i == k || (i in rest && rest[i] == m[i]);
      }
      SubsetSize(Wanted(m), Wanted(rest) + {m[k].key});
      assert m.Keys == rest.Keys + {k};
    }
  }

  lemma {:induction false} SubsetSize<T>(a: set<T>, b: set<T>)
    requires a <= b
    ensures |a| <= |b|
    decreases |a|
  {
    if a != {} {
      var x :| x in a;
      SubsetSize(a - {x}, b - {x});
    }
  }

  lemma UnionSize<T>(a: set<T>, b: set<T>)
    ensures |a + b| <= |a| + |b|
  {
    assert |a + b| + |a * b| == |a| + |b|;
  }

  ghost predicate WithinBudget<V>(w: World<V>, capacity: nat, writers: nat) {
    && (forall i | i in w.inflight :: i < writers && !w.inflight[i].mode.TouchMode?)
    && |Spoken(w)| < capacity + writers
  }

  lemma {:induction false} FewBelow(s: set<nat>, n: nat)
    requires forall i | i in s :: i < n
    ensures |s| <= n
  {
    if n == 0 {
      assert s == {};
    } else {
      FewBelow(s - {n - 1}, n - 1);
    }
  }

  lemma WantedGrowsBy(m: map<nat, Pending>, writer: nat, p: Pending)
    ensures Wanted(m[writer := p]) <= Wanted(m) + {p.key}
    ensures Wanted(m - {writer}) <= Wanted(m)
  {
    forall x | x in Wanted(m[writer := p]) ensures x in Wanted(m) + {p.key} {
      var i :| i in m[writer := p] && m[writer := p][i].key == x;
      assert i == writer || (i in m && m[i].key == x);
    }
    forall x | x in Wanted(m - {writer}) ensures x in Wanted(m) {
      var i :| i in m - {writer} && (m - {writer})[i].key == x;
      assert i in m && m[i].key == x;
    }
  }

  lemma RowsGrowBy<V>(rows: map<string, Row<V>>, capacity: nat, mode: Mode, key: string, value: V,
                      timeout: int, t: Instant, ok: bool)
    ensures BaseSet(rows, capacity, mode, key, value, timeout, t, ok).0.Keys <= rows.Keys + {key}
    ensures mode.TouchMode? ==> BaseSet(rows, capacity, mode, key, value, timeout, t, ok).0.Keys <= rows.Keys
  {
    hide ExpiresAt, Expired;
  }

  lemma PendingIsWanted(m: map<nat, Pending>, writer: nat)
    requires writer in m
    ensures m[writer].key in Wanted(m)
  {
  }

  /** Only a room check can add a key to those spoken for. */
  lemma OthersSpeakNoMore<V>(w: World<V>, capacity: nat, e: Event<V>)
    requires !e.Check?
    ensures Spoken(Step(w, capacity, e)) <= Spoken(w)
  {
    hide Wanted, BaseSet, Expired;
    match e
    case Write(writer, value, timeout, ok) =>
      if writer in w.inflight {
        var p := w.inflight[writer];
        PendingIsWanted(w.inflight, writer);
        WantedGrowsBy(w.inflight, writer, p);
        RowsGrowBy(w.rows, capacity, p.mode, p.key, value, timeout, w.now, ok);
      }
    case GiveUp(writer) => WantedGrowsBy(w.inflight, writer, Pending("", AddMode));
    case TouchRow(key, timeout) =>
      if key in w.rows { RowsGrowBy(w.rows, capacity, TouchMode, key, w.rows[key].value, timeout, w.now, true); }
    case _ =>
  }

  lemma PurgeOnlyDrops<V>(rows: map<string, Row<V>>, t: Instant)
    ensures Purge(rows, t).Keys <= rows.Keys
  {
  }

  lemma WantedFit(m: map<nat, Pending>, writers: nat)
    requires forall i | i in m :: i < writers
    ensures |Wanted(m)| <= writers
  {
    hide Wanted;
    WantedAreFew(m);
    FewBelow(m.Keys, writers);
    assert |m.Keys| == |m|;
  }

  lemma RoomFits<V>(rows: map<string, Row<V>>, wanted: set<string>, capacity: nat, writers: nat)
    requires |rows| < capacity && |wanted| <= writers
    ensures |rows.Keys + wanted| < capacity + writers
  {
    UnionSize(rows.Keys, wanted);
    assert |rows.Keys| == |rows|;
  }

  lemma WritersStayListed<V>(w: World<V>, capacity: nat, writers: nat, writer: nat, key: string, mode: Mode)
    requires forall i | i in w.inflight :: i < writers && !w.inflight[i].mode.TouchMode?
    requires writer < writers
    ensures var m := CheckStep(w, capacity, writer, key, mode).inflight;
            forall i | i in m :: i < writers && !m[i].mode.TouchMode?
  {
    hide CanStore;
  }

  lemma CheckStaysWithinBudget<V>(w: World<V>, capacity: nat, writers: nat, writer: nat, key: string, mode: Mode)
    requires WithinBudget(w, capacity, writers) && writer < writers
    ensures |Spoken(CheckStep(w, capacity, writer, key, mode))| < capacity + writers
  {
    hide Wanted, Purge;
    var w1 := CheckStep(w, capacity, writer, key, mode);
    PurgeOnlyDrops(w.rows, w.now);
    if writer in w1.inflight && writer !in w.inflight {
      if key in w.rows {
        WantedGrowsBy(w.inflight, writer, Pending(key, mode));
        SubsetSize(Spoken(w1), Spoken(w));
      } else {
        WritersStayListed(w, capacity, writers, writer, key, mode);
        WantedFit(w1.inflight, writers);
        RoomFits(w1.rows, Wanted(w1.inflight), capacity, writers);
      }
    } else {
      SubsetSize(Spoken(w1), Spoken(w));
    }
  }

  lemma StepStaysWithinBudget<V>(w: World<V>, capacity: nat, writers: nat, e: Event<V>)
    requires WithinBudget(w, capacity, writers)
    requires e.Check? ==> e.writer < writers
    ensures WithinBudget(Step(w, capacity, e), capacity, writers)
  {
    if e.Check? {
      CheckStaysWithinBudget(w, capacity, writers, e.writer, e.key, e.mode);
      WritersStayListed(w, capacity, writers, e.writer, e.key, e.mode);
    } else {
      hide Spoken;
      OthersSpeakNoMore(w, capacity, e);
      SubsetSize(Spoken(Step(w, capacity, e)), Spoken(w));
    }
  }

  /** N racing writers never hold more than capacity + N - 1 rows between them. */
  lemma {:induction false} CapacityHolds<V>(w: World<V>, capacity: nat, writers: nat, events: seq<Event<V>>)
    requires WithinBudget(w, capacity, writers)
    requires forall e | e in events && e.Check? :: e.writer < writers
    ensures var w1 := Run(w, capacity, events);
            WithinBudget(w1, capacity, writers) && |w1.rows| <= capacity + writers - 1
    decreases |events|
  {
    if events == [] {
      SubsetSize(w.rows.Keys, Spoken(w));
    } else {
      StepStaysWithinBudget(w, capacity, writers, events[0]);
      CapacityHolds(Step(w, capacity, events[0]), capacity, writers, events[1..]);
    }
  }

  // ---------------------------------------------------------------- the bound is met

  lemma {:induction false} RunConcat<V>(w: World<V>, capacity: nat, first: seq<Event<V>>, rest: seq<Event<V>>)
    ensures Run(w, capacity, first + rest) == Run(Run(w, capacity, first), capacity, rest)
    decreases |first|
  {
    hide Step;
    if first == [] {
      assert first + rest == rest;
    } else {
      RunConcat(Step(w, capacity, first[0]), capacity, first[1..], rest);
      assert (first + rest)[1..] == first[1..] + rest;
    }
  }

  lemma RunLast<V>(w: World<V>, capacity: nat, first: seq<Event<V>>, e: Event<V>)
    ensures Run(w, capacity, first + [e]) == Step(Run(w, capacity, first), capacity, e)
  {
    hide Step;
    RunConcat(w, capacity, first, [e]);
    var w1 := Run(w, capacity, first);
    assert Run(w1, capacity, [e]) == Run(Step(w1, capacity, e), capacity, []);
  }

  /** Writer i checks room for the i-th key. */
  function Checks<V>(keys: seq<string>): seq<Event<V>> {
    if keys == [] then [] else Checks(keys[..|keys| - 1]) + [Check(|keys| - 1, keys[|keys| - 1], AddMode)]
  }

  /** Writers below n write what they checked. */
  function Writes<V>(n: nat, value: V, timeout: int): seq<Event<V>> {
    if n == 0 then [] else Writes(n - 1, value, timeout) + [Write(n - 1, value, timeout, true)]
  }

  function Racers(keys: seq<string>): map<nat, Pending> {
    map i: nat | i < |keys| :: Pending(keys[i], AddMode)
  }

  /** A cache one short of full, of live rows only. */
  predicate OneShort<V>(rows: map<string, Row<V>>, capacity: nat, now: Instant) {
    |rows| == capacity - 1 && forall k | k in rows :: !Expired(rows[k], now)
  }

  /** New keys, no two alike. */
  predicate Newcomers<V>(rows: map<string, Row<V>>, keys: seq<string>) {
    && (forall i | 0 <= i < |keys| :: keys[i] !in rows)
    && (forall i, j | 0 <= i < j < |keys| :: keys[i] != keys[j])
  }

  lemma {:induction false} AllPassTheCheck<V>(rows: map<string, Row<V>>, capacity: nat, now: Instant, keys: seq<string>)
    requires OneShort(rows, capacity, now) && Newcomers(rows, keys)
    ensures Run(World(rows, map[], now, []), capacity, Checks(keys)) == World(rows, Racers(keys), now, [])
    decreases |keys|
  {
    hide Run, Step, OneShort;
    if keys == [] {
      assert Racers(keys) == map[];
      assert Checks<V>(keys) == [];
      RunNone(World(rows, map[], now, []), capacity);
    } else {
      var front, last := keys[..|keys| - 1], |keys| - 1;
      AllPassTheCheck(rows, capacity, now, front);
      RunLast(World(rows, map[], now, []), capacity, Checks(front), Check(last, keys[last], AddMode));
      OnePassesTheCheck(World(rows, Racers(front), now, []), capacity, last, keys[last]);
      OneMoreRacer(keys);
    }
  }

  lemma RunNone<V>(w: World<V>, capacity: nat)
    ensures Run(w, capacity, []) == w
  {
  }

  lemma OneMoreRacer(keys: seq<string>)
    requires keys != []
    ensures Racers(keys[..|keys| - 1])[|keys| - 1 := Pending(keys[|keys| - 1], AddMode)] == Racers(keys)
  {
  }

  lemma OnePassesTheCheck<V>(w: World<V>, capacity: nat, writer: nat, key: string)
    requires OneShort(w.rows, capacity, w.now) && key !in w.rows && writer !in w.inflight
    ensures Step(w, capacity, Check(writer, key, AddMode)) == w.(inflight := w.inflight[writer := Pending(key, AddMode)])
  {
    assert Purge(w.rows, w.now) == w.rows;
  }

  lemma WriteNew<V>(w: World<V>, capacity: nat, writer: nat, value: V, timeout: int)
    requires writer in w.inflight && w.inflight[writer].mode.AddMode? && w.inflight[writer].key !in w.rows
    requires forall k | k in w.rows :: !Expired(w.rows[k], w.now)
    ensures var w1 := Step(w, capacity, Write(writer, value, timeout, true));
            && w1.inflight == w.inflight - {writer} && w1.now == w.now
            && w1.rows == w.rows[w.inflight[writer].key := Row(value, ExpiresAt(w.now, timeout))]
  {
    hide ExpiresAt;
    assert Purge(w.rows, w.now) == w.rows;
  }

  lemma OneMore<V>(rows: map<string, Row<V>>, key: string, row: Row<V>)
    requires key !in rows
    ensures |rows[key := row]| == |rows| + 1
  {
    assert rows[key := row].Keys == rows.Keys + {key};
    assert |rows[key := row].Keys| == |rows[key := row]|;
  }

  /** After n writes only the first n keys have rows beside the old ones, and the rest still wait. */
  ghost predicate Overfilling<V>(w: World<V>, now: Instant, keys: seq<string>, n: nat) {
    && w.now == now
    && (forall k | k in w.rows :: !Expired(w.rows[k], now))
    && (forall i: nat | n <= i < |keys| ::
          keys[i] !in w.rows && i in w.inflight && w.inflight[i] == Pending(keys[i], AddMode))
  }

  lemma OneMoreWrites<V>(w: World<V>, capacity: nat, rows: map<string, Row<V>>, now: Instant, keys: seq<string>,
                         n: nat, value: V, timeout: int)
    requires Newcomers(rows, keys) && timeout >= 0 && n < |keys| && Overfilling(w, now, keys, n)
    ensures var w1 := Step(w, capacity, Write(n, value, timeout, true));
            Overfilling(w1, now, keys, n + 1) && |w1.rows| == |w.rows| + 1
  {
    hide Step, ExpiresAt, Sec;
    WriteNew(w, capacity, n, value, timeout);
    OneMore(w.rows, keys[n], Row(value, ExpiresAt(now, timeout)));
    WholeSeconds(now, now, timeout);
  }

  lemma {:induction false} WritersOverfill<V>(w: World<V>, capacity: nat, rows: map<string, Row<V>>, now: Instant,
                                              keys: seq<string>, n: nat, value: V, timeout: int)
    requires Newcomers(rows, keys) && timeout >= 0 && n <= |keys| && Overfilling(w, now, keys, 0)
    ensures var w1 := Run(w, capacity, Writes(n, value, timeout));
            Overfilling(w1, now, keys, n) && |w1.rows| == |w.rows| + n
    decreases n
  {
    hide Step, Overfilling, Newcomers;
    if n > 0 {
      WritersOverfill(w, capacity, rows, now, keys, n - 1, value, timeout);
      RunLast(w, capacity, Writes(n - 1, value, timeout), Write(n - 1, value, timeout, true));
      OneMoreWrites(Run(w, capacity, Writes(n - 1, value, timeout)), capacity, rows, now, keys, n - 1, value, timeout);
    }
  }

  /** The bound is met, for any number of racers: N writers that all check before any writes fill the
      last place N times. */
  lemma RacersOverfill<V>(rows: map<string, Row<V>>, capacity: nat, now: Instant, keys: seq<string>, value: V, timeout: int)
    requires OneShort(rows, capacity, now) && Newcomers(rows, keys) && timeout >= 0
    ensures var events := Checks(keys) + Writes(|keys|, value, timeout);
            |Run(World(rows, map[], now, []), capacity, events).rows| == capacity + |keys| - 1
  {
    var w := World(rows, map[], now, []);
    AllPassTheCheck(rows, capacity, now, keys);
    var checked := World(rows, Racers(keys), now, []);
    assert Overfilling(checked, now, keys, 0);
    assert |rows| == capacity - 1;
    hide Run, Step, Checks, Writes, Newcomers, OneShort;
    RunConcat(w, capacity, Checks(keys), Writes(|keys|, value, timeout));
    WritersOverfill(checked, capacity, rows, now, keys, |keys|, value, timeout);
  }
}
