/** Rate epochs of the admin MFA flow: one name per user and address for the failure counters,
    kept alive longer than any counter it names and replaced only by a successful login. */
module RateEpochs {
  import opened Prelude
  import opened Decimals
  import C = SecurityCache

  // ---------------------------------------------------------------- rate windows

  const FUDGE := 60
  const EPOCH_BYTES := 24

  function UnitSeconds(unit: char): int {
    if unit == 'm' then 60 else if unit == 'h' then 3600 else if unit == 'd' then 86400 else 1
  }

  /** The length of the leading run of digits. */
  function DigitRun(s: string): (n: nat)
    ensures n <= |s| && AllDigits(s[..n])
    ensures n < |s| ==> !IsDigit(s[n])
  {
    if s != "" && IsDigit(s[0]) then
      assert s[..DigitRun(s[1..]) + 1] == [s[0]] + s[1..][..DigitRun(s[1..])];
      DigitRun(s[1..]) + 1
    else 0
  }

  /** `_rate_window_seconds`: the period of a rate such as "5/m" or "20/10m". */
  function RateWindow(rate: string): Gate<int> {
    var n := DigitRun(rate);
    if n == 0 || n == |rate| || rate[n] != '/' then Rejected("rate_limit_configuration_invalid")
    else
      var rest := rate[n + 1..];
      var m := DigitRun(rest);
      var multiplier := if m == 0 then 1 else ValueOf(rest[..m]);
      var unit := rest[m..];
      if !(unit == "" || (|unit| == 1 && unit[0] in {'s', 'm', 'h', 'd'})) || multiplier <= 0
      then Rejected("rate_limit_configuration_invalid")
      else Open(multiplier * UnitSeconds(if unit == "" then 's' else unit[0]))
  }

  lemma {:induction false} RunOfDigits(d: string, tail: string)
    requires AllDigits(d) && (tail != "" ==> !IsDigit(tail[0]))
    ensures DigitRun(d + tail) == |d|
  {
    if d == "" {
      assert d + tail == tail;
    } else {
      assert d[0] in d;
      assert forall c | c in d[1..] :: c in d;
      RunOfDigits(d[1..], tail);
      assert (d + tail)[1..] == d[1..] + tail;
    }
  }

  /** A rate is read as its part after the slash says. */
  lemma RateAfterSlash(count: nat, period: string, unit: char)
    requires AllDigits(period) && unit in {'s', 'm', 'h', 'd'}
    ensures var multiplier := if period == "" then 1 else ValueOf(period);
            RateWindow(Digits(count) + "/" + (period + [unit]))
              == if multiplier > 0 then Open(multiplier * UnitSeconds(unit)) else Rejected("rate_limit_configuration_invalid")
  {
    hide DigitRun, ValueOf, Digits, UnitSeconds;
    DigitsAreDigits(count);
    var rest := period + [unit];
    var rate := Digits(count) + "/" + rest;
    RunOfDigits(period, [unit]);
    RunOfDigits(Digits(count), "/" + rest);
    assert rate == Digits(count) + ("/" + rest);
    assert rate[|Digits(count)| + 1..] == rest;
    assert rest[..|period|] == period && rest[|period|..] == [unit];
  }

  /** Without a unit letter the period counts seconds; without digits it is one. */
  lemma RateWithoutUnit(count: nat, period: string)
    requires AllDigits(period)
    ensures var multiplier := if period == "" then 1 else ValueOf(period);
            RateWindow(Digits(count) + "/" + period)
              == if multiplier > 0 then Open(multiplier) else Rejected("rate_limit_configuration_invalid")
  {
    hide DigitRun, ValueOf, Digits;
    DigitsAreDigits(count);
    var rate := Digits(count) + "/" + period;
    RunOfDigits(period, "");
    assert period + "" == period;
    RunOfDigits(Digits(count), "/" + period);
    assert rate == Digits(count) + ("/" + period);
    assert rate[|Digits(count)| + 1..] == period;
    assert period[..|period|] == period && period[|period|..] == "";
  }

  /** A written rate is read as the period it names, in its unit or in seconds when it names none;
      a zero period is refused. */
  lemma WrittenRate(count: nat, period: nat, unit: char)
    requires unit in {'s', 'm', 'h', 'd'}
    ensures RateWindow(Digits(count) + "/" + (Digits(period) + [unit]))
              == if period > 0 then Open(period * UnitSeconds(unit)) else Rejected("rate_limit_configuration_invalid")
    ensures RateWindow(Digits(count) + "/" + ("" + [unit])) == Open(UnitSeconds(unit))
    ensures RateWindow(Digits(count) + "/" + Digits(period))
              == if period > 0 then Open(period) else Rejected("rate_limit_configuration_invalid")
    ensures RateWindow(Digits(count) + "/" + "") == Open(1)
  {
    hide RateWindow, Digits, ValueOf;
    DigitsAreDigits(period);
    DigitsReadBack(period);
    RateAfterSlash(count, Digits(period), unit);
    RateAfterSlash(count, "", unit);
    RateWithoutUnit(count, Digits(period));
    RateWithoutUnit(count, "");
  }

  /** The text is a rate: a count, a slash, and a positive period with or without a unit, of so many seconds. */
  ghost predicate IsRate(rate: string, seconds: int) {
    exists count, period, unit :: RateParts(rate, count, period, unit, seconds)
  }

  predicate RateParts(rate: string, count: string, period: string, unit: string, seconds: int) {
    && rate == count + "/" + period + unit
    && count != "" && AllDigits(count) && AllDigits(period) && unit in {"", "s", "m", "h", "d"}
    && (period != "" ==> ValueOf(period) > 0)
    && seconds == (if period == "" then 1 else ValueOf(period))
                  * (if unit == "m" then 60 else if unit == "h" then 3600 else if unit == "d" then 86400 else 1)
  }

  lemma PartsAreRead(rate: string, count: string, period: string, unit: string, seconds: int)
    requires RateParts(rate, count, period, unit, seconds)
    ensures RateWindow(rate) == Open(seconds)
  {
    hide DigitRun, ValueOf;
    var rest := period + unit;
    RunOfDigits(period, unit);
    RunOfDigits(count, "/" + rest);
    assert rate == count + ("/" + rest);
    assert rate[|count| + 1..] == rest;
    assert rest[..|period|] == period && rest[|period|..] == unit;
  }

  lemma WindowHasParts(rate: string)
    requires RateWindow(rate).Open?
    ensures IsRate(rate, RateWindow(rate).value)
  {
    hide DigitRun, ValueOf;
    var n := DigitRun(rate);
    var rest := rate[n + 1..];
    var m := DigitRun(rest);
    assert m == 0 ==> rest[..m] == "";
    assert rate == rate[..n] + "/" + rest[..m] + rest[m..];
    assert |rest[m..]| == 1 ==> rest[m..] == [rest[m]];
    assert RateParts(rate, rate[..n], rest[..m], rest[m..], RateWindow(rate).value);
  }

  /** A text is read as a window of so many seconds exactly if it is such a rate. */
  lemma RateWindowExactly(rate: string, seconds: int)
    ensures RateWindow(rate) == Open(seconds) <==> IsRate(rate, seconds)
  {
    hide RateWindow, RateParts;
    if RateWindow(rate) == Open(seconds) { WindowHasParts(rate); }
    if IsRate(rate, seconds) {
      var count, period, unit :| RateParts(rate, count, period, unit, seconds);
      PartsAreRead(rate, count, period, unit, seconds);
    }
  }

  /** `_rate_epoch_timeout`: the longest configured window and a minute more. */
  function EpochTimeout(verificationRate: string, optionsRate: string): Gate<int> {
    var v, o := RateWindow(verificationRate), RateWindow(optionsRate);
    if v.Rejected? then Rejected(v.reason)
    else if o.Rejected? then Rejected(o.reason)
    else Open((if v.value >= o.value then v.value else o.value) + FUDGE)
  }

  /** The window of one of the two configured rates. */
  predicate ConfiguredWindow(verificationRate: string, optionsRate: string, window: int) {
    RateWindow(verificationRate) == Open(window) || RateWindow(optionsRate) == Open(window)
  }

  /** The timeout is the least that leaves every configured window a minute to spare. */
  lemma TimeoutCoversWindows(verificationRate: string, optionsRate: string)
    requires EpochTimeout(verificationRate, optionsRate).Open?
    ensures var timeout := EpochTimeout(verificationRate, optionsRate).value;
            && (forall window | ConfiguredWindow(verificationRate, optionsRate, window) :: 0 < window <= timeout - FUDGE)
            && ConfiguredWindow(verificationRate, optionsRate, timeout - FUDGE)
  {
    hide DigitRun, ValueOf;
    WindowIsPositive(verificationRate);
    WindowIsPositive(optionsRate);
    hide RateWindow;
  }

  lemma WindowIsPositive(rate: string)
    ensures RateWindow(rate).Open? ==> RateWindow(rate).value > 0
  {
    hide DigitRun, ValueOf;
  }

  // ---------------------------------------------------------------- reading and rotating an epoch

  type Rows = map<string, C.Row<string>>

  function EpochKey(user: int, address: string): string {
    "admin-mfa:rate-epoch:sha256:user:" + IntText(user) + "|ip:" + address
  }

  lemma PartsAgree(a: string, b: string, c: string, d: string, sep: char)
    requires sep !in a && sep !in c && a + [sep] + b == c + [sep] + d
    ensures a == c && b == d
  {
    var u, v := a + [sep] + b, c + [sep] + d;
    assert forall i | 0 <= i < |a| :: u[i] == a[i];
    assert forall i | 0 <= i < |c| :: v[i] == c[i];
    assert u[|a|] == sep && v[|c|] == sep;
    assert |a| == |c|;
    assert u[..|a|] == a && v[..|c|] == c && u[|a| + 1..] == b && v[|c| + 1..] == d;
  }

  /** An epoch belongs to one user and one address: no two pairs share a key. */
  lemma EpochKeysDiffer(user: int, address: string, other: int, elsewhere: string)
    ensures EpochKey(user, address) == EpochKey(other, elsewhere) <==> user == other && address == elsewhere
  {
    hide IntText;
    var prefix := "admin-mfa:rate-epoch:sha256:user:";
    if EpochKey(user, address) == EpochKey(other, elsewhere) {
      var x, y := IntText(user) + "|" + ("ip:" + address), IntText(other) + "|" + ("ip:" + elsewhere);
      assert EpochKey(user, address) == prefix + x && EpochKey(other, elsewhere) == prefix + y;
      assert (prefix + x)[|prefix|..] == x && (prefix + y)[|prefix|..] == y;
      NoBar(user);
      NoBar(other);
      PartsAgree(IntText(user), "ip:" + address, IntText(other), "ip:" + elsewhere, '|');
      assert ("ip:" + address)[3..] == address && ("ip:" + elsewhere)[3..] == elsewhere;
      IntTextInjective(user, other);
    }
  }

  lemma NoBar(n: int)
    ensures '|' !in IntText(n)
  {
    hide Digits;
    DigitsAreDigits(if n < 0 then -n else n);
  }

  /** Clock readings of one access: room check, write, verifying read, read, touch; and whether
      the database carried out the write and the touch. */
  datatype Times = Times(checked: real, written: real, verified: real, read: real, touched: real,
                         writes: bool, touches: bool)

  const UNAVAILABLE := "rate_limit_backend_unavailable"

  /** `_get_rate_epoch`, given a fresh candidate. */
  function GetEpoch(rows: Rows, capacity: nat, key: string, candidate: string, timeout: int, t: Times): (Rows, Gate<string>) {
    var (after, added) := C.Add(rows, capacity, key, candidate, timeout, t.checked, t.written, t.verified, t.writes);
    if added.CapacityError? || added.WriteError? then (after, Rejected(UNAVAILABLE))
    else
      var epoch := C.Get(after, key, t.read);
      var (touched, found) :=
        if added.Stored? || epoch.None? then (after, true)
        else C.BaseSet(after, capacity, C.TouchMode, key, "", timeout, t.touched, t.touches);
      if !found || epoch.None? || |epoch.value| < EPOCH_BYTES then (touched, Rejected(UNAVAILABLE))
      else (touched, Open(epoch.value))
  }

  /** `_rotate_rate_epoch`, given a fresh epoch. */
  function Rotate(rows: Rows, capacity: nat, key: string, epoch: string, timeout: int, t: Times): (Rows, Gate<()>) {
    var (after, stored) := C.Set(rows, capacity, key, epoch, timeout, t.checked, t.written, t.writes);
    if !stored.Stored? then (after, Rejected(UNAVAILABLE))
    else if C.Get(after, key, t.read) != Some(epoch) then (after, Rejected(UNAVAILABLE))
    else (after, Open(()))
  }

  class RateLimiter {
    const cache: C.FailClosedCache<string>

    constructor (cache: C.FailClosedCache<string>)
      ensures this.cache == cache
    {
      this.cache := cache;
    }

    method GetRateEpoch(key: string, candidate: string, timeout: int, t: Times) returns (r: Gate<string>)
      modifies cache
      ensures (cache.rows, r) == GetEpoch(old(cache.rows), cache.capacity, key, candidate, timeout, t)
    {
      hide C.Add, C.BaseSet;
      var added := cache.AddKey(key, candidate, timeout, t.checked, t.written, t.verified, t.writes);
      if added.CapacityError? || added.WriteError? { return Rejected(UNAVAILABLE); }
      var epoch := C.Get(cache.rows, key, t.read);
      if !added.Stored? && epoch.Some? {
        var found := cache.BaseWrite(C.TouchMode, key, "", timeout, t.touched, t.touches);
        if !found { return Rejected(UNAVAILABLE); }
      }
      if epoch.None? || |epoch.value| < EPOCH_BYTES { return Rejected(UNAVAILABLE); }
      r := Open(epoch.value);
    }

    method RotateRateEpoch(key: string, epoch: string, timeout: int, t: Times) returns (r: Gate<()>)
      modifies cache
      ensures (cache.rows, r) == Rotate(old(cache.rows), cache.capacity, key, epoch, timeout, t)
    {
      hide C.Set;
      var stored := cache.SetKey(key, epoch, timeout, t.checked, t.written, t.writes);
      if !stored.Stored? { return Rejected(UNAVAILABLE); }
      if C.Get(cache.rows, key, t.read) != Some(epoch) { return Rejected(UNAVAILABLE); }
      r := Open(());
    }
  }

  predicate InOrder(t: Times) {
    t.checked <= t.written <= t.verified <= t.read <= t.touched
  }

  /** The touch finds the row: nothing culls it by then, as it lives or the table is not over budget. */
  predicate TouchFinds(rows: Rows, capacity: nat, key: string, touched: real)
    requires key in rows
  {
    C.Sec(touched) <= rows[key].expires || |rows| <= capacity
  }

  /** While the epoch's row lives up to the read and the touch finds it, the access reads that epoch
      and extends the row from its touch; a failing touch is an error, never another epoch. */
  lemma AccessKeepsEpoch(rows: Rows, capacity: nat, key: string, candidate: string, timeout: int, t: Times, epoch: string)
    requires InOrder(t) && key in rows && rows[key].value == epoch && |epoch| >= EPOCH_BYTES
    requires C.Sec(t.read) <= rows[key].expires
    ensures var added := C.Add(rows, capacity, key, candidate, timeout, t.checked, t.written, t.verified, t.writes).0;
            var (after, r) := GetEpoch(rows, capacity, key, candidate, timeout, t);
            && key in added && added[key] == rows[key]
            && (TouchFinds(added, capacity, key, t.touched) ==>
                  && r == (if t.touches then Open(epoch) else Rejected(UNAVAILABLE))
                  && key in after && after[key].value == epoch
                  && after[key].expires == if t.touches then C.ExpiresAt(t.touched, timeout) else rows[key].expires)
            && (!TouchFinds(added, capacity, key, t.touched) ==> r == Rejected(UNAVAILABLE) && key !in after)
  {
    C.WholeSeconds(t.checked, t.read, timeout);
    C.WholeSeconds(t.written, t.read, timeout);
    C.WholeSeconds(t.verified, t.read, timeout);
    C.WholeSeconds(t.read, t.touched, timeout);
  }

  /** After the row has lapsed an access never answers with the old epoch. */
  lemma LapsedIsNotRead(rows: Rows, capacity: nat, key: string, candidate: string, timeout: int, t: Times, epoch: string)
    requires InOrder(t) && key in rows && rows[key].value == epoch && candidate != epoch
    requires rows[key].expires < C.Sec(t.read)
    ensures GetEpoch(rows, capacity, key, candidate, timeout, t).1 != Open(epoch)
  {
    C.WholeSeconds(t.checked, t.read, timeout);
    C.WholeSeconds(t.written, t.read, timeout);
    C.WholeSeconds(t.verified, t.read, timeout);
    C.WholeSeconds(t.read, t.touched, timeout);
  }

  /** When an access answers with the epoch it finds, exactly: its read comes no later than the row's
      last second, and its touch succeeds on a row that is still there. */
  lemma AccessReadsExactly(rows: Rows, capacity: nat, key: string, candidate: string, timeout: int, t: Times, epoch: string)
    requires InOrder(t) && key in rows && rows[key].value == epoch && |epoch| >= EPOCH_BYTES && candidate != epoch
    ensures var added := C.Add(rows, capacity, key, candidate, timeout, t.checked, t.written, t.verified, t.writes).0;
            GetEpoch(rows, capacity, key, candidate, timeout, t).1 == Open(epoch) <==>
              && C.Sec(t.read) <= rows[key].expires
              && t.touches && key in added && TouchFinds(added, capacity, key, t.touched)
  {
    hide C.Add, GetEpoch, TouchFinds;
    if C.Sec(t.read) <= rows[key].expires {
      AccessKeepsEpoch(rows, capacity, key, candidate, timeout, t, epoch);
    } else {
      LapsedIsNotRead(rows, capacity, key, candidate, timeout, t, epoch);
    }
  }

  /** In a cache that is not over budget and a database that answers, the read alone decides. */
  lemma ReadDecides(rows: Rows, capacity: nat, key: string, candidate: string, timeout: int, t: Times, epoch: string)
    requires InOrder(t) && key in rows && rows[key].value == epoch && |epoch| >= EPOCH_BYTES && candidate != epoch
    requires |rows| <= capacity && t.touches
    ensures GetEpoch(rows, capacity, key, candidate, timeout, t).1 == Open(epoch) <==> C.Sec(t.read) <= rows[key].expires
  {
    hide GetEpoch;
    AccessReadsExactly(rows, capacity, key, candidate, timeout, t, epoch);
    if C.Sec(t.read) <= rows[key].expires {
      C.WholeSeconds(t.written, t.read, timeout);
      assert C.Add(rows, capacity, key, candidate, timeout, t.checked, t.written, t.verified, t.writes).0 == rows;
    }
  }

  /** Once the row's last second has passed before the write, the access starts a new epoch. */
  lemma LapsedEpochIsReplaced(rows: Rows, capacity: nat, key: string, candidate: string, timeout: int, t: Times)
    requires InOrder(t) && key in rows && |rows| <= capacity && |candidate| >= EPOCH_BYTES && t.writes
    requires rows[key].expires < C.Sec(t.written) && C.Sec(t.read) <= C.Sec(t.written) + timeout
    ensures GetEpoch(rows, capacity, key, candidate, timeout, t).1 == Open(candidate)
  {
    C.WholeSeconds(t.written, t.read, timeout);
  }

  /** A rotation succeeds exactly if the cache has room and the database answers, and the new epoch is still
      readable when it is read back. */
  lemma RotateExactly(rows: Rows, capacity: nat, key: string, epoch: string, timeout: int, t: Times)
    requires InOrder(t)
    ensures Rotate(rows, capacity, key, epoch, timeout, t).1.Open? <==>
              C.Room(rows, capacity, key, t.checked) && t.writes && C.Sec(t.read) <= C.Sec(t.written) + timeout
  {
    hide C.Set, C.Room, C.ExpiresAt, C.Sec;
    C.SetExactly(rows, capacity, key, epoch, timeout, t.checked, t.written, t.writes);
  }

  /** A rotation that succeeds leaves the new epoch in place. */
  lemma RotationReplaces(rows: Rows, capacity: nat, key: string, epoch: string, timeout: int, t: Times)
    requires Rotate(rows, capacity, key, epoch, timeout, t).1.Open?
    ensures var after := Rotate(rows, capacity, key, epoch, timeout, t).0;
            key in after && after[key] == C.Row(epoch, C.ExpiresAt(t.written, timeout))
  {
  }
}
