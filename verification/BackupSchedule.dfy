/**
 Backup policy of gateway-admin/src/backup/policy.rs: cron firings under a time
 zone, the binary search for the last firing, and the retention decision.

 An instant is a number of nanoseconds since the Unix epoch; a minute index is
 that number divided by `MINUTE`. Zone offsets are whole minutes, as in every
 zone of the tz database since 1972. The cron crate is a set of local minutes up
 to a horizon.
 */
module BackupSchedule {
  import opened Common

  const MINUTE: int := 60_000_000_000
  const DAY: int := 24 * 60 * MINUTE
  const MAX_BACKDATE_MINUTES: int := 40 * 366 * 24 * 60

  /** The offset from UTC at each UTC minute, at most `bound` in size. */
  datatype Zone = Zone(offset: int -> int, bound: nat)

  ghost predicate ZoneOk(z: Zone) {
    forall u :: 0 <= z.offset(u) + z.bound <= 2 * z.bound
  }

  /** The local minute that clocks show at UTC minute `u`. */
  function Shown(z: Zone, u: int): int { u + z.offset(u) }

  /** `from_local_datetime(..).earliest()`: the first UTC minute that shows `f`. */
  function Earliest(z: Zone, f: int): Option<int> { EarliestFrom(z, f, f - z.bound) }

  function EarliestFrom(z: Zone, f: int, u: int): (r: Option<int>)
    ensures r.Some? ==> u <= r.value && Shown(z, r.value) == f
    ensures r.Some? ==> forall v :: u <= v < r.value ==> Shown(z, v) != f
    ensures r.None? ==> forall v :: u <= v <= f + z.bound ==> Shown(z, v) != f
    decreases f + z.bound - u
  {
    if u > f + z.bound then None
    else if Shown(z, u) == f then Some(u)
    else EarliestFrom(z, f, u + 1)
  }

  /** The cron firing set in local minutes, no later than `horizon`. */
  datatype BackupSchedule = BackupSchedule(fires: int -> bool, horizon: int, zone: Zone)

  /** `schedule.after(..).find_map(..)`: the first local firing, from `f` on, whose instant is after `at`. */
  function FirstFiring(s: BackupSchedule, f: int, at: int): Option<int>
    decreases s.horizon - f
  {
    if f > s.horizon then None
    else
      var u := Earliest(s.zone, f);
      if s.fires(f) && u.Some? && u.value * MINUTE > at then u
      else FirstFiring(s, f + 1, at)
  }

  /** `next_after`, as a UTC minute. */
  function NextAfter(s: BackupSchedule, at: int): Option<int> {
    var local := at + s.zone.offset(at / MINUTE) * MINUTE;
    FirstFiring(s, local / MINUTE + 1, at)
  }

  /** `firing_after`. */
  function FiringAfter(s: BackupSchedule, minute: int): Option<int> { NextAfter(s, minute * MINUTE) }

  /**
   The firings: UTC minutes at which a firing local minute is shown for the first
   time. A skipped local minute has none, a repeated one has one.
   */
  ghost predicate Fires(s: BackupSchedule, u: int) {
    var f := Shown(s.zone, u);
    f <= s.horizon && s.fires(f) && FirstShown(s.zone, u)
  }

  ghost predicate LeastAfter(s: BackupSchedule, at: int, r: Option<int>) {
    && (r.Some? ==> Fires(s, r.value) && r.value * MINUTE > at)
    && (forall v :: Fires(s, v) && v * MINUTE > at ==> r.Some? && r.value <= v)
  }

  ghost predicate FirstShown(z: Zone, u: int) {
    forall v :: v < u ==> Shown(z, v) != Shown(z, u)
  }

  ghost predicate Latest(z: Zone, u: int) {
    forall v :: v < u ==> Shown(z, v) < Shown(z, u)
  }

  /**
   A local minute that clocks jumped over is never shown later: a minute shown
   for the first time is later than everything shown before.
   */
  ghost predicate GapsStaySkipped(z: Zone) {
    forall u :: FirstShown(z, u) ==> Latest(z, u)
  }

  // ----- `next_after` is the least later firing

  lemma EarliestIsFirstShown(z: Zone, f: int)
    requires ZoneOk(z)
    ensures Earliest(z, f).Some? ==>
      Shown(z, Earliest(z, f).value) == f && forall v :: v < Earliest(z, f).value ==> Shown(z, v) != f
    ensures Earliest(z, f).None? ==> forall v :: Shown(z, v) != f
  {
    forall v | v < f - z.bound || v > f + z.bound
      ensures Shown(z, v) != f
    {
      assert 0 <= z.offset(v) + z.bound <= 2 * z.bound;
    }
  }

  lemma EarliestFires(s: BackupSchedule, u: int)
    requires ZoneOk(s.zone) && Fires(s, u)
    ensures Earliest(s.zone, Shown(s.zone, u)) == Some(u)
  {
    EarliestIsFirstShown(s.zone, Shown(s.zone, u));
  }

  /** Among the firings after `at` shown as `f` or later, `r` is the one shown earliest. */
  ghost predicate LeastLocal(s: BackupSchedule, f: int, at: int, r: Option<int>) {
    && (r.Some? ==> Fires(s, r.value) && r.value * MINUTE > at && Shown(s.zone, r.value) >= f)
    && (forall v :: Fires(s, v) && v * MINUTE > at && Shown(s.zone, v) >= f ==>
          r.Some? && Shown(s.zone, r.value) <= Shown(s.zone, v))
  }

  /** The search returns the firing whose local minute is least. */
  lemma {:induction false} FirstFiringIsLeastLocal(s: BackupSchedule, f: int, at: int)
    requires ZoneOk(s.zone)
    ensures LeastLocal(s, f, at, FirstFiring(s, f, at))
    decreases s.horizon - f
  {
    if f <= s.horizon {
      EarliestIsFirstShown(s.zone, f);
      FirstFiringIsLeastLocal(s, f + 1, at);
      forall v | Fires(s, v) && Shown(s.zone, v) == f
        ensures Earliest(s.zone, f) == Some(v)
      {
        EarliestFires(s, v);
      }
    }
  }

  lemma LocalMinuteOf(z: Zone, at: int)
    ensures (at + z.offset(at / MINUTE) * MINUTE) / MINUTE == Shown(z, at / MINUTE)
  {
    var q := at / MINUTE;
    assert at + z.offset(q) * MINUTE == MINUTE * (q + z.offset(q)) + at % MINUTE;
  }

  lemma LaterMinutes(at: int)
    ensures forall v: int :: v * MINUTE > at ==> at / MINUTE < v
  {
  }

  lemma NextAfterSearches(s: BackupSchedule, at: int)
    ensures NextAfter(s, at) == FirstFiring(s, Shown(s.zone, at / MINUTE) + 1, at)
  {
    LocalMinuteOf(s.zone, at);
  }

  /** Where gaps stay skipped, the firing shown earliest is the earliest firing. */
  lemma EarliestShownIsLeast(s: BackupSchedule, m: int, at: int, r: Option<int>, v: int)
    requires FirstShown(s.zone, v) ==> Latest(s.zone, v)
    requires r.Some? && FirstShown(s.zone, r.value) ==> Latest(s.zone, r.value)
    requires LeastLocal(s, Shown(s.zone, m) + 1, at, r) && Fires(s, v) && v * MINUTE > at && m < v
    ensures r.Some? && r.value <= v
  {
  }

  lemma LeastLocalIsLeast(s: BackupSchedule, at: int, r: Option<int>)
    requires GapsStaySkipped(s.zone) && LeastLocal(s, Shown(s.zone, at / MINUTE) + 1, at, r)
    ensures LeastAfter(s, at, r)
  {
    var m := at / MINUTE;
    LaterMinutes(at);
    forall v | Fires(s, v) && v * MINUTE > at
      ensures r.Some? && r.value <= v
    {
      EarliestShownIsLeast(s, m, at, r, v);
    }
  }

  /** `next_after` returns exactly the least firing after `at`. */
  lemma NextAfterIsLeast(s: BackupSchedule, at: int)
    requires ZoneOk(s.zone) && GapsStaySkipped(s.zone)
    ensures LeastAfter(s, at, NextAfter(s, at))
  {
    NextAfterSearches(s, at);
    FirstFiringIsLeastLocal(s, Shown(s.zone, at / MINUTE) + 1, at);
    LeastLocalIsLeast(s, at, NextAfter(s, at));
  }

  /** The condition is needed: where a skipped minute is shown later, some schedule misses a firing. */
  lemma ReopenedGapLosesFiring(z: Zone) returns (s: BackupSchedule, at: int)
    requires ZoneOk(z) && !GapsStaySkipped(z)
    ensures s.zone == z && !LeastAfter(s, at, NextAfter(s, at))
  {
    var u :| FirstShown(z, u) && !Latest(z, u);
    var v :| v < u && Shown(z, v) > Shown(z, u);
    s := BackupSchedule(f => f == Shown(z, u), Shown(z, u), z);
    at := v * MINUTE;
    LocalMinuteOf(z, at);
    assert Fires(s, u) && u * MINUTE > at;
    assert NextAfter(s, at) == None;
  }

  /** Every step back of the clock is preceded by as many minutes without any step. */
  ghost predicate StepsBackAreSpaced(z: Zone) {
    forall u, w :: z.offset(u) < z.offset(u - 1) && u - 1 - (z.offset(u - 1) - z.offset(u)) <= w < u ==>
      z.offset(w) == z.offset(u - 1)
  }

  lemma {:induction false} LastStepBelow(z: Zone, level: int, v: int, u: int) returns (y: int)
    requires v < u && Shown(z, v) > level >= Shown(z, u)
    ensures v < y <= u && Shown(z, y - 1) > level >= Shown(z, y)
    decreases u - v
  {
    if Shown(z, u - 1) > level {
      y := u;
    } else {
      y := LastStepBelow(z, level, v, u - 1);
    }
  }

  lemma ShownEarlier(z: Zone, v: int, u: int) returns (w: int)
    requires StepsBackAreSpaced(z) && v < u && Shown(z, v) > Shown(z, u)
    ensures w < u && Shown(z, w) == Shown(z, u)
  {
    var y := LastStepBelow(z, Shown(z, u), v, u);
    w := Shown(z, u) - z.offset(y - 1);
    assert z.offset(w) == z.offset(y - 1);
  }

  /** Zones whose steps back are spaced, as daylight saving is, keep gaps skipped. */
  lemma SpacedStepsKeepGaps(z: Zone)
    requires StepsBackAreSpaced(z)
    ensures GapsStaySkipped(z)
  {
    forall u | FirstShown(z, u)
      ensures Latest(z, u)
    {
      forall v | v < u
        ensures Shown(z, v) < Shown(z, u)
      {
        if Shown(z, v) > Shown(z, u) {
          var w := ShownEarlier(z, v, u);
        }
      }
    }
  }

  // ----- The last firing

  /** A firing of the look-back window that ends with minute `high`. */
  ghost predicate InWindow(s: BackupSchedule, high: int, v: int) {
    Fires(s, v) && high - MAX_BACKDATE_MINUTES < v <= high
  }

  /** After minute `x` no firing comes before `FiringAfter(x)`. */
  lemma FiringAfterIsNext(s: BackupSchedule, x: int)
    requires ZoneOk(s.zone) && GapsStaySkipped(s.zone)
    ensures FiringAfter(s, x).Some? ==> Fires(s, FiringAfter(s, x).value) && FiringAfter(s, x).value > x
    ensures forall v :: Fires(s, v) && v > x ==> FiringAfter(s, x).Some? && FiringAfter(s, x).value <= v
  {
    NextAfterIsLeast(s, x * MINUTE);
  }

  predicate After(firing: Option<int>, high: int) { firing.Some? && firing.value > high }

  /** What the search may answer: see `LastFiringAtOrBefore`. */
  ghost predicate IsLastFiring(s: BackupSchedule, high: int, r: Option<int>) {
    && (r.Some? ==> InWindow(s, high, r.value) && forall v :: InWindow(s, high, v) ==> v <= r.value)
    && (r.None? <==> (forall v :: !InWindow(s, high, v)) || (forall v :: Fires(s, v) ==> v < high))
  }

  lemma NothingInWindow(s: BackupSchedule, high: int)
    requires ZoneOk(s.zone) && GapsStaySkipped(s.zone)
    ensures var first := FiringAfter(s, high - MAX_BACKDATE_MINUTES);
            if first.None? || first.value > high then IsLastFiring(s, high, None)
            else InWindow(s, high, first.value)
  {
    FiringAfterIsNext(s, high - MAX_BACKDATE_MINUTES);
  }

  /** Where the search ends: `lo` is the first minute after which every firing is later than `high`. */
  lemma SearchConcludes(s: BackupSchedule, high: int, lo: int, found: int)
    requires ZoneOk(s.zone) && GapsStaySkipped(s.zone) && InWindow(s, high, found)
    requires high - MAX_BACKDATE_MINUTES < lo <= high
    requires !After(FiringAfter(s, lo - 1), high)
    requires lo == high || After(FiringAfter(s, lo), high)
    ensures IsLastFiring(s, high, FiringAfter(s, lo - 1))
  {
    FiringAfterIsNext(s, lo - 1);
    FiringAfterIsNext(s, lo);
  }

  /** The bisection of `last_firing_at_or_before`, for any next-firing function. */
  method Bisect(next: int -> Option<int>, low: int, high: int) returns (lo: int)
    requires low < high && !After(next(low), high)
    ensures low < lo <= high && !After(next(lo - 1), high) && (lo == high || After(next(lo), high))
  {
    var hi := high;
    lo := low;
    while lo < hi
      invariant low <= lo <= hi <= high
      invariant lo == low || !After(next(lo - 1), high)
      invariant hi == high || After(next(hi), high)
    {
      var mid := lo + (hi - lo) / 2;
      if After(next(mid), high) {
        hi := mid;
      } else {
        lo := mid + 1;
      }
    }
  }

  /**
   `last_firing_at_or_before`: the greatest firing of the look-back window. It
   answers `None` exactly when the window is empty, or when no firing comes after
   `at` and none falls in the minute of `at`.
   */
  method LastFiringAtOrBefore(s: BackupSchedule, at: int) returns (r: Option<int>)
    requires ZoneOk(s.zone) && GapsStaySkipped(s.zone)
    ensures IsLastFiring(s, at / MINUTE, r)
  {
    var high := at / MINUTE;
    var low := high - MAX_BACKDATE_MINUTES;
    var first := FiringAfter(s, low);
    NothingInWindow(s, high);
    if first.None? || first.value * 60 > high * 60 + 59 {
      return None;
    }
    var lo := Bisect(minute => FiringAfter(s, minute), low, high);
    SearchConcludes(s, high, lo, first.value);
    var firing := FiringAfter(s, lo - 1);
    r := if firing.Some? && firing.value <= high then firing else None;
  }

  /** `last` is the last firing of a schedule that ends. */
  ghost predicate EndsAt(s: BackupSchedule, last: int) {
    Fires(s, last) && forall v :: Fires(s, v) ==> v <= last
  }

  /**
   The look-back is wrong for every schedule that ends: from the minute after its
   last firing on, that firing is missed for as long as it is in the window.
   */
  method MissedLastFiring(s: BackupSchedule, last: int, at: int) returns (r: Option<int>)
    requires ZoneOk(s.zone) && GapsStaySkipped(s.zone) && EndsAt(s, last)
    requires at / MINUTE - MAX_BACKDATE_MINUTES < last < at / MINUTE
    ensures InWindow(s, at / MINUTE, last) && r == None
  {
    r := LastFiringAtOrBefore(s, at);
  }

  // ----- Retention

  datatype RetentionReason = Days | Count

  datatype Decision = Decision(recordId: string, reason: RetentionReason)

  /** The part of a backup record that the retention rule reads. */
  datatype Finished = Finished(id: string, completed: bool, completedAt: Option<int>)

  predicate ExpiredByDays(days: nat, now: int, record: Finished) {
    days > 0 && record.completedAt.Some? && record.completedAt.value <= now - days * DAY
  }

  /** Record `i`, newest first, is due: never the newest, and only past an enabled threshold. */
  predicate Due(days: nat, count: nat, now: int, records: seq<Finished>, i: nat)
    requires i < |records|
  {
    i > 0 && records[i].completed && (ExpiredByDays(days, now, records[i]) || (count > 0 && i >= count))
  }

  /** Decision `j` is about record `indices[j]`: these are the due records, in order, with the reason that applies. */
  ghost predicate Explains(days: nat, count: nat, now: int, records: seq<Finished>, upTo: nat,
                           decisions: seq<Decision>, indices: seq<nat>)
    requires upTo <= |records|
  {
    && |indices| == |decisions|
    && (forall j :: 0 <= j < |indices| ==> indices[j] < upTo && Due(days, count, now, records, indices[j]))
    && (forall j, k :: 0 <= j < k < |indices| ==> indices[j] < indices[k])
    && (forall i :: 0 <= i < upTo && Due(days, count, now, records, i) ==> i in indices)
    && (forall j :: 0 <= j < |indices| ==>
          && decisions[j].recordId == records[indices[j]].id
          && (decisions[j].reason == Days <==> ExpiredByDays(days, now, records[indices[j]])))
  }

  /** `decide_retention`: the due records and only those. */
  method DecideRetention(days: nat, count: nat, now: int, records: seq<Finished>) returns (decisions: seq<Decision>)
    ensures exists indices :: Explains(days, count, now, records, |records|, decisions, indices)
  {
    decisions := [];
    ghost var indices: seq<nat> := [];
    for i := 0 to |records|
      invariant Explains(days, count, now, records, i, decisions, indices)
    {
      var record := records[i];
      if !record.completed || i == 0 {
        continue;
      }
      var expired := ExpiredByDays(days, now, record);
      var exceeded := count > 0 && i >= count;
      if expired || exceeded {
        decisions := decisions + [Decision(record.id, if expired then Days else Count)];
        indices := indices + [i];
      }
    }
  }
}
