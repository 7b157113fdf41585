/**
 The schedule cursor protocol of `BackupTask::advance_schedule`
 (gateway-admin/src/backup/task.rs) over the repository of
 gateway-store/src/postgres/backup.rs and its table constraints.

 Cron and deployment time zone are fixed. The cursor and firings are UTC
 minutes, clock readings are nanoseconds.
 */
module BackupCursor {
  import opened Common
  import opened BackupSchedule

  /** A scheduled record and the clock reading of the call that inserted it. */
  datatype Inserted = Inserted(scheduledAt: int, now: int)

  /**
   The settings row, the instants of the scheduled rows now in the table, and every
   scheduled record ever inserted, in order. `zoneStored`: the stored time zone is
   the deployment's.
   */
  datatype Store = Store(
    enabled: bool, zoneStored: bool, cursor: Option<int>, stored: set<int>, inserted: seq<Inserted>)

  /** The table refuses to empty the cursor of an enabled schedule. */
  datatype StoreError = CursorMissing

  /** One call of `advance_schedule` after `load_settings`. */
  datatype Call = Call(now: int, enabled: bool, zoneStored: bool, cursor: Option<int>)

  function Load(store: Store, now: int): Call { Call(now, store.enabled, store.zoneStored, store.cursor) }

  /** The guard of both writes: schedule still on, zone and cursor as loaded. */
  predicate Unchanged(store: Store, call: Call) {
    store.enabled && store.zoneStored == call.zoneStored && store.cursor == call.cursor
  }

  /** `advance_schedule_cursor`, called only when there is a next firing. */
  function MoveCursor(s: BackupSchedule, store: Store, call: Call): Store {
    var next := NextAfter(s, call.now);
    if next.Some? && Unchanged(store, call) then store.(cursor := next, zoneStored := true) else store
  }

  /** Another task is active, or a row for the same instant is in the table. */
  predicate Conflicts(store: Store, at: int, active: bool) { active || at in store.stored }

  /** `insert_scheduled_record`: a conflict moves the cursor and inserts nothing. */
  function InsertScheduled(s: BackupSchedule, store: Store, call: Call, at: int, active: bool)
    : Result<Store, StoreError>
  {
    var next := NextAfter(s, call.now);
    if !Unchanged(store, call) then Ok(store)
    else if next.None? then Err(CursorMissing)
    else if Conflicts(store, at, active) then Ok(store.(cursor := next))
    else Ok(store.(cursor := next, stored := store.stored + {at},
                   inserted := store.inserted + [Inserted(at, call.now)]))
  }

  predicate IsDue(call: Call) { call.cursor.Some? && call.cursor.value * MINUTE <= call.now }

  /** The rest of the call; `last` is what `last_firing_at_or_before` answers. */
  function Finish(s: BackupSchedule, store: Store, call: Call, last: Option<int>, active: bool)
    : Result<Store, StoreError>
  {
    if !call.enabled then Ok(store)
    else if !call.zoneStored || call.cursor.None? then Ok(MoveCursor(s, store, call))
    else if !IsDue(call) then Ok(store)
    else if last.None? then Ok(MoveCursor(s, store, call))
    else InsertScheduled(s, store, call, last.value, active)
  }

  /** A failed call rolls back. */
  function Committed(store: Store, r: Result<Store, StoreError>): Store { if r.Ok? then r.value else store }

  // ----- The laws of the inserted records

  ghost predicate ScheduleOk(s: BackupSchedule) { ZoneOk(s.zone) && GapsStaySkipped(s.zone) }

  /** The record is for the last firing at its insertion, and some firing was still to come. */
  ghost predicate ForLastFiring(s: BackupSchedule, r: Inserted) {
    IsLastFiring(s, r.now / MINUTE, Some(r.scheduledAt)) && NextAfter(s, r.now).Some?
  }

  /** Every record is. */
  ghost predicate AllForLastFiring(s: BackupSchedule, inserted: seq<Inserted>) {
    inserted != [] ==>
      AllForLastFiring(s, inserted[..|inserted| - 1]) && ForLastFiring(s, inserted[|inserted| - 1])
  }

  lemma {:induction false} EachIsForLastFiring(s: BackupSchedule, inserted: seq<Inserted>, i: nat)
    requires AllForLastFiring(s, inserted) && i < |inserted|
    ensures ForLastFiring(s, inserted[i])
  {
    if i < |inserted| - 1 {
      EachIsForLastFiring(s, inserted[..|inserted| - 1], i);
    }
  }

  /**
   Scheduled instants strictly increase, and a record is later than the clock of
   every earlier insertion, so the firings missed before it are never caught up.
   */
  ghost predicate InOrder(inserted: seq<Inserted>) {
    && (forall i :: 0 <= i < |inserted| ==> inserted[i].scheduledAt * MINUTE <= inserted[i].now)
    && (forall i, j :: 0 <= i < j < |inserted| ==> inserted[i].now < inserted[j].scheduledAt * MINUTE)
    && (forall i, j :: 0 <= i < j < |inserted| ==> inserted[i].scheduledAt < inserted[j].scheduledAt)
  }

  ghost predicate EachFiringOnce(s: BackupSchedule, inserted: seq<Inserted>) {
    AllForLastFiring(s, inserted) && InOrder(inserted)
  }

  ghost predicate LaterThanAll(cursor: int, inserted: seq<Inserted>) {
    forall i :: 0 <= i < |inserted| ==> inserted[i].now < cursor * MINUTE
  }

  /** `cursor` is a firing later than the clock of every insertion. */
  ghost predicate Ahead(s: BackupSchedule, cursor: int, inserted: seq<Inserted>) {
    Fires(s, cursor) && LaterThanAll(cursor, inserted)
  }

  /** The laws of every reachable store; an enabled schedule is one with a cursor. */
  ghost predicate Lawful(s: BackupSchedule, store: Store) {
    && (store.enabled <==> store.cursor.Some?)
    && (store.inserted != [] ==> store.zoneStored)
    && (store.zoneStored && store.cursor.Some? ==> Ahead(s, store.cursor.value, store.inserted))
    && EachFiringOnce(s, store.inserted)
  }

  lemma LastFiringReachesCursor(s: BackupSchedule, cursor: int, now: int, last: int)
    requires Fires(s, cursor) && cursor * MINUTE <= now && IsLastFiring(s, now / MINUTE, Some(last))
    ensures cursor <= last && last * MINUTE <= now
  {
    assert cursor <= now / MINUTE;
    assert InWindow(s, now / MINUTE, cursor) || cursor <= now / MINUTE - MAX_BACKDATE_MINUTES;
  }

  ghost predicate NextIsLater(s: BackupSchedule, now: int) {
    NextAfter(s, now).Some? ==> Fires(s, NextAfter(s, now).value) && NextAfter(s, now).value * MINUTE > now
  }

  lemma NextIsAlwaysLater(s: BackupSchedule, now: int)
    requires ScheduleOk(s)
    ensures NextIsLater(s, now)
  {
    NextAfterIsLeast(s, now);
  }

  lemma OrderExtends(inserted: seq<Inserted>, cursor: int, r: Inserted)
    requires InOrder(inserted) && LaterThanAll(cursor, inserted)
    requires cursor <= r.scheduledAt && r.scheduledAt * MINUTE <= r.now
    ensures InOrder(inserted + [r])
  {
    var longer := inserted + [r];
    assert forall i :: 0 <= i < |inserted| ==> longer[i] == inserted[i];
    forall i, j | 0 <= i < j < |longer|
      ensures longer[i].now < longer[j].scheduledAt * MINUTE && longer[i].scheduledAt < longer[j].scheduledAt
    {
      assert longer[i] == inserted[i] && inserted[i].scheduledAt * MINUTE <= inserted[i].now;
    }
  }

  lemma InsertKeepsOnce(s: BackupSchedule, inserted: seq<Inserted>, cursor: int, r: Inserted)
    requires EachFiringOnce(s, inserted) && LaterThanAll(cursor, inserted)
    requires cursor <= r.scheduledAt && r.scheduledAt * MINUTE <= r.now && ForLastFiring(s, r)
    ensures EachFiringOnce(s, inserted + [r])
  {
    OrderExtends(inserted, cursor, r);
    assert (inserted + [r])[..|inserted|] == inserted;
  }

  lemma LaterExtends(inserted: seq<Inserted>, cursor: int, next: int, r: Inserted)
    requires LaterThanAll(cursor, inserted) && cursor * MINUTE <= r.now < next * MINUTE
    ensures LaterThanAll(next, inserted) && LaterThanAll(next, inserted + [r])
  {
  }

  lemma InsertKeepsLaws(s: BackupSchedule, store: Store, call: Call, last: int, active: bool)
    requires Lawful(s, store) && NextIsLater(s, call.now) && IsLastFiring(s, call.now / MINUTE, Some(last))
    requires Unchanged(store, call) && call.zoneStored && IsDue(call)
    ensures Lawful(s, Committed(store, InsertScheduled(s, store, call, last, active)))
  {
    LastFiringReachesCursor(s, call.cursor.value, call.now, last);
    if NextAfter(s, call.now).Some? {
      InsertKeepsOnce(s, store.inserted, call.cursor.value, Inserted(last, call.now));
      LaterExtends(store.inserted, call.cursor.value, NextAfter(s, call.now).value, Inserted(last, call.now));
    }
  }

  /** One call keeps the laws, however stale what it loaded and whatever its clock. */
  lemma FinishKeepsLaws(s: BackupSchedule, store: Store, call: Call, last: Option<int>, active: bool)
    requires Lawful(s, store) && NextIsLater(s, call.now) && IsLastFiring(s, call.now / MINUTE, last)
    ensures Lawful(s, Committed(store, Finish(s, store, call, last, active)))
  {
    if call.enabled && Unchanged(store, call) && call.zoneStored && IsDue(call) && last.Some? {
      InsertKeepsLaws(s, store, call, last.value, active);
    }
  }

  // ----- Concurrent calls, arbitrary clocks, edits and deletions

  datatype System = System(store: Store, calls: map<nat, Call>)

  /**
   `Crash` drops a call between its load and its write. `Edit` is `update_schedule`
   with the same cron expression, `EditStorage` is `update_storage`, which turns the
   schedule off. `RemoveRow` is the end of a deletion.
   */
  datatype Action =
    | Begin(id: nat, now: int)
    | Write(id: nat, active: bool, last: Option<int>)
    | Crash(id: nat)
    | Edit(now: int, on: bool)
    | EditStorage
    | RemoveRow(at: int)

  /** An edit that enables a schedule without a next firing is rejected. */
  function EditSchedule(s: BackupSchedule, store: Store, now: int, on: bool): Store {
    if on && NextAfter(s, now).None? then store
    else store.(enabled := on, zoneStored := true, cursor := if on then NextAfter(s, now) else None)
  }

  function Do(s: BackupSchedule, y: System, a: Action): System {
    match a
    case Begin(id, now) => y.(calls := y.calls[id := Load(y.store, now)])
    case Write(id, active, last) =>
      if id in y.calls
      then System(Committed(y.store, Finish(s, y.store, y.calls[id], last, active)), y.calls - {id})
      else y
    case Crash(id) => y.(calls := y.calls - {id})
    case Edit(now, on) => y.(store := EditSchedule(s, y.store, now, on))
    case EditStorage => y.(store := y.store.(enabled := false, cursor := None))
    case RemoveRow(at) => y.(store := y.store.(stored := y.store.stored - {at}))
  }

  function Run(s: BackupSchedule, y: System, actions: seq<Action>): System
    decreases |actions|
  {
    if actions == [] then y else Run(s, Do(s, y, actions[0]), actions[1..])
  }

  /** The answer of `last_firing_at_or_before` in a write is the real one. */
  ghost predicate Honest(s: BackupSchedule, y: System, a: Action) {
    a.Write? && a.id in y.calls ==> IsLastFiring(s, y.calls[a.id].now / MINUTE, a.last)
  }

  /** An edit that enables the schedule puts the cursor ahead of every insertion. */
  ghost predicate EditIsAhead(s: BackupSchedule, store: Store, a: Action) {
    a.Edit? && a.on && NextAfter(s, a.now).Some? ==> Ahead(s, NextAfter(s, a.now).value, store.inserted)
  }

  ghost predicate AllAllowed(s: BackupSchedule, y: System, actions: seq<Action>)
    decreases |actions|
  {
    actions != [] ==>
      && Honest(s, y, actions[0]) && EditIsAhead(s, y.store, actions[0])
      && AllAllowed(s, Do(s, y, actions[0]), actions[1..])
  }

  lemma DoKeepsLaws(s: BackupSchedule, y: System, a: Action)
    requires ScheduleOk(s) && Lawful(s, y.store) && Honest(s, y, a) && EditIsAhead(s, y.store, a)
    ensures Lawful(s, Do(s, y, a).store)
  {
    if a.Write? && a.id in y.calls {
      NextIsAlwaysLater(s, y.calls[a.id].now);
      FinishKeepsLaws(s, y.store, y.calls[a.id], a.last, a.active);
    }
  }

  /**
   Any number of concurrent calls, any clock readings, crashes and deletions
   anywhere: no firing gets two records and missed firings collapse into the latest.
   Only edits are held to a condition, and `EditBehindRepeatsFiring` needs it.
   */
  lemma {:induction false} EveryFiringAtMostOnce(s: BackupSchedule, y: System, actions: seq<Action>)
    requires ScheduleOk(s) && Lawful(s, y.store) && AllAllowed(s, y, actions)
    ensures Lawful(s, Run(s, y, actions).store)
    decreases |actions|
  {
    if actions != [] {
      DoKeepsLaws(s, y, actions[0]);
      EveryFiringAtMostOnce(s, Do(s, y, actions[0]), actions[1..]);
    }
  }

  // ----- When an edit is ahead

  /** No clock reading is before an earlier one; writes are honest. */
  ghost predicate Timely(s: BackupSchedule, y: System, clock: int, actions: seq<Action>)
    decreases |actions|
  {
    actions != [] ==>
      && Honest(s, y, actions[0])
      && (actions[0].Begin? || actions[0].Edit? ==> clock <= actions[0].now)
      && Timely(s, Do(s, y, actions[0]), Reading(clock, actions[0]), actions[1..])
  }

  function Reading(clock: int, a: Action): int { if a.Begin? || a.Edit? then a.now else clock }

  /** All clock readings so far. */
  ghost predicate ReadBy(y: System, clock: int) {
    && (forall i :: 0 <= i < |y.store.inserted| ==> y.store.inserted[i].now <= clock)
    && (forall id :: id in y.calls ==> y.calls[id].now <= clock)
  }

  lemma DoReadsBy(s: BackupSchedule, y: System, clock: int, a: Action)
    requires ReadBy(y, clock) && (a.Begin? || a.Edit? ==> clock <= a.now)
    ensures ReadBy(Do(s, y, a), Reading(clock, a))
  {
    if a.Write? && a.id in y.calls {
      var call := y.calls[a.id];
      var inserted := Do(s, y, a).store.inserted;
      assert inserted == y.store.inserted || inserted[..|inserted| - 1] == y.store.inserted;
      assert forall i :: 0 <= i < |y.store.inserted| ==> inserted[i] == y.store.inserted[i];
    }
  }

  /** With a clock that never goes back every edit is ahead, so the law holds with edits at any time. */
  lemma {:induction false} MonotoneClockInsertsOnce(s: BackupSchedule, y: System, clock: int, actions: seq<Action>)
    requires ScheduleOk(s) && Lawful(s, y.store) && ReadBy(y, clock) && Timely(s, y, clock, actions)
    ensures AllAllowed(s, y, actions) && Lawful(s, Run(s, y, actions).store)
    decreases |actions|
  {
    if actions != [] {
      var a := actions[0];
      if a.Edit? {
        NextIsAlwaysLater(s, a.now);
      }
      DoKeepsLaws(s, y, a);
      DoReadsBy(s, y, clock, a);
      MonotoneClockInsertsOnce(s, Do(s, y, a), Reading(clock, a), actions[1..]);
    }
  }

  lemma RunThree(s: BackupSchedule, y: System, a: Action, b: Action, c: Action)
    ensures Run(s, y, [a, b, c]) == Do(s, Do(s, Do(s, y, a), b), c)
  {
    var y1 := Do(s, y, a);
    var y2 := Do(s, y1, b);
    assert [a, b, c][1..] == [b, c] && [b, c][1..] == [c] && [c][1..] == [];
    assert Run(s, y, [a, b, c]) == Run(s, y1, [b, c]);
    assert Run(s, y1, [b, c]) == Run(s, y2, [c]);
    assert Run(s, y2, [c]) == Do(s, y2, c);
  }

  /** The next firing after `now` is not later than the clock of the last insertion. */
  ghost predicate Behind(s: BackupSchedule, store: Store, now: int) {
    && store.inserted != [] && NextAfter(s, now).Some?
    && var last := store.inserted[|store.inserted| - 1];
       ForLastFiring(s, last) && NextAfter(s, now).value * MINUTE <= last.now
  }

  lemma NotLaterThanLast(inserted: seq<Inserted>, cursor: int)
    requires InOrder(inserted) && !LaterThanAll(cursor, inserted)
    ensures inserted != [] && cursor * MINUTE <= inserted[|inserted| - 1].now
  {
    var i :| 0 <= i < |inserted| && cursor * MINUTE <= inserted[i].now;
    var n := |inserted| - 1;
    assert i < n ==> inserted[i].now < inserted[n].scheduledAt * MINUTE;
  }

  /** An edit at `now`, then a call whose clock reads that of the record `r`. */
  function Repeat(now: int, r: Inserted): seq<Action> {
    [Edit(now, true), Begin(0, r.now), Write(0, false, Some(r.scheduledAt))]
  }

  /** An honest run that starts with `first` and goes on with an edit and a call gives the last record again. */
  ghost predicate CanRepeatLast(s: BackupSchedule, store: Store, first: seq<Action>, now: int) {
    && store.inserted != []
    && var again := store.inserted[|store.inserted| - 1];
       && IsLastFiring(s, again.now / MINUTE, Some(again.scheduledAt))
       && Run(s, System(store, map[]), first + Repeat(now, again)).store.inserted == store.inserted + [again]
  }

  /** The deletion of the row of the last record. */
  function Forget(store: Store): seq<Action> {
    if store.inserted == [] then [] else [RemoveRow(store.inserted[|store.inserted| - 1].scheduledAt)]
  }

  lemma RunFirst(s: BackupSchedule, y: System, a: Action, rest: seq<Action>)
    ensures Run(s, y, [a] + rest) == Run(s, Do(s, y, a), rest)
  {
    assert ([a] + rest)[1..] == rest;
  }

  /**
   The condition on edits is exact: any edit that is not ahead lets a run repeat the
   last record, once its row is deleted.
   */
  lemma EditBehindRepeatsFiring(s: BackupSchedule, store: Store, now: int)
    requires ScheduleOk(s) && Lawful(s, store) && !EditIsAhead(s, store, Edit(now, true))
    ensures CanRepeatLast(s, store, Forget(store), now)
  {
    NextIsAlwaysLater(s, now);
    NotLaterThanLast(store.inserted, NextAfter(s, now).value);
    RepeatedInsertion(s, store, now);
  }

  lemma RepeatedInsertion(s: BackupSchedule, store: Store, now: int)
    requires Behind(s, store, now)
    ensures CanRepeatLast(s, store, Forget(store), now)
  {
    var again := store.inserted[|store.inserted| - 1];
    var forgotten := store.(stored := store.stored - {again.scheduledAt});
    RunFirst(s, System(store, map[]), RemoveRow(again.scheduledAt), Repeat(now, again));
    RunThree(s, System(forgotten, map[]), Edit(now, true), Begin(0, again.now),
             Write(0, false, Some(again.scheduledAt)));
    var edited := EditSchedule(s, forgotten, now, true);
    var r := Finish(s, edited, Load(edited, again.now), Some(again.scheduledAt), false);
    assert r.Ok? && r.value.inserted == store.inserted + [again];
  }

  // ----- The end of a schedule

  ghost predicate AllHonest(s: BackupSchedule, y: System, actions: seq<Action>)
    decreases |actions|
  {
    actions != [] ==> Honest(s, y, actions[0]) && AllHonest(s, Do(s, y, actions[0]), actions[1..])
  }

  ghost predicate HasLaterFiring(s: BackupSchedule, f: int) {
    exists v :: Fires(s, v) && v > f
  }

  ghost predicate AllHaveLaterFirings(s: BackupSchedule, inserted: seq<Inserted>) {
    forall i :: 0 <= i < |inserted| ==> HasLaterFiring(s, inserted[i].scheduledAt)
  }

  lemma InsertedHasLaterFiring(s: BackupSchedule, now: int, last: int)
    requires NextIsLater(s, now) && NextAfter(s, now).Some? && IsLastFiring(s, now / MINUTE, Some(last))
    ensures HasLaterFiring(s, last)
  {
    assert Fires(s, NextAfter(s, now).value) && NextAfter(s, now).value > last;
  }

  lemma DoKeepsLaterFirings(s: BackupSchedule, y: System, a: Action)
    requires ScheduleOk(s) && Honest(s, y, a) && AllHaveLaterFirings(s, y.store.inserted)
    ensures AllHaveLaterFirings(s, Do(s, y, a).store.inserted)
  {
    if a.Write? && a.id in y.calls && a.last.Some? {
      var now := y.calls[a.id].now;
      NextIsAlwaysLater(s, now);
      if NextAfter(s, now).Some? {
        InsertedHasLaterFiring(s, now, a.last.value);
      }
    }
  }

  /** A record needs a later firing: over every run, whatever the edits, each record has one. */
  lemma {:induction false} RecordedFiringsHaveSuccessors(s: BackupSchedule, y: System, actions: seq<Action>)
    requires ScheduleOk(s) && AllHonest(s, y, actions) && AllHaveLaterFirings(s, y.store.inserted)
    ensures AllHaveLaterFirings(s, Run(s, y, actions).store.inserted)
    decreases |actions|
  {
    if actions != [] {
      DoKeepsLaterFirings(s, y, actions[0]);
      RecordedFiringsHaveSuccessors(s, Do(s, y, actions[0]), actions[1..]);
    }
  }

  /** So over every run the last firing of a schedule that ends never gets a record. */
  lemma LastFiringIsNeverRecorded(s: BackupSchedule, last: int, y: System, actions: seq<Action>, i: nat)
    requires ScheduleOk(s) && EndsAt(s, last) && AllHonest(s, y, actions)
    requires AllHaveLaterFirings(s, y.store.inserted) && i < |Run(s, y, actions).store.inserted|
    ensures Run(s, y, actions).store.inserted[i].scheduledAt < last
  {
    RecordedFiringsHaveSuccessors(s, y, actions);
    assert HasLaterFiring(s, Run(s, y, actions).store.inserted[i].scheduledAt);
  }

  /** And every other firing can: a due call in its minute records it unless a row or task is in the way. */
  lemma EarlierFiringIsRecorded(s: BackupSchedule, store: Store, now: int, later: int)
    requires ScheduleOk(s) && Lawful(s, store) && store.enabled && store.zoneStored
    requires Fires(s, now / MINUTE) && Fires(s, later) && now / MINUTE < later
    requires IsDue(Load(store, now)) && now / MINUTE !in store.stored
    ensures var f := now / MINUTE;
      var r := Finish(s, store, Load(store, now), Some(f), false);
      IsLastFiring(s, f, Some(f)) && r.Ok? && r.value.inserted == store.inserted + [Inserted(f, now)]
  {
    var f := now / MINUTE;
    assert InWindow(s, f, f);
    NextAfterIsLeast(s, now);
    MinutesAfter(now);
  }

  /**
   A call on a lawful store fails exactly when it is due and its clock is in the
   minute of the last firing of a schedule that ends.
   */
  lemma CallFailsOnlyAtTheEnd(s: BackupSchedule, store: Store, now: int, answer: Option<int>, active: bool)
    requires ScheduleOk(s) && Lawful(s, store) && IsLastFiring(s, now / MINUTE, answer)
    ensures Finish(s, store, Load(store, now), answer, active).Err? <==>
      store.enabled && store.zoneStored && IsDue(Load(store, now)) && EndsAt(s, now / MINUTE)
  {
    NextAfterIsLeast(s, now);
    if store.enabled && store.zoneStored && IsDue(Load(store, now)) {
      EndsIffNoNext(s, now, answer);
    }
  }

  lemma EndsIffNoNext(s: BackupSchedule, now: int, answer: Option<int>)
    requires LeastAfter(s, now, NextAfter(s, now)) && IsLastFiring(s, now / MINUTE, answer)
    ensures answer.Some? && NextAfter(s, now).None? <==> EndsAt(s, now / MINUTE)
  {
    var high := now / MINUTE;
    MinutesAfter(now);
    assert Fires(s, high) ==> InWindow(s, high, high);
  }

  lemma MinutesAfter(now: int)
    ensures forall v: int :: v * MINUTE > now <==> v > now / MINUTE
  {
  }

  // ----- What a call and an edit do

  /** A call has something to do: the stored zone is not the deployment's, or the cursor is due. */
  predicate MustAct(store: Store, now: int) {
    store.enabled && (!store.zoneStored || (store.cursor.Some? && store.cursor.value * MINUTE <= now))
  }

  /**
   A call on a lawful store that has something to do, with a firing still to come, puts
   the cursor on the least later firing; it inserts the last firing exactly if the zone
   was right, there is one, and nothing is in the way. Any other call changes nothing.
   */
  lemma CallEffect(s: BackupSchedule, store: Store, now: int, answer: Option<int>, active: bool)
    requires ScheduleOk(s) && Lawful(s, store) && IsLastFiring(s, now / MINUTE, answer)
    ensures var r := Finish(s, store, Load(store, now), answer, active);
      var next := NextAfter(s, now);
      && LeastAfter(s, now, next)
      && (!MustAct(store, now) || next.None? ==> Committed(store, r) == store)
      && (MustAct(store, now) && next.Some? ==>
            && r.Ok? && r.value.cursor == next && r.value.zoneStored && r.value.enabled
            && (r.value.inserted != store.inserted <==>
                  store.zoneStored && answer.Some? && !active && answer.value !in store.stored)
            && (r.value.inserted != store.inserted ==>
                  && r.value.inserted == store.inserted + [Inserted(answer.value, now)]
                  && r.value.stored == store.stored + {answer.value})
            && (r.value.inserted == store.inserted ==> r.value.stored == store.stored))
  {
    NextAfterIsLeast(s, now);
  }

  /** An edit that enables puts the cursor on the least later firing or is refused; one that disables clears it. */
  lemma EditEffect(s: BackupSchedule, store: Store, now: int, on: bool)
    requires ScheduleOk(s)
    ensures var edited := EditSchedule(s, store, now, on);
      && edited.stored == store.stored && edited.inserted == store.inserted
      && (!on ==> !edited.enabled && edited.cursor.None? && edited.zoneStored)
      && (on && (exists v :: Fires(s, v) && v * MINUTE > now) ==>
            edited.enabled && edited.zoneStored && edited.cursor.Some? && LeastAfter(s, now, edited.cursor))
      && (on && !(exists v :: Fires(s, v) && v * MINUTE > now) ==> edited == store)
  {
    NextAfterIsLeast(s, now);
  }

  // ----- The operation

  class ScheduleStore {
    var enabled: bool
    var zoneStored: bool
    var cursor: Option<int>
    var stored: set<int>
    ghost var inserted: seq<Inserted>

    ghost function View(): Store
      reads this
    {
      Store(enabled, zoneStored, cursor, stored, inserted)
    }

    constructor ()
      ensures View() == Store(false, false, None, {}, [])
    {
      enabled, zoneStored, cursor, stored, inserted := false, false, None, {}, [];
    }

    /** The steps of `advance_schedule`, run without interference. */
    method Advance(s: BackupSchedule, now: int, active: bool, last: Option<int>) returns (failed: bool)
      modifies this
      ensures var r := Finish(s, old(View()), Load(old(View()), now), last, active);
              View() == Committed(old(View()), r) && failed == r.Err?
    {
      failed := false;
      if !enabled {
        return;
      }
      var next := NextAfter(s, now);
      if !zoneStored || cursor.None? {
        if next.Some? {
          cursor, zoneStored := next, true;
        }
        return;
      }
      if cursor.value * MINUTE > now {
        return;
      }
      if last.None? {
        if next.Some? {
          cursor := next;
        }
        return;
      }
      if next.None? {
        return true;
      }
      cursor := next;
      if !active && last.value !in stored {
        stored, inserted := stored + {last.value}, inserted + [Inserted(last.value, now)];
      }
    }

    /**
     `advance_schedule`; `active` is whether another task is active. It keeps the laws,
     fails without effect, or moves the cursor past `now` and past what it inserts.
     */
    method AdvanceSchedule(s: BackupSchedule, now: int, active: bool) returns (failed: bool, last: Option<int>)
      requires ScheduleOk(s) && Lawful(s, View())
      modifies this
      ensures Lawful(s, View()) && IsLastFiring(s, now / MINUTE, last)
      ensures var r := Finish(s, old(View()), Load(old(View()), now), last, active);
              View() == Committed(old(View()), r) && failed == r.Err?
      ensures |inserted| > |old(inserted)| ==>
        cursor.Some? && cursor.value * MINUTE > now && cursor.value > inserted[|inserted| - 1].scheduledAt
    {
      last := LastFiringAtOrBefore(s, now);
      NextIsAlwaysLater(s, now);
      FinishKeepsLaws(s, View(), Load(View(), now), last, active);
      ghost var store := View();
      failed := Advance(s, now, active, last);
      InsertionMovesCursor(s, store, now, last, active);
    }
  }

  lemma InsertionMovesCursor(s: BackupSchedule, store: Store, now: int, last: Option<int>, active: bool)
    requires NextIsLater(s, now) && (last.Some? ==> last.value * MINUTE <= now)
    ensures var after := Committed(store, Finish(s, store, Load(store, now), last, active));
      |after.inserted| > |store.inserted| ==>
        && after.cursor.Some? && after.cursor.value * MINUTE > now
        && after.cursor.value > after.inserted[|after.inserted| - 1].scheduledAt
  {
  }
}
