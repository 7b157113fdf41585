/**
 The crash-recoverable backup task of gateway-admin/src/backup/task.rs.

 `Environment` is everything outside the task: the repository rows with their
 compare-and-set transitions, the object store, the dump port, and an
 administrator who may act before every port call. A port call may succeed, fail,
 or be the point where the process dies; a failed or fatal write may or may not
 have reached the database. Archives and remote objects are not stored: the dump
 port and the object store may answer anything. `log` records what was observed.
 */
module BackupTask {
  import opened Common
  import BackupSchedule

  datatype Status = Queued | Dumping | Uploading | Completed | Failed | Deleting

  /** `BackupStatus::allows_transition_to`. */
  predicate AllowsTransition(from: Status, to: Status) {
    match from
    case Queued => to == Dumping || to == Failed
    case Dumping => to == Uploading || to == Failed
    case Uploading => to == Completed || to == Failed
    case Completed => to == Deleting
    case Failed => to == Deleting
    case Deleting => false
  }

  predicate CanBeDeleted(s: Status) { s == Completed || s == Failed }

  /** Size and SHA-256 of an archive or a remote object. */
  datatype Meta = Meta(size: nat, sha256: string)

  /** `scheduled`: not a manual backup. */
  datatype Row = Row(
    status: Status, objectKey: string, meta: Option<Meta>, completedAt: Option<int>, scheduled: bool,
    expiresAt: Option<int>)

  /** A row as read by the task, possibly stale. */
  datatype Record = Record(id: string, row: Row)

  datatype Event =
    | ArtifactSeen(id: string, meta: Meta)
    | HeadSeen(key: string, meta: Meta)
    | DeleteRequested(id: string, key: string, status: Status)
    | ObjectDeleted(key: string)
    | BecameCompleted(id: string, key: string, persisted: Meta)
    | RowDeleted(id: string, key: string)

  /** The last thing observed is a remote object under `key` that equals a seen archive of `id`. */
  predicate JustMatched(log: seq<Event>, id: string, key: string) {
    && log != [] && log[|log| - 1].HeadSeen? && log[|log| - 1].key == key
    && ArtifactSeen(id, log[|log| - 1].meta) in log
  }

  /** The last thing observed is that the object of the deleting row `id` was deleted. */
  predicate JustDeleted(log: seq<Event>, id: string, key: string) {
    |log| >= 2 && log[|log| - 2] == DeleteRequested(id, key, Deleting) && log[|log| - 1] == ObjectDeleted(key)
  }

  predicate Justified(before: seq<Event>, e: Event) {
    match e
    case BecameCompleted(id, key, persisted) => ArtifactSeen(id, persisted) in before && JustMatched(before, id, key)
    case RowDeleted(id, key) => JustDeleted(before, id, key)
    case DeleteRequested(_, _, status) => status == Uploading || status == Deleting
    case _ => true
  }

  /** Every completion, deletion and row removal was earned by what was observed directly before it. */
  ghost predicate LogOk(log: seq<Event>) {
    forall n :: 0 <= n < |log| ==> Justified(log[..n], log[n])
  }

  /** The event may remove the object under `key`. */
  predicate Deletes(e: Event, key: string) {
    (e.DeleteRequested? || e.ObjectDeleted?) && e.key == key
  }

  ghost predicate KeptSince(log: seq<Event>, n: nat, key: string) {
    forall j :: n <= j < |log| ==> !Deletes(log[j], key)
  }

  ghost predicate CompletedAt(log: seq<Event>, n: nat, id: string, row: Row) {
    && n < |log| && row.meta.Some? && log[n] == BecameCompleted(id, row.objectKey, row.meta.value)
    && KeptSince(log, n, row.objectKey)
  }

  ghost predicate RowOk(id: string, row: Row, log: seq<Event>) {
    && (row.status == Uploading ==> row.meta.Some? && ArtifactSeen(id, row.meta.value) in log)
    && (row.status == Completed ==> row.completedAt.Some? && exists n: nat :: CompletedAt(log, n, id, row))
  }

  ghost predicate RowsOk(rows: map<string, Row>, log: seq<Event>) {
    forall id :: id in rows ==> RowOk(id, rows[id], log)
  }

  /** The unique index on object keys. */
  predicate KeysDistinct(rows: map<string, Row>) {
    forall a, b :: a in rows && b in rows && rows[a].objectKey == rows[b].objectKey ==> a == b
  }

  /**
   How the administrator may change rows outside `mine`: add queued ones and
   start deleting finished ones. A calm environment changes nothing.
   */
  predicate Moves(rows: map<string, Row>, rows': map<string, Row>, mine: set<string>, calm: bool) {
    && (forall id :: id in rows && id !in mine ==>
          && id in rows'
          && (rows'[id] == rows[id]
              || (!calm && CanBeDeleted(rows[id].status) && rows'[id] == rows[id].(status := Deleting))))
    && (forall id :: id in rows' && id !in rows && id !in mine ==> rows'[id].status == Queued)
  }

  /** A record by its id and object key. */
  datatype Name = Name(id: string, key: string)

  predicate Stored(rows: map<string, Row>, name: Name) {
    name.id in rows && rows[name.id].objectKey == name.key
  }

  /** A row that was ever stored is still there or its removal is logged. */
  ghost predicate Accounted(name: Name, known: bool, rows: map<string, Row>, log: seq<Event>) {
    && (Stored(rows, name) ==> known)
    && (known ==> Stored(rows, name) || RowDeleted(name.id, name.key) in log)
  }

  // ----- Consequences of the log and the rows

  lemma LogGrows(log: seq<Event>, e: Event)
    requires LogOk(log) && Justified(log, e)
    ensures LogOk(log + [e])
  {
    var longer := log + [e];
    forall n | 0 <= n < |longer|
      ensures Justified(longer[..n], longer[n])
    {
      assert longer[..n] == if n < |log| then log[..n] else log;
    }
  }

  /** Completion `n` directly follows a head of the record's own object that equals a seen archive of it. */
  ghost predicate MatchedBefore(log: seq<Event>, n: nat)
    requires n < |log| && log[n].BecameCompleted?
  {
    n > 0 && log[n - 1].HeadSeen? && log[n - 1].key == log[n].key
    && ArtifactSeen(log[n].id, log[n - 1].meta) in log[..n]
  }

  lemma CompletedOnlyAfterMatchingHead(log: seq<Event>, n: nat)
    requires LogOk(log) && n < |log| && log[n].BecameCompleted?
    ensures MatchedBefore(log, n)
  {
    assert Justified(log[..n], log[n]);
  }

  /** If the archive never changed, that head returned the persisted size and hash. */
  lemma StableArchiveMatchesPersisted(log: seq<Event>, n: nat)
    requires LogOk(log) && n < |log| && log[n].BecameCompleted?
    requires forall m, m' :: ArtifactSeen(log[n].id, m) in log && ArtifactSeen(log[n].id, m') in log ==> m == m'
    ensures n > 0 && log[n - 1] == HeadSeen(log[n].key, log[n].persisted)
  {
    CompletedOnlyAfterMatchingHead(log, n);
    assert Justified(log[..n], log[n]);
    assert ArtifactSeen(log[n].id, log[n].persisted) in log && ArtifactSeen(log[n].id, log[n - 1].meta) in log;
  }

  /** Row removal `n` follows the delete of its object, and that one follows every completion of the record. */
  ghost predicate RemovedLast(log: seq<Event>, n: nat)
    requires n < |log| && log[n].RowDeleted?
  {
    && n >= 2 && log[n - 1] == ObjectDeleted(log[n].key)
    && log[n - 2] == DeleteRequested(log[n].id, log[n].key, Deleting)
    && forall c :: 0 <= c < n && log[c].BecameCompleted? && log[c].id == log[n].id ==> c < n - 2
  }

  lemma RowOutlivesItsObject(log: seq<Event>, n: nat)
    requires LogOk(log) && n < |log| && log[n].RowDeleted?
    ensures RemovedLast(log, n)
  {
    assert Justified(log[..n], log[n]);
  }

  /**
   A completed row still has the object it was completed with: a head equal to a seen
   archive came directly before its completion, and nothing since asked to delete it.
   */
  ghost predicate Intact(log: seq<Event>, id: string, row: Row) {
    exists n: nat ::
      0 < n < |log| && CompletedAt(log, n, id, row) && MatchedBefore(log, n) && KeptSince(log, n - 1, row.objectKey)
  }

  lemma CompletedObjectIsKept(rows: map<string, Row>, log: seq<Event>, id: string)
    requires LogOk(log) && RowsOk(rows, log) && id in rows && rows[id].status == Completed
    ensures Intact(log, id, rows[id])
  {
    assert RowOk(id, rows[id], log);
    var n: nat :| CompletedAt(log, n, id, rows[id]);
    CompletedOnlyAfterMatchingHead(log, n);
    assert KeptSince(log, n - 1, rows[id].objectKey);
  }

  /** What holds of the log and the rows at every point of every run. */
  ghost predicate History(log: seq<Event>, rows: map<string, Row>) {
    && (forall n: nat :: n < |log| && log[n].BecameCompleted? ==> MatchedBefore(log, n))
    && (forall n: nat :: n < |log| && log[n].RowDeleted? ==> RemovedLast(log, n))
    && (forall id :: id in rows && rows[id].status == Completed ==> Intact(log, id, rows[id]))
  }

  lemma LawsGiveHistory(log: seq<Event>, rows: map<string, Row>)
    requires LogOk(log) && RowsOk(rows, log)
    ensures History(log, rows)
  {
    forall n: nat | n < |log| && log[n].BecameCompleted?
      ensures MatchedBefore(log, n)
    {
      CompletedOnlyAfterMatchingHead(log, n);
    }
    forall n: nat | n < |log| && log[n].RowDeleted?
      ensures RemovedLast(log, n)
    {
      RowOutlivesItsObject(log, n);
    }
    forall id | id in rows && rows[id].status == Completed
      ensures Intact(log, id, rows[id])
    {
      CompletedObjectIsKept(rows, log, id);
    }
  }

  /** The row is as recorded, and in a status only the task may change. */
  predicate Owned(rows: map<string, Row>, record: Record) {
    && record.id in rows && rows[record.id] == record.row
    && (record.row.status == Dumping || record.row.status == Uploading)
  }

  predicate SettledRow(rows: map<string, Row>, id: string) {
    id in rows && (rows[id].status == Completed || rows[id].status == Failed)
  }

  ghost predicate AllOwned(rows: map<string, Row>, records: seq<Record>, from: nat) {
    forall j :: from <= j < |records| ==> Owned(rows, records[j])
  }

  ghost predicate AllSettled(rows: map<string, Row>, records: seq<Record>, upTo: nat)
    requires upTo <= |records|
  {
    forall j :: 0 <= j < upTo ==> SettledRow(rows, records[j].id)
  }

  ghost predicate AllDeleting(rows: map<string, Row>, records: seq<Record>, from: nat) {
    forall j :: from <= j < |records| ==>
      records[j].id in rows && rows[records[j].id] == records[j].row && records[j].row.status == Deleting
  }

  lemma StillDeleting(rows: map<string, Row>, rows': map<string, Row>, records: seq<Record>, i: nat, calm: bool)
    requires i < |records| && Distinct(records) && Moves(rows, rows', {records[i].id}, calm)
    requires AllDeleting(rows, records, i)
    ensures AllDeleting(rows', records, i + 1)
  {
  }

  ghost predicate Distinct(records: seq<Record>) {
    forall i, j :: 0 <= i < j < |records| ==> records[i].id != records[j].id
  }

  /** Of the first `n` records the deleting row is gone exactly if its delete, counted from `first`, succeeds. */
  ghost predicate DeletedBy(rows: map<string, Row>, records: seq<Record>, n: nat, o: Oracle, first: nat) {
    forall i :: 0 <= i < n <= |records| ==>
      (records[i].id in rows && rows[records[i].id].status == Deleting <==> !o.deletes(first + i))
  }

  lemma OneMoreDeleted(rows: map<string, Row>, rows': map<string, Row>, records: seq<Record>, i: nat, o: Oracle,
                       first: nat)
    requires i < |records| && Distinct(records) && Moves(rows, rows', {records[i].id}, true)
    requires DeletedBy(rows, records, i, o, first)
    requires records[i].id in rows' ==> rows'[records[i].id].status == Deleting
    requires records[i].id in rows' <==> !o.deletes(first + i)
    ensures DeletedBy(rows', records, i + 1, o, first)
  {
  }

  /** The intermediate rows are among the records from `from` on. */
  ghost predicate StillListed(rows: map<string, Row>, records: seq<Record>, from: nat) {
    forall id :: id in rows && Intermediate(rows[id].status) ==>
      exists j :: from <= j < |records| && records[j].id == id
  }

  lemma OneLessListed(rows: map<string, Row>, rows': map<string, Row>, records: seq<Record>, i: nat)
    requires i < |records| && Moves(rows, rows', {records[i].id}, true) && StillListed(rows, records, i)
    requires SettledRow(rows', records[i].id)
    ensures StillListed(rows', records, i + 1)
  {
    forall id | id in rows' && Intermediate(rows'[id].status)
      ensures exists j :: i + 1 <= j < |records| && records[j].id == id
    {
      assert id in rows && Intermediate(rows[id].status);
      var j :| i <= j < |records| && records[j].id == id;
      assert j != i;
    }
  }

  /** Working on record `i` leaves the records after it owned and, when calm, those before it settled. */
  lemma OthersUnaffected(rows: map<string, Row>, rows': map<string, Row>, records: seq<Record>, i: nat, calm: bool)
    requires i < |records| && Distinct(records) && Moves(rows, rows', {records[i].id}, calm)
    requires AllOwned(rows, records, i)
    ensures AllOwned(rows', records, i + 1)
    ensures calm && AllSettled(rows, records, i) && SettledRow(rows', records[i].id) ==>
      AllSettled(rows', records, i + 1)
  {
  }

  lemma MovesKeepRowsOk(rows: map<string, Row>, rows': map<string, Row>, log: seq<Event>, mine: set<string>, calm: bool)
    requires RowsOk(rows, log) && Moves(rows, rows', mine, calm)
    requires forall id :: id in mine && id in rows' ==> RowOk(id, rows'[id], log)
    ensures RowsOk(rows', log)
  {
  }

  /** An event that deletes the object of no completed row keeps every row lawful. */
  lemma RowStaysOk(id: string, row: Row, log: seq<Event>, e: Event)
    requires RowOk(id, row, log) && (row.status == Completed ==> !Deletes(e, row.objectKey))
    ensures RowOk(id, row, log + [e])
  {
    if row.status == Completed {
      var n: nat :| CompletedAt(log, n, id, row);
      assert CompletedAt(log + [e], n, id, row);
    }
  }

  lemma AppendKeepsRowsOk(rows: map<string, Row>, log: seq<Event>, e: Event)
    requires RowsOk(rows, log)
    requires forall id :: id in rows && rows[id].status == Completed ==> !Deletes(e, rows[id].objectKey)
    ensures RowsOk(rows, log + [e])
  {
    forall id | id in rows
      ensures RowOk(id, rows[id], log + [e])
    {
      RowStaysOk(id, rows[id], log, e);
    }
  }

  lemma UpdateKeepsRowsOk(rows: map<string, Row>, id: string, row: Row, log: seq<Event>)
    requires RowsOk(rows, log) && id in rows && RowOk(id, row, log)
    ensures RowsOk(rows[id := row], log)
  {
  }

  lemma MovesCompose(a: map<string, Row>, b: map<string, Row>, c: map<string, Row>, id: string, calm: bool)
    requires Moves(a, b, {}, calm) && Moves(b, c, {id}, calm)
    ensures Moves(a, c, {id}, calm)
  {
  }

  lemma NobodyElsesKey(rows: map<string, Row>, id: string)
    requires KeysDistinct(rows) && id in rows && rows[id].status != Completed
    ensures forall other :: other in rows && rows[other].status == Completed ==>
      rows[other].objectKey != rows[id].objectKey
  {
  }

  lemma KeysStayDistinct(rows: map<string, Row>, id: string, row: Row)
    requires KeysDistinct(rows) && id in rows && row.objectKey == rows[id].objectKey
    ensures KeysDistinct(rows[id := row])
  {
  }

  lemma NewlyCompletedOk(id: string, row: Row, log: seq<Event>)
    requires row.status == Completed && row.meta.Some? && row.completedAt.Some?
    ensures RowOk(id, row, log + [BecameCompleted(id, row.objectKey, row.meta.value)])
  {
    assert CompletedAt(log + [BecameCompleted(id, row.objectKey, row.meta.value)], |log|, id, row);
  }

  // ----- Port calls

  /** The result of a port call; `Died` means the process ended there. */
  datatype Reply<T> = Good(value: T) | Bad | Died {
    predicate IsFailure() { !Good? }
    function PropagateFailure(): Flow
      requires IsFailure()
    {
      if Died? then Dead else Error
    }
    function Extract(): T
      requires Good?
    {
      value
    }
  }

  /** How a step of the task ended. */
  datatype Flow = Continue | Error | Dead {
    predicate IsFailure() { !Continue? }
    function PropagateFailure(): Flow
      requires IsFailure()
    {
      this
    }
  }

  datatype Settings = Settings(configured: bool, verified: bool, retentionDays: nat, retentionCount: nat)

  /**
   What the stores are going to answer in a calm environment, by the number of the call:
   whether an upload, a delete or a dump succeeds, and what a head or an inspection finds.
   */
  datatype Oracle = Oracle(
    uploads: nat -> bool, deletes: nat -> bool, dumps: nat -> Option<Meta>, heads: nat -> Option<Meta>,
    staged: nat -> Option<Meta>)

  /** How often each was asked. */
  datatype Asked = Asked(uploads: nat, deletes: nat, dumps: nat, heads: nat, staged: nat, cleanups: nat)

  /** A failed record has its staging cleaned up; a remote object that should not be there is asked to be deleted. */
  function FailAsks(a: Asked): Asked { a.(cleanups := a.cleanups + 1) }

  function DiscardAsks(a: Asked): Asked { FailAsks(a.(deletes := a.deletes + 1)) }

  /** What is asked after an upload that succeeded: the head, and a discard if it finds something else. */
  function VerifyAsks(o: Oracle, a: Asked, archive: Meta): Asked {
    var after := a.(heads := a.heads + 1);
    match o.heads(a.heads)
    case None => FailAsks(after)
    case Some(found) => if found == archive then after else DiscardAsks(after)
  }

  function UploadAsks(o: Oracle, a: Asked, archive: Meta): Asked {
    var after := a.(uploads := a.uploads + 1);
    if o.uploads(a.uploads) then VerifyAsks(o, after, archive) else DiscardAsks(after)
  }

  /** Where an upload of `archive` ends: completed exactly if it succeeds and the head equals the archive. */
  function UploadEnds(o: Oracle, a: Asked, archive: Meta): Status {
    if o.uploads(a.uploads) && o.heads(a.heads) == Some(archive) then Completed else Failed
  }

  /** The same with the staged archive; without one the record fails. */
  function StagedEnds(o: Oracle, a: Asked): Status {
    match o.staged(a.staged)
    case None => Failed
    case Some(archive) => UploadEnds(o, a, archive)
  }

  /** An interrupted upload: a remote object equal to the persisted values completes it, otherwise it is retried. */
  function ResumedEnds(o: Oracle, a: Asked, meta: Option<Meta>): Status {
    if o.heads(a.heads).Some? && o.heads(a.heads) == meta then Completed
    else StagedEnds(o, a.(heads := a.heads + 1))
  }

  /** A claimed record: it fails without verified storage or a dump. */
  function TaskEnds(o: Oracle, a: Asked, verified: bool): Status {
    if !verified || o.dumps(a.dumps).None? then Failed else UploadEnds(o, a, o.dumps(a.dumps).value)
  }

  class Environment {
    var rows: map<string, Row>
    ghost var log: seq<Event>
    /** An arbitrary record, so that what holds of it holds of every record. */
    ghost const tracked: Name
    /** Whether its row was ever stored. */
    ghost var known: bool
    /** No administrator, no crash, no failing repository; storage is configured; stores answer by the oracle. */
    const calm: bool
    const settings: Settings
    const oracle: Oracle
    var asked: Asked

    ghost predicate Valid()
      reads this
    {
      LogOk(log) && RowsOk(rows, log) && KeysDistinct(rows) && Accounted(tracked, known, rows, log)
    }

    constructor (calm: bool, settings: Settings, oracle: Oracle, ghost tracked: Name)
      ensures Valid() && rows == map[] && log == [] && this.calm == calm && this.tracked == tracked
      ensures this.settings == settings && this.oracle == oracle && asked == Asked(0, 0, 0, 0, 0, 0)
    {
      rows, log, known, asked := map[], [], false, Asked(0, 0, 0, 0, 0, 0);
      this.calm, this.settings, this.oracle, this.tracked := calm, settings, oracle, tracked;
    }

    method Interfere()
      requires Valid()
      modifies this`rows, this`known
      ensures Valid() && Moves(old(rows), rows, {}, calm) && (old(known) ==> known)
    {
      ghost var before := rows;
      assert Moves(rows, rows, {}, calm) && KeysDistinct(rows);
      var next :| Moves(rows, next, {}, calm) && KeysDistinct(next);
      rows := next;
      known := known || Stored(rows, tracked);
      MovesKeepRowsOk(before, rows, log, {}, calm);
    }

    /** The answer arrives, or the call fails, or the process dies; calm answers arrive. */
    method Perhaps<T>(answer: Reply<T>) returns (reply: Reply<T>)
      ensures reply == answer || (!calm && !reply.Good?)
    {
      var fails: bool, dies: bool := *, *;
      reply := if calm || !fails then answer else if dies then Died else Bad;
    }

    method LoadSettings() returns (reply: Reply<Settings>)
      requires Valid()
      modifies this
      ensures Valid() && Moves(old(rows), rows, {}, calm) && log == old(log) && (old(known) ==> known)
      ensures calm ==> reply == Good(settings.(configured := true))
      ensures asked == old(asked)
    {
      Interfere();
      var loaded: Settings := *;
      reply := Good(if calm then settings.(configured := true) else loaded);
      reply := Perhaps(reply);
    }

    /** `list_intermediate_records`: every dumping or uploading row. */
    method ListIntermediate() returns (reply: Reply<seq<Record>>)
      requires Valid()
      modifies this
      ensures Valid() && Moves(old(rows), rows, {}, calm) && log == old(log) && (old(known) ==> known)
      ensures calm ==> reply.Good?
      ensures reply.Good? ==> Lists(reply.value, rows, {Dumping, Uploading})
      ensures reply.Good? ==> forall id :: id in rows && Intermediate(rows[id].status) ==>
        Record(id, rows[id]) in reply.value
      ensures asked == old(asked)
    {
      Interfere();
      var found := FindIntermediate(rows);
      reply := Perhaps(Good(found));
    }

    /** `list_pending_deletions`: at most twenty deleting rows, all of them if fewer. */
    method ListDeleting() returns (reply: Reply<seq<Record>>)
      requires Valid()
      modifies this
      ensures Valid() && Moves(old(rows), rows, {}, calm) && log == old(log) && (old(known) ==> known)
      ensures calm ==> reply.Good?
      ensures reply.Good? ==> ListsDeleting(reply.value, rows)
      ensures asked == old(asked)
    {
      Interfere();
      var found := FindDeleting(rows);
      reply := Perhaps(Good(found));
    }

    /** `list_expired_records`: at most ten finished rows that are expired at `scan`, all of them if fewer. */
    method ListExpired(scan: int) returns (reply: Reply<seq<Record>>)
      requires Valid()
      modifies this
      ensures Valid() && Moves(old(rows), rows, {}, calm) && log == old(log) && (old(known) ==> known)
      ensures calm ==> reply.Good?
      ensures reply.Good? ==> ListsExpired(reply.value, rows, scan)
      ensures asked == old(asked)
    {
      Interfere();
      var found := FindExpired(rows, scan);
      reply := Perhaps(Good(found));
    }

    /** `list_scheduled_completed_desc`: the completed scheduled rows, newest first, at most a thousand. */
    method ListScheduledCompleted() returns (reply: Reply<seq<Record>>)
      requires Valid()
      modifies this
      ensures Valid() && Moves(old(rows), rows, {}, calm) && log == old(log) && (old(known) ==> known)
      ensures calm ==> reply.Good?
      ensures reply.Good? ==> ListsBackups(reply.value, rows)
      ensures asked == old(asked)
    {
      Interfere();
      var found := NewestFirst(rows);
      reply := Perhaps(Good(found));
    }

    /** `transition_status`: applies only if the row still has status `from`. */
    method Transition(id: string, ghost key: string, from: Status, to: Status, meta: Option<Meta>)
      returns (reply: Reply<Option<Record>>)
      requires Valid() && AllowsTransition(from, to)
      requires id in rows ==> rows[id].objectKey == key
      requires to == Uploading ==> meta.Some? && ArtifactSeen(id, meta.value) in log
      requires to == Completed ==> from == Uploading && meta.None? && JustMatched(log, id, key)
      modifies this
      ensures Valid() && Moves(old(rows), rows, {id}, calm) && old(log) <= log && (old(known) ==> known)
      ensures reply.Good? && reply.value.Some? ==>
        && id in rows && rows[id] == reply.value.value.row && reply.value.value.id == id
        && rows[id].status == to && (id in old(rows) ==> rows[id].objectKey == key)
      ensures calm ==> reply.Good?
      ensures calm && id in old(rows) && old(rows)[id].status == from ==> reply.value.Some?
      ensures asked == old(asked)
    {
      Interfere();
      ghost var before := rows;
      reply := CompareAndSet(id, from, to, meta);
      MovesCompose(old(rows), before, rows, id, calm);
      reply := Perhaps(reply);
    }

    /** The update itself; it may fail before it reaches the table. */
    method CompareAndSet(id: string, from: Status, to: Status, meta: Option<Meta>)
      returns (reply: Reply<Option<Record>>)
      requires Valid() && AllowsTransition(from, to)
      requires to == Uploading ==> meta.Some? && ArtifactSeen(id, meta.value) in log
      requires to == Completed && id in rows && rows[id].status == from ==>
        from == Uploading && meta.None? && JustMatched(log, id, rows[id].objectKey)
      modifies this
      ensures Valid() && Moves(old(rows), rows, {id}, calm) && old(log) <= log && known == old(known)
      ensures id in rows <==> id in old(rows)
      ensures id in rows ==> rows[id].objectKey == old(rows)[id].objectKey
      ensures reply.Good? && reply.value.Some? ==>
        id in rows && reply.value.value == Record(id, rows[id]) && rows[id].status == to
      ensures calm ==> reply.Good? && (id in old(rows) && old(rows)[id].status == from ==> reply.value.Some?)
      ensures asked == old(asked)
    {
      var reached: bool := *;
      if !calm && !reached {
        return Bad;
      }
      if id !in rows || rows[id].status != from {
        return Good(None);
      }
      var row := rows[id];
      var at: int := *;
      Write(id, row.(status := to, meta := if meta.Some? then meta else row.meta,
                     completedAt := if to == Completed || to == Failed then Some(at) else row.completedAt));
      return Good(Some(Record(id, rows[id])));
    }

    /** A row takes its new status; a completion is logged. */
    method Write(id: string, updated: Row)
      requires Valid() && id in rows && updated.objectKey == rows[id].objectKey
      requires updated.status == Uploading ==> updated.meta.Some? && ArtifactSeen(id, updated.meta.value) in log
      requires updated.status == Completed ==>
        && rows[id].status == Uploading && updated.meta == rows[id].meta && updated.completedAt.Some?
        && JustMatched(log, id, updated.objectKey)
      modifies this
      ensures Valid() && rows == old(rows)[id := updated] && known == old(known)
      ensures log == old(log) + if updated.status == Completed
        then [BecameCompleted(id, updated.objectKey, updated.meta.value)] else []
      ensures asked == old(asked)
    {
      ghost var before := rows;
      if updated.status == Completed {
        assert RowOk(id, rows[id], log);
        NewlyCompletedOk(id, updated, log);
        Observe(BecameCompleted(id, updated.objectKey, updated.meta.value));
      }
      rows := rows[id := updated];
      KeysStayDistinct(before, id, updated);
      UpdateKeepsRowsOk(before, id, updated, log);
    }

    method Observe(ghost e: Event)
      requires Valid() && Justified(log, e)
      requires forall id :: id in rows && rows[id].status == Completed ==> !Deletes(e, rows[id].objectKey)
      modifies this`log
      ensures Valid() && log == old(log) + [e]
    {
      LogGrows(log, e);
      AppendKeepsRowsOk(rows, log, e);
      log := log + [e];
    }

    /** `dump`: a fresh archive, whatever its content. */
    method Dump(id: string) returns (reply: Reply<Meta>)
      requires Valid()
      modifies this
      ensures Valid() && Moves(old(rows), rows, {}, calm) && old(log) <= log && (old(known) ==> known)
      ensures reply.Good? ==> ArtifactSeen(id, reply.value) in log
      ensures asked == old(asked).(dumps := old(asked).dumps + 1)
      ensures calm ==> reply == match oracle.dumps(old(asked).dumps)
        case Some(archive) => Good(archive)
        case None => Bad
    {
      Interfere();
      var made: Option<Meta> := *;
      if calm {
        made := oracle.dumps(asked.dumps);
      }
      asked := asked.(dumps := asked.dumps + 1);
      if made.Some? {
        Observe(ArtifactSeen(id, made.value));
      }
      reply := Perhaps(if made.Some? then Good(made.value) else Bad);
    }

    /** `inspect_staging`: the staged archive if there is a complete one. */
    method InspectStaging(id: string) returns (reply: Reply<Option<Meta>>)
      requires Valid()
      modifies this
      ensures Valid() && Moves(old(rows), rows, {}, calm) && old(log) <= log && (old(known) ==> known)
      ensures reply.Good? && reply.value.Some? ==> ArtifactSeen(id, reply.value.value) in log
      ensures asked == old(asked).(staged := old(asked).staged + 1)
      ensures calm ==> reply == Good(oracle.staged(old(asked).staged))
    {
      Interfere();
      var found: Option<Meta> := *;
      if calm {
        found := oracle.staged(asked.staged);
      }
      asked := asked.(staged := asked.staged + 1);
      if found.Some? {
        Observe(ArtifactSeen(id, found.value));
      }
      reply := Perhaps(Good(found));
    }

    /** `head_object`. */
    method Head(key: string) returns (reply: Reply<Option<Meta>>)
      requires Valid()
      modifies this
      ensures Valid() && Moves(old(rows), rows, {}, calm) && old(log) <= log && (old(known) ==> known)
      ensures reply.Good? && reply.value.Some? ==> log != [] && log[|log| - 1] == HeadSeen(key, reply.value.value)
      ensures asked == old(asked).(heads := old(asked).heads + 1)
      ensures calm ==> reply == Good(oracle.heads(old(asked).heads))
    {
      Interfere();
      var found: Option<Meta> := *;
      if calm {
        found := oracle.heads(asked.heads);
      }
      asked := asked.(heads := asked.heads + 1);
      if found.Some? {
        Observe(HeadSeen(key, found.value));
      }
      reply := Perhaps(Good(found));
    }

    /** `upload_file`. */
    method Upload() returns (reply: Reply<()>)
      requires Valid()
      modifies this
      ensures Valid() && Moves(old(rows), rows, {}, calm) && log == old(log) && (old(known) ==> known)
      ensures asked == old(asked).(uploads := old(asked).uploads + 1)
      ensures calm ==> reply == if oracle.uploads(old(asked).uploads) then Good(()) else Bad
    {
      Interfere();
      var succeeds: bool := *;
      if calm {
        succeeds := oracle.uploads(asked.uploads);
      }
      asked := asked.(uploads := asked.uploads + 1);
      reply := Perhaps(if succeeds then Good(()) else Bad);
    }

    /** `cleanup_staging`: may fail even in a calm environment, but not die there. */
    method CleanUp() returns (reply: Reply<()>)
      requires Valid()
      modifies this
      ensures Valid() && Moves(old(rows), rows, {}, calm) && log == old(log) && (old(known) ==> known)
      ensures calm ==> !reply.Died?
      ensures asked == FailAsks(old(asked))
    {
      Interfere();
      asked := FailAsks(asked);
      var fails: bool := *;
      reply := Perhaps(if fails then Bad else Good(()));
    }

    /** `advance_schedule`: the row it may queue is among those the environment may add; it may fail. */
    method AdvanceSchedule() returns (reply: Reply<()>)
      requires Valid()
      modifies this
      ensures Valid() && Moves(old(rows), rows, {}, calm) && log == old(log) && (old(known) ==> known)
      ensures asked == old(asked)
    {
      Interfere();
      var fails: bool := *;
      reply := Perhaps(if fails then Bad else Good(()));
    }

    /** `delete_object`; only a success is an `ObjectDeleted`. */
    method DeleteObject(id: string, key: string) returns (reply: Reply<()>)
      requires Valid() && id in rows && rows[id].objectKey == key
      requires rows[id].status == Uploading || rows[id].status == Deleting
      modifies this
      ensures Valid() && Moves(old(rows), rows, {}, calm) && old(log) <= log && (old(known) ==> known)
      ensures reply.Good? && old(rows)[id].status == Deleting ==> JustDeleted(log, id, key)
      ensures asked == old(asked).(deletes := old(asked).deletes + 1)
      ensures calm ==> reply == if oracle.deletes(old(asked).deletes) then Good(()) else Bad
    {
      Interfere();
      var succeeds: bool := *;
      if calm {
        succeeds := oracle.deletes(asked.deletes);
      }
      asked := asked.(deletes := asked.deletes + 1);
      RequestDelete(id, key, succeeds);
      reply := Perhaps(if succeeds then Good(()) else Bad);
    }

    method RequestDelete(id: string, key: string, succeeds: bool)
      requires Valid() && id in rows && rows[id].objectKey == key
      requires rows[id].status == Uploading || rows[id].status == Deleting
      modifies this`log
      ensures Valid() && old(log) <= log
      ensures succeeds ==>
        && |log| >= 2 && log[|log| - 2] == DeleteRequested(id, key, rows[id].status)
        && log[|log| - 1] == ObjectDeleted(key)
    {
      NobodyElsesKey(rows, id);
      Observe(DeleteRequested(id, key, rows[id].status));
      if succeeds {
        Observe(ObjectDeleted(key));
      }
    }

    /** `transition_to_deleting`. */
    method TransitionToDeleting(id: string) returns (reply: Reply<Option<Record>>)
      requires Valid()
      modifies this
      ensures Valid() && Moves(old(rows), rows, {id}, calm) && log == old(log) && (old(known) ==> known)
      ensures reply.Good? && reply.value.Some? ==>
        reply.value.value.id == id && id in rows && rows[id] == reply.value.value.row && rows[id].status == Deleting
      ensures ActiveKept(old(rows), rows)
      ensures id in rows && rows[id].status == Completed ==> id in old(rows) && rows[id] == old(rows)[id]
      ensures calm ==> reply.Good? && !(id in rows && CanBeDeleted(rows[id].status))
      ensures asked == old(asked)
      ensures NoIntermediate(old(rows)) ==> NoIntermediate(rows)
    {
      Interfere();
      MovesKeepActive(old(rows), rows, calm);
      var applies := id in rows && CanBeDeleted(rows[id].status);
      var reached: bool := *;
      if calm {
        reached := true;
      }
      if applies && reached {
        BecomesDeleting(old(rows), rows, id, calm);
        Write(id, rows[id].(status := Deleting));
      }
      reply := Perhaps(if reached then Good(if applies then Some(Record(id, rows[id])) else None) else Bad);
    }

    /** `delete_record`: removes a row whose object is gone. */
    method DeleteRow(id: string, ghost key: string) returns (reply: Reply<()>)
      requires Valid() && JustDeleted(log, id, key) && id in rows && rows[id].objectKey == key
      requires rows[id].status == Deleting
      modifies this
      ensures Valid() && Moves(old(rows), rows, {id}, calm) && old(log) <= log && (old(known) ==> known)
      ensures id in rows ==> rows[id] == old(rows)[id]
      ensures calm ==> reply.Good? && id !in rows
      ensures asked == old(asked)
    {
      Interfere();
      var reached: bool := *;
      if reached || calm {
        Remove(id, key);
      }
      reply := Perhaps(if reached || calm then Good(()) else Bad);
    }

    method Remove(id: string, ghost key: string)
      requires Valid() && JustDeleted(log, id, key) && (id in rows ==> rows[id].objectKey == key)
      modifies this
      ensures Valid() && rows == old(rows) - {id} && log == old(log) + [RowDeleted(id, key)] && known == old(known)
      ensures asked == old(asked)
    {
      Observe(RowDeleted(id, key));
      rows := rows - {id};
    }

    /** `claim_next_queued`: some queued row, now dumping; none only if there is none. */
    method ClaimNextQueued() returns (reply: Reply<Option<Record>>, ghost claimed: set<string>)
      requires Valid()
      modifies this
      ensures Valid() && Moves(old(rows), rows, claimed, calm) && log == old(log) && (old(known) ==> known)
      ensures |claimed| <= 1
      ensures reply.Good? && reply.value.Some? ==>
        var r := reply.value.value;
        r.id in rows && rows[r.id] == r.row && r.row.status == Dumping && claimed == {r.id}
      ensures reply == Good(None) ==> claimed == {} && forall id :: id in rows ==> rows[id].status != Queued
      ensures calm ==> reply.Good?
      ensures asked == old(asked)
    {
      Interfere();
      claimed := {};
      var answer: Option<Record> := None;
      var queued := set id | id in rows && rows[id].status == Queued;
      if queued != {} {
        var id :| id in queued;
        Write(id, rows[id].(status := Dumping));
        claimed := {id};
        answer := Some(Record(id, rows[id]));
      } else {
        assert forall id :: id in rows && rows[id].status == Queued ==> id in queued;
      }
      reply := Perhaps(Good(answer));
    }
  }

  /** `found` lists rows of the given statuses as they are, each at most once. */
  ghost predicate Lists(found: seq<Record>, rows: map<string, Row>, statuses: set<Status>) {
    && (forall i :: 0 <= i < |found| ==>
          found[i].id in rows && rows[found[i].id] == found[i].row && found[i].row.status in statuses)
    && (forall i, j :: 0 <= i < j < |found| ==> found[i].id != found[j].id)
  }

  /** A completed scheduled backup. */
  predicate HoldsBackup(rows: map<string, Row>, id: string) {
    id in rows && rows[id].scheduled && rows[id].status == Completed
  }

  /** When the record finished; completed rows have a completion time. */
  function FinishedAt(row: Row): int { if row.completedAt.Some? then row.completedAt.value else 0 }

  predicate Expired(row: Row, scan: int) { row.expiresAt.Some? && row.expiresAt.value <= scan }

  ghost predicate ListsExpired(found: seq<Record>, rows: map<string, Row>, scan: int) {
    && Lists(found, rows, {Completed, Failed}) && |found| <= 10
    && (forall i :: 0 <= i < |found| ==> Expired(found[i].row, scan))
    && (|found| < 10 ==> forall id :: id in rows && CanBeDeleted(rows[id].status) && Expired(rows[id], scan) ==>
          Record(id, rows[id]) in found)
  }

  ghost predicate ListsBackups(found: seq<Record>, rows: map<string, Row>) {
    && Lists(found, rows, {Completed})
    && (forall i :: 0 <= i < |found| ==> found[i].row.scheduled)
    && (forall i, j :: 0 <= i < j < |found| ==> FinishedAt(found[j].row) <= FinishedAt(found[i].row))
    && (|found| < 1000 ==> forall id :: HoldsBackup(rows, id) ==> Record(id, rows[id]) in found)
    && (forall id :: HoldsBackup(rows, id) ==> found != [] && FinishedAt(rows[id]) <= FinishedAt(found[0].row))
  }

  predicate Intermediate(s: Status) { s == Dumping || s == Uploading }

  ghost predicate NoIntermediate(rows: map<string, Row>) {
    forall id :: id in rows ==> !Intermediate(rows[id].status)
  }

  ghost predicate ListsDeleting(found: seq<Record>, rows: map<string, Row>) {
    && Lists(found, rows, {Deleting}) && |found| <= 20
    && (|found| < 20 ==> forall id :: id in rows && rows[id].status == Deleting ==> Record(id, rows[id]) in found)
  }

  method FindIntermediate(rows: map<string, Row>) returns (found: seq<Record>)
    ensures Lists(found, rows, {Dumping, Uploading})
    ensures forall id :: id in rows && Intermediate(rows[id].status) ==> Record(id, rows[id]) in found
  {
    var ids := set id | id in rows && Intermediate(rows[id].status);
    found := [];
    while ids != {}
      invariant forall id :: id in ids ==> id in rows && Intermediate(rows[id].status)
      invariant Lists(found, rows, {Dumping, Uploading})
      invariant forall i :: 0 <= i < |found| ==> found[i].id !in ids
      invariant forall id :: id in rows && Intermediate(rows[id].status) && id !in ids ==> Record(id, rows[id]) in found
      decreases |ids|
    {
      var id :| id in ids;
      found := found + [Record(id, rows[id])];
      ids := ids - {id};
    }
  }

  method FindDeleting(rows: map<string, Row>) returns (found: seq<Record>)
    ensures ListsDeleting(found, rows)
  {
    var ids := set id | id in rows && rows[id].status == Deleting;
    found := [];
    while ids != {} && |found| < 20
      invariant forall id :: id in ids ==> id in rows && rows[id].status == Deleting
      invariant Lists(found, rows, {Deleting}) && |found| <= 20
      invariant forall i :: 0 <= i < |found| ==> found[i].id !in ids
      invariant forall id :: id in rows && rows[id].status == Deleting && id !in ids ==> Record(id, rows[id]) in found
      decreases |ids|
    {
      var id :| id in ids;
      found := found + [Record(id, rows[id])];
      ids := ids - {id};
    }
  }

  method FindExpired(rows: map<string, Row>, scan: int) returns (found: seq<Record>)
    ensures ListsExpired(found, rows, scan)
  {
    var ids := set id | id in rows && CanBeDeleted(rows[id].status) && Expired(rows[id], scan);
    found := [];
    while ids != {} && |found| < 10
      invariant forall id :: id in ids ==> id in rows && CanBeDeleted(rows[id].status) && Expired(rows[id], scan)
      invariant Lists(found, rows, {Completed, Failed}) && |found| <= 10
      invariant forall i :: 0 <= i < |found| ==> found[i].id !in ids && Expired(found[i].row, scan)
      invariant forall id :: id in rows && CanBeDeleted(rows[id].status) && Expired(rows[id], scan) && id !in ids ==>
        Record(id, rows[id]) in found
      decreases |ids|
    {
      var id :| id in ids;
      found := found + [Record(id, rows[id])];
      ids := ids - {id};
    }
  }

  /** The backups outside `ids` are listed newest first, and those of `ids` are no newer. */
  ghost predicate Newer(found: seq<Record>, rows: map<string, Row>, ids: set<string>) {
    && Lists(found, rows, {Completed})
    && (forall i :: 0 <= i < |found| ==> found[i].id !in ids && found[i].row.scheduled)
    && (forall id :: HoldsBackup(rows, id) && id !in ids ==> Record(id, rows[id]) in found)
    && (forall i, id :: 0 <= i < |found| && id in ids && id in rows ==>
          FinishedAt(rows[id]) <= FinishedAt(found[i].row))
    && (forall i, j :: 0 <= i < j < |found| ==> FinishedAt(found[j].row) <= FinishedAt(found[i].row))
  }

  lemma ListsOneMore(found: seq<Record>, rows: map<string, Row>, next: string)
    requires Lists(found, rows, {Completed}) && next in rows && rows[next].status == Completed
    requires forall i :: 0 <= i < |found| ==> found[i].id != next
    ensures Lists(found + [Record(next, rows[next])], rows, {Completed})
  {
  }

  lemma ListNext(found: seq<Record>, rows: map<string, Row>, ids: set<string>, next: string)
    requires Newer(found, rows, ids) && next in ids && HoldsBackup(rows, next)
    requires forall id :: id in ids && id in rows ==> FinishedAt(rows[id]) <= FinishedAt(rows[next])
    ensures Newer(found + [Record(next, rows[next])], rows, ids - {next})
  {
    var longer := found + [Record(next, rows[next])];
    ListsOneMore(found, rows, next);
    assert longer[|found|] == Record(next, rows[next]) && forall i :: 0 <= i < |found| ==> longer[i] == found[i];
    forall id | HoldsBackup(rows, id) && id !in ids - {next}
      ensures Record(id, rows[id]) in longer
    {
      assert id != next ==> Record(id, rows[id]) in found;
    }
  }

  lemma NewerLists(found: seq<Record>, rows: map<string, Row>, ids: set<string>)
    requires Newer(found, rows, ids) && (found == [] || |found| < 1000 ==> ids == {})
    ensures ListsBackups(found, rows)
  {
    forall id | HoldsBackup(rows, id)
      ensures found != [] && FinishedAt(rows[id]) <= FinishedAt(found[0].row)
    {
      if id !in ids {
        var i :| 0 <= i < |found| && found[i] == Record(id, rows[id]);
      }
    }
  }

  method NewestFirst(rows: map<string, Row>) returns (found: seq<Record>)
    ensures ListsBackups(found, rows)
  {
    var ids := set id | id in rows && HoldsBackup(rows, id);
    found := [];
    while ids != {} && |found| < 1000
      invariant (forall id :: id in ids ==> HoldsBackup(rows, id)) && Newer(found, rows, ids)
      decreases |ids|
    {
      var next := Newest(rows, ids);
      ListNext(found, rows, ids, next);
      found := found + [Record(next, rows[next])];
      ids := ids - {next};
    }
    NewerLists(found, rows, ids);
  }

  method Newest(rows: map<string, Row>, ids: set<string>) returns (newest: string)
    requires ids != {} && forall id :: id in ids ==> id in rows
    ensures newest in ids && forall id :: id in ids ==> FinishedAt(rows[id]) <= FinishedAt(rows[newest])
  {
    newest :| newest in ids;
    var rest := ids - {newest};
    while rest != {}
      invariant rest <= ids && newest in ids
      invariant forall id :: id in ids && id !in rest ==> FinishedAt(rows[id]) <= FinishedAt(rows[newest])
      decreases |rest|
    {
      var id :| id in rest;
      if FinishedAt(rows[newest]) < FinishedAt(rows[id]) {
        newest := id;
      }
      rest := rest - {id};
    }
  }

  /** No row that is still being worked on was touched. */
  ghost predicate ActiveKept(rows: map<string, Row>, rows': map<string, Row>) {
    forall id :: id in rows && !CanBeDeleted(rows[id].status) && rows[id].status != Deleting ==>
      id in rows' && rows'[id] == rows[id]
  }

  predicate IsFinished(rows: map<string, Row>, id: string) {
    id in rows && CanBeDeleted(rows[id].status)
  }

  /** The completed and failed rows are the former ones except those of `ids`. */
  ghost predicate FinishedLose(rows: map<string, Row>, rows': map<string, Row>, ids: set<string>) {
    forall id :: (IsFinished(rows', id) <==> IsFinished(rows, id) && id !in ids)
              && (IsFinished(rows', id) ==> rows'[id] == rows[id])
  }

  lemma MovesKeepActive(rows: map<string, Row>, rows': map<string, Row>, calm: bool)
    requires Moves(rows, rows', {}, calm)
    ensures ActiveKept(rows, rows')
    ensures calm ==> FinishedLose(rows, rows', {})
    ensures NoIntermediate(rows) ==> NoIntermediate(rows')
  {
  }

  lemma BecomesDeleting(a: map<string, Row>, b: map<string, Row>, id: string, calm: bool)
    requires Moves(a, b, {}, calm) && id in b && CanBeDeleted(b[id].status)
    ensures var c := b[id := b[id].(status := Deleting)];
      Moves(a, c, {id}, calm) && ActiveKept(a, c) && (NoIntermediate(a) ==> NoIntermediate(c))
  {
  }

  lemma ActiveKeptComposes(a: map<string, Row>, b: map<string, Row>, c: map<string, Row>)
    requires ActiveKept(a, b) && ActiveKept(b, c)
    ensures ActiveKept(a, c)
  {
  }

  lemma FinishedLoseComposes(a: map<string, Row>, b: map<string, Row>, c: map<string, Row>, x: set<string>,
                            y: set<string>)
    requires FinishedLose(a, b, x) && FinishedLose(b, c, y)
    ensures FinishedLose(a, c, x + y)
  {
    forall id
      ensures IsFinished(c, id) <==> IsFinished(a, id) && id !in x + y
      ensures IsFinished(c, id) ==> c[id] == a[id]
    {
      assert IsFinished(b, id) <==> IsFinished(a, id) && id !in x;
    }
  }

  function Ids(records: seq<Record>): seq<string> {
    seq(|records|, i requires 0 <= i < |records| => records[i].id)
  }

  function Members(ids: seq<string>): set<string> { set id | id in ids }

  lemma MembersGrow(ids: seq<string>, i: nat)
    requires i < |ids|
    ensures Members(ids[..i]) + {ids[i]} == Members(ids[..i + 1])
  {
    assert ids[..i + 1] == ids[..i] + [ids[i]];
  }

  /** A row that was finished and is not any more is one backup less. */
  lemma LosesOnly(rows: map<string, Row>, rows': map<string, Row>, id: string, calm: bool)
    requires Moves(rows, rows', {id}, calm)
    requires calm ==> !(id in rows' && CanBeDeleted(rows'[id].status))
    ensures calm ==> FinishedLose(rows, rows', {id})
  {
  }

  /** Finishing the deletion of a deleting row touches nothing else. */
  lemma DeletionKeepsOthers(rows: map<string, Row>, rows': map<string, Row>, id: string, calm: bool)
    requires Moves(rows, rows', {id}, calm) && id in rows && rows[id].status == Deleting
    requires id in rows' ==> rows'[id] == rows[id]
    ensures ActiveKept(rows, rows') && (calm ==> FinishedLose(rows, rows', {}))
    ensures NoIntermediate(rows) ==> NoIntermediate(rows')
  {
  }

  /** Without interference the expired rows are the same ones. */
  lemma SameExpired(rows: map<string, Row>, rows': map<string, Row>, taken: seq<Record>, scan: int)
    requires Moves(rows, rows', {}, true) && ListsExpired(taken, rows', scan)
    ensures ListsExpired(taken, rows, scan)
  {
  }

  /** Some backup is left exactly if there was one, and then a newest one is left as it was. */
  ghost predicate NewestSurvives(rows: map<string, Row>, rows': map<string, Row>) {
    NewestUntakenSurvives(rows, rows', {})
  }

  /** The same for the backups outside `taken`. */
  ghost predicate NewestUntakenSurvives(rows: map<string, Row>, rows': map<string, Row>, taken: set<string>) {
    && (forall id :: HoldsBackup(rows', id) ==> HoldsBackup(rows, id) && id !in taken)
    && ((exists id :: HoldsBackup(rows, id) && id !in taken) ==>
          exists newest :: NewestLeft(rows, rows', taken, newest))
  }

  ghost predicate NewestLeft(rows: map<string, Row>, rows': map<string, Row>, taken: set<string>, newest: string) {
    && HoldsBackup(rows', newest) && HoldsBackup(rows, newest) && rows'[newest] == rows[newest]
    && forall id :: HoldsBackup(rows, id) && id !in taken ==> FinishedAt(rows[id]) <= FinishedAt(rows[newest])
  }

  lemma FirstSurvives(rows: map<string, Row>, rows': map<string, Row>, completed: seq<Record>, gone: set<string>)
    requires ListsBackups(completed, rows) && FinishedLose(rows, rows', gone)
    requires completed != [] ==> completed[0].id !in gone
    ensures NewestSurvives(rows, rows')
  {
    if id :| HoldsBackup(rows, id) {
      var first := completed[0].id;
      assert HoldsBackup(rows, first) && rows[first] == completed[0].row;
      assert NewestLeft(rows, rows', {}, first);
    }
  }

  lemma SurvivesSince(a: map<string, Row>, b: map<string, Row>, c: map<string, Row>)
    requires FinishedLose(a, b, {}) && NewestSurvives(b, c)
    ensures NewestSurvives(a, c)
  {
    UntakenSurvives(a, b, c, {});
  }

  lemma UntakenSurvives(a: map<string, Row>, b: map<string, Row>, c: map<string, Row>, taken: set<string>)
    requires FinishedLose(a, b, taken) && NewestSurvives(b, c)
    ensures NewestUntakenSurvives(a, c, taken)
  {
    if id :| HoldsBackup(a, id) && id !in taken {
      assert HoldsBackup(b, id);
      var newest :| NewestLeft(b, c, {}, newest);
      assert NewestLeft(a, c, taken, newest);
    }
  }

  function ToFinished(completed: seq<Record>): seq<BackupSchedule.Finished> {
    seq(|completed|, i requires 0 <= i < |completed| =>
      BackupSchedule.Finished(completed[i].id, true, completed[i].row.completedAt))
  }

  function FirstTen(decisions: seq<BackupSchedule.Decision>): seq<string> {
    var count := Min(|decisions|, 10);
    seq(count, i requires 0 <= i < count => decisions[i].recordId)
  }

  /** `ids` are the first ten records that are due among `completed`, newest first. */
  ghost predicate PickedFrom(completed: seq<Record>, ids: seq<string>, settings: Settings, now: int) {
    exists decisions, indices ::
      && BackupSchedule.Explains(settings.retentionDays, settings.retentionCount, now, ToFinished(completed),
                                 |completed|, decisions, indices)
      && ids == FirstTen(decisions)
  }

  /** The same for some listing of the completed scheduled rows. */
  ghost predicate PickedIn(rows: map<string, Row>, ids: seq<string>, settings: Settings, now: int) {
    exists completed :: ListsBackups(completed, rows) && PickedFrom(completed, ids, settings, now)
  }

  lemma NewestNotPicked(completed: seq<Record>, ids: seq<string>, settings: Settings, now: int)
    requires Distinct(completed) && completed != [] && PickedFrom(completed, ids, settings, now)
    ensures completed[0].id !in Members(ids)
  {
    var finished := ToFinished(completed);
    var decisions, indices :|
      && BackupSchedule.Explains(settings.retentionDays, settings.retentionCount, now, finished, |completed|, decisions,
                                 indices)
      && ids == FirstTen(decisions);
    forall i | 0 <= i < |ids|
      ensures ids[i] != completed[0].id
    {
      assert BackupSchedule.Due(settings.retentionDays, settings.retentionCount, now, finished, indices[i]);
      assert ids[i] == finished[indices[i]].id == completed[indices[i]].id;
      assert completed[0].id != completed[indices[i]].id;
    }
  }

  /** Without interference the listing is one of the same rows. */
  lemma SamePicked(rows: map<string, Row>, rows': map<string, Row>, completed: seq<Record>, ids: seq<string>,
                   settings: Settings, now: int)
    requires Moves(rows, rows', {}, true) && ListsBackups(completed, rows') && PickedFrom(completed, ids, settings, now)
    ensures PickedIn(rows, ids, settings, now)
  {
    assert ListsBackups(completed, rows) by {
      assert forall id :: HoldsBackup(rows, id) <==> HoldsBackup(rows', id);
      assert forall id :: HoldsBackup(rows, id) ==> rows[id] == rows'[id];
    }
  }

  /** The ids that `decide_retention` picks, cut off after ten. */
  method Decide(settings: Settings, now: int, completed: seq<Record>) returns (ids: seq<string>)
    ensures |ids| <= 10 && PickedFrom(completed, ids, settings, now)
  {
    var decisions := BackupSchedule.DecideRetention(settings.retentionDays, settings.retentionCount, now,
                                                    ToFinished(completed));
    ids := FirstTen(decisions);
  }

  lemma PickedGo(a: map<string, Row>, b: map<string, Row>, c: map<string, Row>, completed: seq<Record>,
                 picked: seq<string>, settings: Settings, now: int)
    requires Moves(a, b, {}, true) && ListsBackups(completed, b) && PickedFrom(completed, picked, settings, now)
    requires FinishedLose(b, c, Members(picked))
    ensures NewestSurvives(a, c) && PickedIn(a, picked, settings, now) && FinishedLose(a, c, Members(picked))
  {
    MovesKeepActive(a, b, true);
    if completed != [] {
      NewestNotPicked(completed, picked, settings, now);
    }
    FirstSurvives(b, c, completed, Members(picked));
    SurvivesSince(a, b, c);
    SamePicked(a, b, completed, picked, settings, now);
    FinishedLoseComposes(a, b, c, {}, Members(picked));
    assert {} + Members(picked) == Members(picked);
  }

  /**
   Of the finished rows exactly the expired ones taken and the picked ones go; the
   picked ones are those the rule picks once the taken ones are gone, and the newest
   backup that was not taken is left.
   */
  ghost predicate RetentionDone(rows: map<string, Row>, rows': map<string, Row>, taken: set<string>,
                                picked: seq<string>, settings: Settings, now: int)
  {
    && FinishedLose(rows, rows', taken + Members(picked)) && NewestUntakenSurvives(rows, rows', taken)
    && exists middle :: FinishedLose(rows, middle, taken) && PickedIn(middle, picked, settings, now)
  }

  lemma PickedAnyway(rows: map<string, Row>, picked: seq<string>, settings: Settings, now: int)
    requires PickedIn(rows, picked, settings.(configured := true), now)
    ensures PickedIn(rows, picked, settings, now)
  {
    var completed :| ListsBackups(completed, rows) && PickedFrom(completed, picked, settings.(configured := true), now);
    assert PickedFrom(completed, picked, settings, now);
  }

  lemma BatchDone(a: map<string, Row>, start: map<string, Row>, middle: map<string, Row>, c: map<string, Row>,
                  taken: set<string>, picked: seq<string>, settings: Settings, now: int)
    requires Moves(a, start, {}, true) && FinishedLose(start, middle, taken) && NewestSurvives(middle, c)
    requires FinishedLose(middle, c, Members(picked)) && PickedIn(middle, picked, settings.(configured := true), now)
    ensures RetentionDone(a, c, taken, picked, settings, now)
  {
    MovesKeepActive(a, start, true);
    FinishedLoseComposes(a, start, middle, {}, taken);
    assert {} + taken == taken;
    FinishedLoseComposes(a, middle, c, taken, Members(picked));
    UntakenSurvives(a, middle, c, taken);
    PickedAnyway(middle, picked, settings, now);
  }

  // ----- The task

  class BackupTask {
    const env: Environment

    constructor (env: Environment)
      ensures this.env == env
    {
      this.env := env;
    }

    /** The record is the row, and only the task can change it. */
    ghost predicate Owns(record: Record)
      reads env
    {
      Owned(env.rows, record)
    }

    ghost predicate Settled(id: string)
      reads env
    {
      SettledRow(env.rows, id)
    }

    ghost predicate Ended(id: string, status: Status)
      reads env
    {
      id in env.rows && env.rows[id].status == status
    }

    /** `fail_task`. */
    method FailTask(record: Record) returns (flow: Flow)
      requires env.Valid() && Owns(record)
      modifies env
      ensures env.Valid() && Moves(old(env.rows), env.rows, {record.id}, env.calm)
      ensures old(env.log) <= env.log && (old(env.known) ==> env.known)
      ensures env.calm ==> flow.Continue? && Ended(record.id, Failed)
      ensures env.calm ==> env.asked == FailAsks(old(env.asked))
    {
      var _ :- env.Transition(record.id, record.row.objectKey, record.row.status, Failed, None);
      var cleanup := env.CleanUp();
      return if cleanup.Died? then Dead else Continue;
    }

    /** Drops the remote object, whatever the store answers, and fails the record. */
    method Discard(record: Record) returns (flow: Flow)
      requires env.Valid() && Owns(record) && record.row.status == Uploading
      modifies env
      ensures env.Valid() && Moves(old(env.rows), env.rows, {record.id}, env.calm)
      ensures old(env.log) <= env.log && (old(env.known) ==> env.known)
      ensures env.calm ==> flow.Continue? && Ended(record.id, Failed)
      ensures env.calm ==> env.asked == DiscardAsks(old(env.asked))
    {
      var deleted := env.DeleteObject(record.id, record.row.objectKey);
      if deleted.Died? {
        return Dead;
      }
      flow := FailTask(record);
    }

    /** `upload_and_verify`. */
    method UploadAndVerify(record: Record, archive: Meta) returns (flow: Flow)
      requires env.Valid() && Owns(record) && record.row.status == Uploading
      requires ArtifactSeen(record.id, archive) in env.log
      modifies env
      ensures env.Valid() && Moves(old(env.rows), env.rows, {record.id}, env.calm)
      ensures old(env.log) <= env.log && (old(env.known) ==> env.known)
      ensures env.calm ==> flow.Continue? && Ended(record.id, UploadEnds(env.oracle, old(env.asked), archive))
      ensures env.calm ==> env.asked == UploadAsks(env.oracle, old(env.asked), archive)
    {
      var settings :- env.LoadSettings();
      if !settings.configured {
        return Continue;
      }
      flow := UploadThenVerify(record, archive);
    }

    method UploadThenVerify(record: Record, archive: Meta) returns (flow: Flow)
      requires env.Valid() && Owns(record) && record.row.status == Uploading
      requires ArtifactSeen(record.id, archive) in env.log
      modifies env
      ensures env.Valid() && Moves(old(env.rows), env.rows, {record.id}, env.calm)
      ensures old(env.log) <= env.log && (old(env.known) ==> env.known)
      ensures env.calm ==> flow.Continue? && Ended(record.id, UploadEnds(env.oracle, old(env.asked), archive))
      ensures env.calm ==> env.asked == UploadAsks(env.oracle, old(env.asked), archive)
    {
      var upload := env.Upload();
      ghost var before := env.rows;
      if upload.Died? {
        return Dead;
      }
      if upload.Bad? {
        flow := Discard(record);
      } else {
        flow := VerifyRemote(record, archive);
      }
      MovesCompose(old(env.rows), before, env.rows, record.id, env.calm);
    }

    /** The head and the verdict of `upload_and_verify`. */
    method VerifyRemote(record: Record, archive: Meta) returns (flow: Flow)
      requires env.Valid() && Owns(record) && record.row.status == Uploading
      requires ArtifactSeen(record.id, archive) in env.log
      modifies env
      ensures env.Valid() && Moves(old(env.rows), env.rows, {record.id}, env.calm)
      ensures old(env.log) <= env.log && (old(env.known) ==> env.known)
      ensures env.calm ==> flow.Continue?
      ensures env.calm ==>
        Ended(record.id, if env.oracle.heads(old(env.asked).heads) == Some(archive) then Completed else Failed)
      ensures env.calm ==> env.asked == VerifyAsks(env.oracle, old(env.asked), archive)
    {
      var remote := env.Head(record.row.objectKey);
      ghost var before := env.rows;
      if remote.Died? {
        return Dead;
      }
      flow := Judge(record, archive, remote);
      MovesCompose(old(env.rows), before, env.rows, record.id, env.calm);
    }

    /** The verdict on what the head answered. */
    method Judge(record: Record, archive: Meta, remote: Reply<Option<Meta>>) returns (flow: Flow)
      requires env.Valid() && Owns(record) && record.row.status == Uploading
      requires ArtifactSeen(record.id, archive) in env.log
      requires remote.Good? && remote.value.Some? ==>
        env.log != [] && env.log[|env.log| - 1] == HeadSeen(record.row.objectKey, remote.value.value)
      modifies env
      ensures env.Valid() && Moves(old(env.rows), env.rows, {record.id}, env.calm)
      ensures old(env.log) <= env.log && (old(env.known) ==> env.known)
      ensures env.calm ==> flow.Continue?
      ensures env.calm ==> Ended(record.id, if remote == Good(Some(archive)) then Completed else Failed)
      ensures env.calm && remote == Good(None) ==> env.asked == FailAsks(old(env.asked))
      ensures env.calm && remote == Good(Some(archive)) ==> env.asked == old(env.asked)
      ensures env.calm && remote.Good? && remote.value.Some? && remote.value.value != archive ==>
        env.asked == DiscardAsks(old(env.asked))
    {
      if remote == Good(None) {
        flow := FailTask(record);
      } else if remote.Good? && remote.value.value.size == archive.size && remote.value.value.sha256 == archive.sha256 {
        assert remote.value.value == archive;
        flow := Complete(record);
      } else {
        flow := Discard(record);
      }
    }

    /** `uploading -> completed`, for a record whose remote object matched its archive. */
    method Complete(record: Record) returns (flow: Flow)
      requires env.Valid() && Owns(record) && record.row.status == Uploading
      requires JustMatched(env.log, record.id, record.row.objectKey)
      modifies env
      ensures env.Valid() && Moves(old(env.rows), env.rows, {record.id}, env.calm)
      ensures old(env.log) <= env.log && (old(env.known) ==> env.known)
      ensures env.calm ==> flow.Continue? && Ended(record.id, Completed)
      ensures env.calm ==> env.asked == old(env.asked)
    {
      var _ :- env.Transition(record.id, record.row.objectKey, Uploading, Completed, None);
      return Continue;
    }

    /** `recover_dumping`. */
    method RecoverDumping(record: Record) returns (flow: Flow)
      requires env.Valid() && Owns(record) && record.row.status == Dumping
      modifies env
      ensures env.Valid() && Moves(old(env.rows), env.rows, {record.id}, env.calm)
      ensures old(env.log) <= env.log && (old(env.known) ==> env.known)
      ensures env.calm ==> flow.Continue? && Ended(record.id, StagedEnds(env.oracle, old(env.asked)))
    {
      var staged :- env.InspectStaging(record.id);
      if staged.None? {
        flow := CleanUpAndFail(record);
      } else {
        flow := UploadClaimed(record, staged.value);
      }
    }

    method CleanUpAndFail(record: Record) returns (flow: Flow)
      requires env.Valid() && Owns(record)
      modifies env
      ensures env.Valid() && Moves(old(env.rows), env.rows, {record.id}, env.calm)
      ensures old(env.log) <= env.log && (old(env.known) ==> env.known)
      ensures env.calm ==> flow.Continue? && Ended(record.id, Failed)
      ensures env.calm ==> env.asked == FailAsks(FailAsks(old(env.asked)))
    {
      var cleanup := env.CleanUp();
      if cleanup.Died? {
        return Dead;
      }
      flow := FailTask(record);
    }

    /** Persists size and hash with `dumping -> uploading`, then uploads. */
    method UploadClaimed(record: Record, archive: Meta) returns (flow: Flow)
      requires env.Valid() && Owns(record) && record.row.status == Dumping
      requires ArtifactSeen(record.id, archive) in env.log
      modifies env
      ensures env.Valid() && Moves(old(env.rows), env.rows, {record.id}, env.calm)
      ensures old(env.log) <= env.log && (old(env.known) ==> env.known)
      ensures env.calm ==> flow.Continue? && Ended(record.id, UploadEnds(env.oracle, old(env.asked), archive))
      ensures env.calm ==> env.asked == UploadAsks(env.oracle, old(env.asked), archive)
    {
      var uploading :- env.Transition(record.id, record.row.objectKey, Dumping, Uploading, Some(archive));
      if uploading.None? {
        return Continue;
      }
      flow := UploadAndVerify(uploading.value, archive);
    }

    /** `recover_uploading`. */
    method RecoverUploading(record: Record) returns (flow: Flow)
      requires env.Valid() && Owns(record) && record.row.status == Uploading
      modifies env
      ensures env.Valid() && Moves(old(env.rows), env.rows, {record.id}, env.calm)
      ensures old(env.log) <= env.log && (old(env.known) ==> env.known)
      ensures env.calm ==>
        flow.Continue? && Ended(record.id, ResumedEnds(env.oracle, old(env.asked), record.row.meta))
    {
      var settings :- env.LoadSettings();
      if !settings.configured {
        return Continue;
      }
      flow := ReconcileRemote(record);
    }

    method ReconcileRemote(record: Record) returns (flow: Flow)
      requires env.Valid() && Owns(record) && record.row.status == Uploading
      modifies env
      ensures env.Valid() && Moves(old(env.rows), env.rows, {record.id}, env.calm)
      ensures old(env.log) <= env.log && (old(env.known) ==> env.known)
      ensures env.calm ==>
        flow.Continue? && Ended(record.id, ResumedEnds(env.oracle, old(env.asked), record.row.meta))
    {
      var remote :- env.Head(record.row.objectKey);
      if remote.Some? && record.row.meta == Some(remote.value) {
        flow := Complete(record);
        return;
      }
      flow := RetryUpload(record);
    }

    /** `recover_uploading` without a matching remote object. */
    method RetryUpload(record: Record) returns (flow: Flow)
      requires env.Valid() && Owns(record) && record.row.status == Uploading
      modifies env
      ensures env.Valid() && Moves(old(env.rows), env.rows, {record.id}, env.calm)
      ensures old(env.log) <= env.log && (old(env.known) ==> env.known)
      ensures env.calm ==> flow.Continue? && Ended(record.id, StagedEnds(env.oracle, old(env.asked)))
    {
      var staged :- env.InspectStaging(record.id);
      ghost var before := env.rows;
      if staged.Some? {
        flow := UploadAndVerify(record, staged.value);
      } else {
        flow := FailTask(record);
      }
      MovesCompose(old(env.rows), before, env.rows, record.id, env.calm);
    }

    /**
     `recover_intermediate`. In a calm environment one pass settles every record
     that was dumping or uploading.
     */
    method RecoverIntermediate() returns (flow: Flow)
      requires env.Valid()
      modifies env
      ensures env.Valid() && old(env.log) <= env.log && (old(env.known) ==> env.known)
      ensures env.calm ==> flow.Continue? && NoIntermediate(env.rows)
      ensures env.calm ==>
        forall id :: id in old(env.rows) && Intermediate(old(env.rows)[id].status) ==> Settled(id)
    {
      var records :- env.ListIntermediate();
      flow := RecoverAll(records);
      assert env.calm ==> forall id :: id in old(env.rows) && Intermediate(old(env.rows)[id].status) ==>
        Record(id, old(env.rows)[id]) in records;
    }

    method RecoverAll(records: seq<Record>) returns (flow: Flow)
      requires env.Valid() && AllOwned(env.rows, records, 0) && Distinct(records) && StillListed(env.rows, records, 0)
      modifies env
      ensures env.Valid() && old(env.log) <= env.log && (old(env.known) ==> env.known)
      ensures env.calm ==> flow.Continue? && AllSettled(env.rows, records, |records|) && NoIntermediate(env.rows)
    {
      for i := 0 to |records|
        invariant env.Valid() && old(env.log) <= env.log && (old(env.known) ==> env.known)
        invariant AllOwned(env.rows, records, i)
        invariant env.calm ==> AllSettled(env.rows, records, i) && StillListed(env.rows, records, i)
      {
        ghost var before := env.rows;
        :- RecoverOne(records[i]);
        OthersUnaffected(before, env.rows, records, i, env.calm);
        if env.calm {
          OneLessListed(before, env.rows, records, i);
        }
      }
      return Continue;
    }

    method RecoverOne(record: Record) returns (flow: Flow)
      requires env.Valid() && Owns(record)
      modifies env
      ensures env.Valid() && Moves(old(env.rows), env.rows, {record.id}, env.calm)
      ensures old(env.log) <= env.log && (old(env.known) ==> env.known)
      ensures env.calm ==> flow.Continue? && Settled(record.id)
    {
      if record.row.status == Dumping {
        flow := RecoverDumping(record);
      } else {
        flow := RecoverUploading(record);
      }
    }

    /** `finalize_deletion`: the row goes only after the object went. */
    method FinalizeDeletion(record: Record) returns (flow: Flow)
      requires env.Valid() && record.id in env.rows && env.rows[record.id] == record.row
      requires record.row.status == Deleting
      modifies env
      ensures env.Valid() && Moves(old(env.rows), env.rows, {record.id}, env.calm)
      ensures old(env.log) <= env.log && (old(env.known) ==> env.known)
      ensures record.id in env.rows ==> env.rows[record.id] == record.row
      ensures env.calm ==> flow.Continue? && env.asked == old(env.asked).(deletes := old(env.asked).deletes + 1)
      ensures env.calm ==> (record.id in env.rows <==> !env.oracle.deletes(old(env.asked).deletes))
    {
      var settings :- env.LoadSettings();
      if !settings.configured {
        return Continue;
      }
      flow := DeleteObjectThenRow(record);
    }

    method DeleteObjectThenRow(record: Record) returns (flow: Flow)
      requires env.Valid() && record.id in env.rows && env.rows[record.id] == record.row
      requires record.row.status == Deleting
      modifies env
      ensures env.Valid() && Moves(old(env.rows), env.rows, {record.id}, env.calm)
      ensures old(env.log) <= env.log && (old(env.known) ==> env.known)
      ensures record.id in env.rows ==> env.rows[record.id] == record.row
      ensures env.calm ==> flow.Continue? && env.asked == old(env.asked).(deletes := old(env.asked).deletes + 1)
      ensures env.calm ==> (record.id in env.rows <==> !env.oracle.deletes(old(env.asked).deletes))
    {
      var deleted := env.DeleteObject(record.id, record.row.objectKey);
      if deleted.Died? {
        return Dead;
      }
      if deleted.Good? {
        var _ :- env.DeleteRow(record.id, record.row.objectKey);
      }
      return Continue;
    }

    /**
     `finish_pending_deletions`. In a calm environment a listed row goes exactly if its
     object delete succeeds, and the list is complete if it is shorter than twenty.
     */
    method FinishPendingDeletions() returns (flow: Flow, listed: seq<Record>)
      requires env.Valid()
      modifies env
      ensures env.Valid() && old(env.log) <= env.log && (old(env.known) ==> env.known)
      ensures env.calm && NoIntermediate(old(env.rows)) ==> NoIntermediate(env.rows)
      ensures env.calm ==> flow.Continue? && ListsDeleting(listed, old(env.rows))
      ensures env.calm ==> DeletedBy(env.rows, listed, |listed|, env.oracle, old(env.asked).deletes)
    {
      listed := [];
      var settings := env.LoadSettings();
      if !settings.Good? {
        return settings.PropagateFailure(), listed;
      }
      if !settings.value.configured {
        return Continue, listed;
      }
      var records := env.ListDeleting();
      if !records.Good? {
        return records.PropagateFailure(), listed;
      }
      listed := records.value;
      flow := DeleteAll(listed);
    }

    method DeleteAll(records: seq<Record>) returns (flow: Flow)
      requires env.Valid() && AllDeleting(env.rows, records, 0) && Distinct(records)
      modifies env
      ensures env.Valid() && old(env.log) <= env.log && (old(env.known) ==> env.known)
      ensures env.calm && NoIntermediate(old(env.rows)) ==> NoIntermediate(env.rows)
      ensures env.calm ==> flow.Continue?
      ensures env.calm ==> DeletedBy(env.rows, records, |records|, env.oracle, old(env.asked).deletes)
    {
      for i := 0 to |records|
        invariant env.Valid() && old(env.log) <= env.log && (old(env.known) ==> env.known)
        invariant AllDeleting(env.rows, records, i)
        invariant env.calm && NoIntermediate(old(env.rows)) ==> NoIntermediate(env.rows)
        invariant env.calm ==> env.asked.deletes == old(env.asked).deletes + i
        invariant env.calm ==> DeletedBy(env.rows, records, i, env.oracle, old(env.asked).deletes)
      {
        ghost var before := env.rows;
        :- DeleteObjectThenRow(records[i]);
        StillDeleting(before, env.rows, records, i, env.calm);
        if env.calm {
          OneMoreDeleted(before, env.rows, records, i, env.oracle, old(env.asked).deletes);
        }
      }
      return Continue;
    }

    /**
     `process_next_task`; a failing task is logged, not propagated. In a calm environment
     a queued row is claimed if there is one, and ends as the task does.
     */
    method ProcessNextTask() returns (flow: Flow, claimed: Option<Record>)
      requires env.Valid()
      modifies env
      ensures env.Valid() && old(env.log) <= env.log && (old(env.known) ==> env.known)
      ensures env.calm && NoIntermediate(old(env.rows)) ==> NoIntermediate(env.rows)
      ensures env.calm ==> flow.Continue?
      ensures env.calm && claimed.None? ==> forall id :: id in old(env.rows) ==> old(env.rows)[id].status != Queued
      ensures env.calm && claimed.Some? ==>
        Ended(claimed.value.id, TaskEnds(env.oracle, old(env.asked), env.settings.verified))
    {
      claimed := None;
      var reply, _ := env.ClaimNextQueued();
      if !reply.Good? {
        return reply.PropagateFailure(), None;
      }
      claimed := reply.value;
      if claimed.None? {
        return Continue, None;
      }
      var outcome := ExecuteTask(claimed.value);
      flow := if outcome.Dead? then Dead else Continue;
    }

    /** `execute_task`. */
    method ExecuteTask(record: Record) returns (flow: Flow)
      requires env.Valid() && Owns(record) && record.row.status == Dumping
      modifies env
      ensures env.Valid() && Moves(old(env.rows), env.rows, {record.id}, env.calm)
      ensures old(env.log) <= env.log && (old(env.known) ==> env.known)
      ensures env.calm ==>
        flow.Continue? && Ended(record.id, TaskEnds(env.oracle, old(env.asked), env.settings.verified))
    {
      var settings :- env.LoadSettings();
      if !settings.configured || !settings.verified {
        flow := FailTask(record);
        return;
      }
      flow := DumpAndUpload(record);
    }

    method DumpAndUpload(record: Record) returns (flow: Flow)
      requires env.Valid() && Owns(record) && record.row.status == Dumping
      modifies env
      ensures env.Valid() && Moves(old(env.rows), env.rows, {record.id}, env.calm)
      ensures old(env.log) <= env.log && (old(env.known) ==> env.known)
      ensures env.calm ==> flow.Continue? && Ended(record.id, TaskEnds(env.oracle, old(env.asked), true))
    {
      var dumped := env.Dump(record.id);
      if dumped.Died? {
        return Dead;
      }
      if dumped.Bad? {
        flow := FailTask(record);
        return;
      }
      flow := UploadAndCleanUp(record, dumped.value);
    }

    method UploadAndCleanUp(record: Record, archive: Meta) returns (flow: Flow)
      requires env.Valid() && Owns(record) && record.row.status == Dumping
      requires ArtifactSeen(record.id, archive) in env.log
      modifies env
      ensures env.Valid() && Moves(old(env.rows), env.rows, {record.id}, env.calm)
      ensures old(env.log) <= env.log && (old(env.known) ==> env.known)
      ensures env.calm ==> flow.Continue? && Ended(record.id, UploadEnds(env.oracle, old(env.asked), archive))
    {
      flow := UploadClaimed(record, archive);
      if flow.IsFailure() {
        return;
      }
      var cleanup := env.CleanUp();
      return if cleanup.Died? then Dead else Continue;
    }

    /** One retention deletion: only completed or failed rows enter it. */
    method DeleteIfFinished(id: string) returns (flow: Flow)
      requires env.Valid()
      modifies env
      ensures env.Valid() && old(env.log) <= env.log && (old(env.known) ==> env.known)
      ensures ActiveKept(old(env.rows), env.rows)
      ensures env.calm ==> flow.Continue? && FinishedLose(old(env.rows), env.rows, {id})
      ensures NoIntermediate(old(env.rows)) ==> NoIntermediate(env.rows)
    {
      var reply := env.TransitionToDeleting(id);
      ghost var before := env.rows;
      LosesOnly(old(env.rows), before, id, env.calm);
      var deleting :- reply;
      if deleting.None? {
        return Continue;
      }
      flow := FinalizeDeletion(deleting.value);
      DeletionKeepsOthers(before, env.rows, id, env.calm);
      ActiveKeptComposes(old(env.rows), before, env.rows);
      if env.calm {
        FinishedLoseComposes(old(env.rows), before, env.rows, {id}, {});
      }
    }

    method DeleteEach(ids: seq<string>) returns (flow: Flow)
      requires env.Valid()
      modifies env
      ensures env.Valid() && old(env.log) <= env.log && (old(env.known) ==> env.known)
      ensures ActiveKept(old(env.rows), env.rows)
      ensures env.calm ==> flow.Continue? && FinishedLose(old(env.rows), env.rows, Members(ids))
      ensures NoIntermediate(old(env.rows)) ==> NoIntermediate(env.rows)
    {
      for i := 0 to |ids|
        invariant env.Valid() && old(env.log) <= env.log && (old(env.known) ==> env.known)
        invariant ActiveKept(old(env.rows), env.rows)
        invariant env.calm ==> FinishedLose(old(env.rows), env.rows, Members(ids[..i]))
        invariant NoIntermediate(old(env.rows)) ==> NoIntermediate(env.rows)
      {
        ghost var before := env.rows;
        flow := DeleteIfFinished(ids[i]);
        ActiveKeptComposes(old(env.rows), before, env.rows);
        if env.calm {
          FinishedLoseComposes(old(env.rows), before, env.rows, Members(ids[..i]), {ids[i]});
          MembersGrow(ids, i);
        }
        if flow.IsFailure() {
          return;
        }
      }
      assert ids[..|ids|] == ids;
      return Continue;
    }

    /** The first half of `run_retention_batch`: expired records, manual or scheduled. */
    method DeleteExpired(scan: int) returns (flow: Flow, taken: seq<Record>)
      requires env.Valid()
      modifies env
      ensures env.Valid() && old(env.log) <= env.log && (old(env.known) ==> env.known)
      ensures ActiveKept(old(env.rows), env.rows)
      ensures env.calm ==> flow.Continue? && ListsExpired(taken, old(env.rows), scan)
      ensures env.calm ==> FinishedLose(old(env.rows), env.rows, Members(Ids(taken)))
      ensures NoIntermediate(old(env.rows)) ==> NoIntermediate(env.rows)
    {
      taken := [];
      var reply := env.ListExpired(scan);
      ghost var before := env.rows;
      MovesKeepActive(old(env.rows), before, env.calm);
      if !reply.Good? {
        return reply.PropagateFailure(), taken;
      }
      taken := reply.value;
      flow := DeleteEach(Ids(taken));
      ActiveKeptComposes(old(env.rows), before, env.rows);
      if env.calm {
        FinishedLoseComposes(old(env.rows), before, env.rows, {}, Members(Ids(taken)));
        assert {} + Members(Ids(taken)) == Members(Ids(taken));
        SameExpired(old(env.rows), before, taken, scan);
      }
    }

    /**
     The second half: the decided scheduled records, at most ten. The newest backup is
     never among them, and nothing else goes.
     */
    method DeleteDecided(settings: Settings, now: int) returns (flow: Flow, picked: seq<string>)
      requires env.Valid()
      modifies env
      ensures env.Valid() && old(env.log) <= env.log && (old(env.known) ==> env.known)
      ensures ActiveKept(old(env.rows), env.rows)
      ensures env.calm ==> flow.Continue? && NewestSurvives(old(env.rows), env.rows)
      ensures env.calm ==> |picked| <= 10 && PickedIn(old(env.rows), picked, settings, now)
      ensures env.calm ==> FinishedLose(old(env.rows), env.rows, Members(picked))
      ensures NoIntermediate(old(env.rows)) ==> NoIntermediate(env.rows)
    {
      picked := [];
      var reply := env.ListScheduledCompleted();
      ghost var before := env.rows;
      MovesKeepActive(old(env.rows), before, env.calm);
      if !reply.Good? {
        return reply.PropagateFailure(), picked;
      }
      picked := Decide(settings, now, reply.value);
      flow := DeleteEach(picked);
      ActiveKeptComposes(old(env.rows), before, env.rows);
      if env.calm {
        PickedGo(old(env.rows), before, env.rows, reply.value, picked, settings, now);
      }
    }

    /**
     `run_retention_batch`: the expired records, then the decided scheduled ones, ten
     each, and no other finished record goes. No row that is still being worked on is
     touched. Without interference the newest completed scheduled backup that the expiry
     did not take survives, so one is left if and only if the expiry did not take them all.
     */
    method RunRetentionBatch(now: int, scan: int) returns (flow: Flow, taken: seq<Record>, picked: seq<string>)
      requires env.Valid()
      modifies env
      ensures env.Valid() && old(env.log) <= env.log && (old(env.known) ==> env.known)
      ensures ActiveKept(old(env.rows), env.rows)
      ensures env.calm ==> flow.Continue? && ListsExpired(taken, old(env.rows), scan)
      ensures env.calm ==> RetentionDone(old(env.rows), env.rows, Members(Ids(taken)), picked, env.settings, now)
      ensures NoIntermediate(old(env.rows)) ==> NoIntermediate(env.rows)
    {
      taken, picked := [], [];
      var loaded := env.LoadSettings();
      ghost var start := env.rows;
      MovesKeepActive(old(env.rows), start, env.calm);
      if !loaded.Good? {
        return loaded.PropagateFailure(), taken, picked;
      }
      flow, taken := DeleteExpired(scan);
      ghost var middle := env.rows;
      ActiveKeptComposes(old(env.rows), start, middle);
      if flow.IsFailure() {
        return;
      }
      flow, picked := DeleteDecided(loaded.value, now);
      ActiveKeptComposes(old(env.rows), middle, env.rows);
      if env.calm {
        SameExpired(old(env.rows), start, taken, scan);
        BatchDone(old(env.rows), start, middle, env.rows, Members(Ids(taken)), picked, env.settings, now);
      }
    }

    /** `run_cycle`. After a calm cycle that was not cut short no row is left dumping or uploading. */
    method RunCycle(now: int) returns (flow: Flow)
      requires env.Valid()
      modifies env
      ensures env.Valid() && old(env.log) <= env.log && (old(env.known) ==> env.known)
      ensures env.calm && flow.Continue? ==> NoIntermediate(env.rows)
    {
      var _ :- env.AdvanceSchedule();
      :- RecoverIntermediate();
      var finished, _ := FinishPendingDeletions();
      if finished.IsFailure() {
        return finished;
      }
      var processed, _ := ProcessNextTask();
      if processed.IsFailure() {
        return processed;
      }
      var scan: int := *;
      var retained, _, _ := RunRetentionBatch(now, scan);
      return retained;
    }

    /**
     The daemon over any number of lives: whatever fails or dies, the next cycle
     starts from the rows left behind. The log laws hold at every point.
     */
    method RunDaemon(clock: seq<int>)
      requires env.Valid()
      modifies env
      ensures env.Valid() && History(env.log, env.rows) && old(env.log) <= env.log
      ensures Stored(old(env.rows), env.tracked) && !Stored(env.rows, env.tracked) ==>
        exists n: nat ::
          n < |env.log| && env.log[n] == RowDeleted(env.tracked.id, env.tracked.key) && RemovedLast(env.log, n)
    {
      for i := 0 to |clock|
        invariant env.Valid() && old(env.log) <= env.log && (old(env.known) ==> env.known)
      {
        var _ := RunCycle(clock[i]);
      }
      LawsGiveHistory(env.log, env.rows);
      if Stored(old(env.rows), env.tracked) && !Stored(env.rows, env.tracked) {
        var n: nat :| n < |env.log| && env.log[n] == RowDeleted(env.tracked.id, env.tracked.key);
        assert RemovedLast(env.log, n);
      }
    }
  }
}
