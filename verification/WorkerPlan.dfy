/**
 Worker definitions of gateway-core/src/task.rs and the plan that
 gateway-host/src/workers.rs builds from them. Durations are nanoseconds.
 */
module WorkerPlan {
  import opened Common

  datatype WorkerKind =
    | OAuthRefresh
    | QuotaCatalogHealth
    | RuntimeSnapshotReconciliation
    | RuntimeChangeSubscription
    | StaleModelRequestRecovery
    | Retention
    | OpsFlush
    | Backup
    | AccountImport
    | AccountFreezeRecovery

  const ALL_KINDS: seq<WorkerKind> := [
    OAuthRefresh, QuotaCatalogHealth, RuntimeSnapshotReconciliation, RuntimeChangeSubscription,
    StaleModelRequestRecovery, Retention, OpsFlush, Backup, AccountImport, AccountFreezeRecovery]

  datatype WorkerId = WorkerId(kind: WorkerKind, owner: string)

  datatype WorkerSchedule = WorkerSchedule(
    interval: nat, initialBackoff: nat, maximumBackoff: nat, leaseTtl: nat, renewalInterval: nat)

  /** What `WorkerSchedule::try_new` accepts. */
  predicate ValidSchedule(s: WorkerSchedule) {
    && s.interval > 0 && s.initialBackoff > 0 && s.maximumBackoff > 0 && s.leaseTtl > 0 && s.renewalInterval > 0
    && s.initialBackoff <= s.maximumBackoff && s.renewalInterval < s.leaseTtl
  }

  datatype RestartPolicy = RestartPolicy(initialBackoff: nat, maximumBackoff: nat)

  /** What `DaemonRestartPolicy::try_new` accepts. */
  predicate ValidRestart(r: RestartPolicy) {
    0 < r.initialBackoff <= r.maximumBackoff
  }

  datatype LeaseRequest = LeaseRequest(worker: WorkerId, ttl: nat)

  /** `task` identifies the opaque task object. */
  datatype Runnable =
    | Scheduled(schedule: WorkerSchedule, lease: Option<LeaseRequest>, task: nat)
    | Daemon(restart: RestartPolicy, task: nat)

  datatype Registration = Registration(id: WorkerId, runnable: Runnable)

  datatype DisabledReason = NoBufferedOpsEvents

  function ReasonKind(r: DisabledReason): WorkerKind { OpsFlush }

  datatype Contribution = Register(registration: Registration) | Disable(kind: WorkerKind, reason: DisabledReason)

  datatype DefinitionError = LeaseWorkerMismatch | LeaseTtlMismatch | DisabledReasonMismatch

  datatype StartError =
    | InvalidDefinition(error: DefinitionError)
    | Duplicate(id: WorkerId)
    | KindDisabled(kind: WorkerKind)
    | KindHasTasks(kind: WorkerKind)
    | DuplicateDisabled(kind: WorkerKind)
    | Missing(kinds: seq<WorkerKind>)

  datatype Plan = Plan(registrations: map<WorkerId, Registration>, disabled: map<WorkerKind, DisabledReason>)

  /** `WorkerContribution::validate`. */
  function Validate(c: Contribution): Option<DefinitionError> {
    match c
    case Register(r) =>
      if r.runnable.Scheduled? && r.runnable.lease.Some? then
        if r.runnable.lease.value.worker != r.id then Some(LeaseWorkerMismatch)
        else if r.runnable.lease.value.ttl != r.runnable.schedule.leaseTtl then Some(LeaseTtlMismatch)
        else None
      else None
    case Disable(kind, reason) => if kind == ReasonKind(reason) then None else Some(DisabledReasonMismatch)
  }

  /** The error of an entry by itself: a lease must be for the worker and last its TTL, a reason must fit the kind. */
  lemma ValidateIff(c: Contribution)
    ensures Validate(c) == Some(DisabledReasonMismatch) <==> c.Disable? && c.kind != OpsFlush
    ensures var leased := c.Register? && c.registration.runnable.Scheduled? && c.registration.runnable.lease.Some?;
      && (Validate(c) == Some(LeaseWorkerMismatch) <==>
            leased && c.registration.runnable.lease.value.worker != c.registration.id)
      && (Validate(c) == Some(LeaseTtlMismatch) <==>
            leased && c.registration.runnable.lease.value.worker == c.registration.id
            && c.registration.runnable.lease.value.ttl != c.registration.runnable.schedule.leaseTtl)
  {
  }

  function KindOf(c: Contribution): WorkerKind {
    match c
    case Register(r) => r.id.kind
    case Disable(kind, _) => kind
  }

  // ----- What makes a list acceptable

  /** Two entries may stand in one plan: no shared id, no kind disabled twice, none both active and disabled. */
  predicate Compatible(a: Contribution, b: Contribution) {
    match (a, b)
    case (Register(x), Register(y)) => x.id != y.id
    case (_, _) => KindOf(a) != KindOf(b)
  }

  ghost predicate PairwiseCompatible(plan: seq<Contribution>) {
    forall i, j :: 0 <= i < j < |plan| ==> Compatible(plan[i], plan[j])
  }

  ghost predicate AllValid(plan: seq<Contribution>) {
    forall i :: 0 <= i < |plan| ==> Validate(plan[i]).None?
  }

  ghost predicate Covers(plan: seq<Contribution>, kind: WorkerKind) {
    exists i :: 0 <= i < |plan| && KindOf(plan[i]) == kind
  }

  ghost predicate Acceptable(plan: seq<Contribution>) {
    AllValid(plan) && PairwiseCompatible(plan) && forall kind :: Covers(plan, kind)
  }

  /** `p` holds exactly the entries of the list. */
  ghost predicate Describes(p: Plan, plan: seq<Contribution>) {
    && (forall id :: id in p.registrations ==> p.registrations[id].id == id && Register(p.registrations[id]) in plan)
    && (forall kind :: kind in p.disabled ==> Disable(kind, p.disabled[kind]) in plan)
    && (forall c :: c in plan && c.Register? ==> c.registration.id in p.registrations)
    && (forall c :: c in plan && c.Disable? ==> c.kind in p.disabled)
  }

  lemma AllKindsListed(kind: WorkerKind)
    ensures kind in ALL_KINDS
  {
    match kind
    case OAuthRefresh => assert ALL_KINDS[0] == kind;
    case QuotaCatalogHealth => assert ALL_KINDS[1] == kind;
    case RuntimeSnapshotReconciliation => assert ALL_KINDS[2] == kind;
    case RuntimeChangeSubscription => assert ALL_KINDS[3] == kind;
    case StaleModelRequestRecovery => assert ALL_KINDS[4] == kind;
    case Retention => assert ALL_KINDS[5] == kind;
    case OpsFlush => assert ALL_KINDS[6] == kind;
    case Backup => assert ALL_KINDS[7] == kind;
    case AccountImport => assert ALL_KINDS[8] == kind;
    case AccountFreezeRecovery => assert ALL_KINDS[9] == kind;
  }

  /** Whether the entry clashes with the maps built so far, and how. */
  function Clash(p: Plan, c: Contribution): Option<StartError> {
    match c
    case Register(r) =>
      if r.id.kind in p.disabled then Some(KindDisabled(r.id.kind))
      else if r.id in p.registrations then Some(Duplicate(r.id)) else None
    case Disable(kind, _) =>
      if exists id :: id in p.registrations && id.kind == kind then Some(KindHasTasks(kind))
      else if kind in p.disabled then Some(DuplicateDisabled(kind)) else None
  }

  /** The error an entry earns after `before`: a bad definition first, then the kind, then the id. */
  ghost function WhyRejected(before: seq<Contribution>, c: Contribution): StartError {
    match (Validate(c), c)
    case (Some(e), _) => InvalidDefinition(e)
    case (None, Register(r)) =>
      if exists d :: d in before && d.Disable? && d.kind == r.id.kind then KindDisabled(r.id.kind) else Duplicate(r.id)
    case (None, Disable(kind, _)) =>
      if exists d :: d in before && d.Register? && d.registration.id.kind == kind then KindHasTasks(kind)
      else DuplicateDisabled(kind)
  }

  lemma ClashIffIncompatible(p: Plan, before: seq<Contribution>, c: Contribution)
    requires Describes(p, before)
    ensures Clash(p, c).Some? <==> exists i :: 0 <= i < |before| && !Compatible(before[i], c)
  {
    if i :| 0 <= i < |before| && !Compatible(before[i], c) {
      assert before[i] in before;
    }
    match c
    case Register(r) =>
      if r.id.kind in p.disabled {
        var i :| 0 <= i < |before| && before[i] == Disable(r.id.kind, p.disabled[r.id.kind]);
        assert !Compatible(before[i], c);
      } else if r.id in p.registrations {
        var i :| 0 <= i < |before| && before[i] == Register(p.registrations[r.id]);
        assert !Compatible(before[i], c);
      }
    case Disable(kind, _) =>
      if id :| id in p.registrations && id.kind == kind {
        var i :| 0 <= i < |before| && before[i] == Register(p.registrations[id]);
        assert !Compatible(before[i], c);
      } else if kind in p.disabled {
        var i :| 0 <= i < |before| && before[i] == Disable(kind, p.disabled[kind]);
        assert !Compatible(before[i], c);
      }
  }

  lemma ClashIsTheReason(p: Plan, before: seq<Contribution>, c: Contribution)
    requires Describes(p, before) && Validate(c).None? && Clash(p, c).Some?
    ensures Clash(p, c).value == WhyRejected(before, c)
  {
    match c
    case Register(r) =>
      if r.id.kind in p.disabled {
        assert Disable(r.id.kind, p.disabled[r.id.kind]) in before;
      }
    case Disable(kind, _) =>
      if id :| id in p.registrations && id.kind == kind {
        assert Register(p.registrations[id]) in before;
      }
  }

  /** `i` is the first entry that breaks a rule. */
  ghost predicate FirstBad(plan: seq<Contribution>, i: nat)
    requires i < |plan|
  {
    && AllValid(plan[..i]) && PairwiseCompatible(plan[..i])
    && !(AllValid(plan[..i + 1]) && PairwiseCompatible(plan[..i + 1]))
  }

  function Add(p: Plan, c: Contribution): Plan {
    match c
    case Register(r) => p.(registrations := p.registrations[r.id := r])
    case Disable(kind, reason) => p.(disabled := p.disabled[kind := reason])
  }

  lemma AddDescribes(p: Plan, before: seq<Contribution>, c: Contribution)
    requires Describes(p, before) && Clash(p, c).None?
    ensures Describes(Add(p, c), before + [c])
  {
    var after := before + [c];
    assert c in after;
    assert forall d :: d in before ==> d in after;
    assert forall d :: d in after ==> d in before || d == c;
  }

  predicate HasKind(p: Plan, kind: WorkerKind) {
    kind in p.disabled || exists id :: id in p.registrations && id.kind == kind
  }

  lemma HasKindIffCovered(p: Plan, plan: seq<Contribution>, kind: WorkerKind)
    requires Describes(p, plan)
    ensures HasKind(p, kind) <==> Covers(plan, kind)
  {
    if i :| 0 <= i < |plan| && KindOf(plan[i]) == kind {
      assert plan[i] in plan;
    }
    if kind in p.disabled {
      var i :| 0 <= i < |plan| && plan[i] == Disable(kind, p.disabled[kind]);
    } else if id :| id in p.registrations && id.kind == kind {
      var i :| 0 <= i < |plan| && plan[i] == Register(p.registrations[id]);
    }
  }

  lemma PrefixStep(plan: seq<Contribution>, i: nat)
    requires i < |plan| && AllValid(plan[..i]) && PairwiseCompatible(plan[..i])
    ensures AllValid(plan[..i + 1]) && PairwiseCompatible(plan[..i + 1]) <==>
      && Validate(plan[i]).None?
      && forall j :: 0 <= j < |plan[..i]| ==> Compatible(plan[..i][j], plan[i])
  {
    var before, after := plan[..i], plan[..i + 1];
    assert after[i] == plan[i] && forall j :: 0 <= j < i ==> before[j] == after[j];
  }

  lemma PrefixesDecide(plan: seq<Contribution>, i: nat)
    requires i <= |plan| && AllValid(plan) && PairwiseCompatible(plan)
    ensures AllValid(plan[..i]) && PairwiseCompatible(plan[..i])
  {
  }

  /** The loop of `WorkerPlan::try_from` over the contributions. */
  method Collect(plan: seq<Contribution>) returns (r: Result<Plan, StartError>)
    ensures r.Ok? <==> AllValid(plan) && PairwiseCompatible(plan)
    ensures r.Ok? ==> Describes(r.value, plan)
    ensures r.Err? ==> exists i :: 0 <= i < |plan| && FirstBad(plan, i) && r.error == WhyRejected(plan[..i], plan[i])
  {
    var p := Plan(map[], map[]);
    for i := 0 to |plan|
      invariant Describes(p, plan[..i]) && AllValid(plan[..i]) && PairwiseCompatible(plan[..i])
    {
      var c := plan[i];
      PrefixStep(plan, i);
      ClashIffIncompatible(p, plan[..i], c);
      var invalid, clash := Validate(c), Clash(p, c);
      if invalid.Some? || clash.Some? {
        if AllValid(plan) && PairwiseCompatible(plan) {
          PrefixesDecide(plan, i + 1);
        }
        if invalid.None? {
          ClashIsTheReason(p, plan[..i], c);
        }
        assert FirstBad(plan, i);
        return if invalid.Some? then Err(InvalidDefinition(invalid.value)) else Err(clash.value);
      }
      AddDescribes(p, plan[..i], c);
      assert plan[..i + 1] == plan[..i] + [c];
      p := Add(p, c);
    }
    assert plan[..|plan|] == plan;
    return Ok(p);
  }

  /** The kinds that a plan neither runs nor disables. */
  method MissingKinds(p: Plan) returns (missing: seq<WorkerKind>)
    ensures forall kind :: kind in missing <==> !HasKind(p, kind)
  {
    missing := [];
    for i := 0 to |ALL_KINDS|
      invariant forall kind :: kind in missing <==> kind in ALL_KINDS[..i] && !HasKind(p, kind)
    {
      assert ALL_KINDS[..i + 1] == ALL_KINDS[..i] + [ALL_KINDS[i]];
      if !HasKind(p, ALL_KINDS[i]) {
        missing := missing + [ALL_KINDS[i]];
      }
    }
    forall kind
      ensures kind in ALL_KINDS[..|ALL_KINDS|]
    {
      AllKindsListed(kind);
    }
  }

  /**
   `WorkerPlan::try_from`: succeeds exactly on acceptable lists, with the plan they
   describe. Otherwise the error is that of the first bad entry, or names exactly
   the kinds left uncovered.
   */
  method TryFrom(plan: seq<Contribution>) returns (r: Result<Plan, StartError>)
    ensures r.Ok? <==> Acceptable(plan)
    ensures r.Ok? ==> Describes(r.value, plan)
    ensures r.Err? && !(AllValid(plan) && PairwiseCompatible(plan)) ==>
      exists i :: 0 <= i < |plan| && FirstBad(plan, i) && r.error == WhyRejected(plan[..i], plan[i])
    ensures r.Err? && AllValid(plan) && PairwiseCompatible(plan) ==>
      r.error.Missing? && forall kind :: kind in r.error.kinds <==> !Covers(plan, kind)
  {
    r := Collect(plan);
    if r.Err? {
      return;
    }
    var missing := MissingKinds(r.value);
    forall kind
      ensures HasKind(r.value, kind) <==> Covers(plan, kind)
    {
      HasKindIffCovered(r.value, plan, kind);
    }
    if missing != [] {
      assert !Covers(plan, missing[0]);
      r := Err(Missing(missing));
    }
  }

  // ----- Order does not matter

  /** An entry that occurs twice clashes with itself. */
  lemma NeverCompatibleWithItself(c: Contribution)
    ensures !Compatible(c, c)
  {
  }

  lemma CompatibleIsSymmetric(a: Contribution, b: Contribution)
    ensures Compatible(a, b) == Compatible(b, a)
  {
  }

  lemma {:induction false} RepeatedIndices(s: seq<Contribution>, c: Contribution) returns (i: nat, j: nat)
    requires multiset(s)[c] >= 2
    ensures i < j < |s| && s[i] == s[j] == c
  {
    var front := s[..|s| - 1];
    assert s == front + [s[|s| - 1]];
    if multiset(front)[c] >= 2 {
      i, j := RepeatedIndices(front, c);
    } else {
      assert c in multiset(front) && s[|s| - 1] == c;
      assert c in front;
      i :| 0 <= i < |front| && front[i] == c;
      j := |s| - 1;
    }
  }

  lemma RepeatedMultiplicity(s: seq<Contribution>, i: nat, j: nat)
    requires i < j < |s| && s[i] == s[j]
    ensures multiset(s)[s[i]] >= 2
  {
    assert s == s[..j] + s[j..];
    assert s[i] in multiset(s[..j]) by { assert s[..j][i] == s[i]; }
    assert s[j] in multiset(s[j..]) by { assert s[j..][0] == s[j]; }
  }

  /** Pairwise compatibility, said of the bag of entries. */
  ghost predicate BagCompatible(m: multiset<Contribution>) {
    && (forall c :: m[c] <= 1)
    && (forall a, b :: a in m && b in m && a != b ==> Compatible(a, b))
  }

  lemma CompatibleIffBag(plan: seq<Contribution>)
    ensures PairwiseCompatible(plan) <==> BagCompatible(multiset(plan))
  {
    var m := multiset(plan);
    if PairwiseCompatible(plan) {
      forall c
        ensures m[c] <= 1
      {
        if m[c] >= 2 {
          var i, j := RepeatedIndices(plan, c);
          NeverCompatibleWithItself(c);
        }
      }
      forall a, b | a in m && b in m && a != b
        ensures Compatible(a, b)
      {
        var i :| 0 <= i < |plan| && plan[i] == a;
        var j :| 0 <= j < |plan| && plan[j] == b;
        CompatibleIsSymmetric(a, b);
      }
    }
    if BagCompatible(m) {
      forall i, j | 0 <= i < j < |plan|
        ensures Compatible(plan[i], plan[j])
      {
        assert plan[i] in m && plan[j] in m;
        if plan[i] == plan[j] {
          RepeatedMultiplicity(plan, i, j);
        }
      }
    }
  }

  lemma {:induction false} SameBagSameMembers(a: seq<Contribution>, b: seq<Contribution>)
    requires multiset(a) == multiset(b)
    ensures forall c :: c in a <==> c in b
  {
    forall c
      ensures c in a <==> c in b
    {
      assert c in a <==> c in multiset(a);
      assert c in b <==> c in multiset(b);
    }
  }

  lemma MembersDecide(a: seq<Contribution>, b: seq<Contribution>)
    requires forall c :: c in a <==> c in b
    ensures AllValid(a) ==> AllValid(b)
    ensures forall kind :: Covers(a, kind) ==> Covers(b, kind)
  {
    assert forall i :: 0 <= i < |b| ==> b[i] in a;
    forall kind | Covers(a, kind)
      ensures Covers(b, kind)
    {
      var i :| 0 <= i < |a| && KindOf(a[i]) == kind;
      assert a[i] in b;
      var j :| 0 <= j < |b| && b[j] == a[i];
    }
  }

  lemma UniquePlan(p: Plan, q: Plan, a: seq<Contribution>, b: seq<Contribution>)
    requires Describes(p, a) && Describes(q, b) && PairwiseCompatible(a)
    requires forall c :: c in a <==> c in b
    ensures p == q
  {
    forall id | id in p.registrations
      ensures id in q.registrations && q.registrations[id] == p.registrations[id]
    {
      OneEntryPerKey(a, Register(p.registrations[id]), Register(q.registrations[id]));
    }
    forall id | id in q.registrations
      ensures id in p.registrations
    {
      assert Register(q.registrations[id]) in b;
    }
    forall kind | kind in p.disabled
      ensures kind in q.disabled && q.disabled[kind] == p.disabled[kind]
    {
      assert Disable(kind, p.disabled[kind]) in b;
    }
    forall kind | kind in q.disabled
      ensures kind in p.disabled
    {
      assert Disable(kind, q.disabled[kind]) in b;
    }
    assert p.registrations == q.registrations && p.disabled == q.disabled;
  }

  lemma OneEntryPerKey(plan: seq<Contribution>, c: Contribution, d: Contribution)
    requires PairwiseCompatible(plan) && c in plan && d in plan && !Compatible(c, d)
    ensures c == d
  {
    var i :| 0 <= i < |plan| && plan[i] == c;
    var j :| 0 <= j < |plan| && plan[j] == d;
    CompatibleIsSymmetric(c, d);
  }

  /** Reordering a list changes neither its acceptance nor the plan it gives. */
  lemma PlanIgnoresOrder(a: seq<Contribution>, b: seq<Contribution>, p: Plan, q: Plan)
    requires multiset(a) == multiset(b)
    ensures Acceptable(a) <==> Acceptable(b)
    ensures Acceptable(a) && Describes(p, a) && Describes(q, b) ==> p == q
  {
    SameBagSameMembers(a, b);
    CompatibleIffBag(a);
    CompatibleIffBag(b);
    MembersDecide(a, b);
    MembersDecide(b, a);
    if Acceptable(a) && Describes(p, a) && Describes(q, b) {
      UniquePlan(p, q, a, b);
    }
  }
}
