/**
 The bounded priority wait queue of gateway-core/src/concurrency.rs.

 The mutex-guarded map of deques is a class whose critical sections are its
 methods. Each method is specified by a function on `World`, and the laws of
 every run of enqueues and ticket drops are proved about those functions.

 A waker `Arc` is identified by a number that grows with each allocation, so
 number order is arrival order. `f64::total_cmp` compares scores as 64-bit
 integers, so a score is an integer here.
 */
module WaitQueue {
  import opened Common

  const MAX_TOTAL_WAITING := 1024

  datatype Priority = Normal | High

  datatype Waiter = Waiter(id: nat, priority: Priority)

  datatype Rejection = Full | Timeout

  datatype Ticket<K> = Ticket(key: K, id: nat, deadline: int)

  datatype QueueState<K> = QueueState(queues: map<K, seq<Waiter>>, total: nat)

  type Score<!K> = (K, nat) -> int

  // ----- One queue

  /** Where a waiter goes: last, or for High just before the first Normal. */
  function InsertPosition(q: seq<Waiter>, p: Priority): (i: nat)
    ensures i <= |q|
    ensures p == Normal ==> i == |q|
    ensures p == High ==> forall j :: 0 <= j < i ==> q[j].priority == High
    ensures p == High && i < |q| ==> q[i].priority == Normal
  {
    if p == Normal then |q|
    else if q == [] || q[0].priority == Normal then 0
    else 1 + InsertPosition(q[1..], p)
  }

  function Inserted(q: seq<Waiter>, w: Waiter): seq<Waiter> {
    var i := InsertPosition(q, w.priority);
    q[..i] + [w] + q[i..]
  }

  function IndexOf(q: seq<Waiter>, id: nat): (r: Option<nat>)
    ensures r.Some? ==> r.value < |q| && q[r.value].id == id
    ensures r.Some? ==> forall j :: 0 <= j < r.value ==> q[j].id != id
    ensures r.None? ==> forall j :: 0 <= j < |q| ==> q[j].id != id
  {
    if q == [] then None
    else if q[0].id == id then Some(0)
    else match IndexOf(q[1..], id)
      case None => None
      case Some(i) =>
        assert q[1..][i] == q[i + 1];
        Some(i + 1)
  }

  function Removed(q: seq<Waiter>, i: nat): seq<Waiter>
    requires i < |q|
  {
    q[..i] + q[i + 1..]
  }

  /** High waiters first, arrival order within each class. */
  ghost predicate Ordered(q: seq<Waiter>) {
    forall i, j :: 0 <= i < j < |q| ==>
      && (q[i].priority == q[j].priority ==> q[i].id < q[j].id)
      && (q[i].priority == Normal ==> q[j].priority == Normal)
  }

  ghost predicate DistinctIds(q: seq<Waiter>) {
    forall i, j :: 0 <= i < j < |q| ==> q[i].id != q[j].id
  }

  function CountNormal(q: seq<Waiter>): (n: nat)
    ensures n <= |q|
  {
    if q == [] then 0
    else (if q[0].priority == Normal then 1 else 0) + CountNormal(q[1..])
  }

  // ----- The map of queues

  function QueueOf<K>(s: QueueState<K>, k: K): seq<Waiter> {
    if k in s.queues then s.queues[k] else []
  }

  ghost function SumLengths<K>(m: map<K, seq<Waiter>>): nat
    decreases |m|
  {
    if m == map[] then 0
    else
      var k :| k in m;
      |m[k]| + SumLengths(m - {k})
  }

  function Enqueued<K>(s: QueueState<K>, k: K, w: Waiter): QueueState<K> {
    QueueState(s.queues[k := Inserted(QueueOf(s, k), w)], s.total + 1)
  }

  /** What `Drop for WaitTicket` leaves behind; a vanished waiter is a no-op. */
  function Dropped<K>(s: QueueState<K>, k: K, id: nat): QueueState<K> {
    match IndexOf(QueueOf(s, k), id)
    case None => s
    case Some(i) =>
      var q := Removed(QueueOf(s, k), i);
      QueueState(
        if q == [] then s.queues - {k} else s.queues[k := q],
        if s.total > 0 then s.total - 1 else 0)
  }

  /** The waiter that `Drop` wakes after unlocking: the new front, if the front left. */
  function WakeTarget<K>(s: QueueState<K>, k: K, id: nat): Option<nat> {
    var q := QueueOf(s, k);
    if IndexOf(q, id) == Some(0) && |q| > 1 then Some(q[1].id) else None
  }

  // ----- Choosing a queue

  predicate Admitted<K>(s: QueueState<K>, k: K, maxWaiting: nat, p: Priority) {
    maxWaiting > 0 && (p == High || |QueueOf(s, k)| < maxWaiting)
  }

  /** Candidate `i` has room, no admitted score is greater than its own, and no earlier one is as great. */
  ghost predicate Best<K>(s: QueueState<K>, keys: seq<K>, maxWaiting: nat, p: Priority, score: Score<K>, i: nat) {
    && i < |keys| && Admitted(s, keys[i], maxWaiting, p)
    && forall j :: 0 <= j < |keys| && Admitted(s, keys[j], maxWaiting, p) ==>
         && score(keys[j], |QueueOf(s, keys[j])|) <= score(keys[i], |QueueOf(s, keys[i])|)
         && (j < i ==> score(keys[j], |QueueOf(s, keys[j])|) < score(keys[i], |QueueOf(s, keys[i])|))
  }

  /** The first candidate of greatest score among those with room. */
  function SelectKey<K>(s: QueueState<K>, keys: seq<K>, maxWaiting: nat, p: Priority, score: Score<K>): (r: Option<nat>)
    ensures r.None? <==> forall j :: 0 <= j < |keys| ==> !Admitted(s, keys[j], maxWaiting, p)
    ensures r.Some? ==> Best(s, keys, maxWaiting, p, score, r.value)
  {
    if keys == [] then None
    else
      var rest := SelectKey(s, keys[1..], maxWaiting, p, score);
      if !Admitted(s, keys[0], maxWaiting, p) then
        (match rest
         case None => None
         case Some(i) => Some(i + 1))
      else
        match rest
        case None => Some(0)
        case Some(i) =>
          assert keys[1..][i] == keys[i + 1];
          if score(keys[0], |QueueOf(s, keys[0])|) >= score(keys[i + 1], |QueueOf(s, keys[i + 1])|)
          then Some(0) else Some(i + 1)
  }

  /** The admission decision of `enqueue_ranked`, before anything is changed. */
  function Admission<K>(s: QueueState<K>, keys: seq<K>, maxWaiting: nat, now: int, deadline: int,
                        p: Priority, score: Score<K>): (r: Result<K, Rejection>)
    ensures r.Ok? ==> now < deadline && s.total < MAX_TOTAL_WAITING
    ensures r.Ok? ==> r.value in keys && Admitted(s, r.value, maxWaiting, p)
    ensures r.Ok? ==> exists i :: 0 <= i < |keys| && keys[i] == r.value && Best(s, keys, maxWaiting, p, score, i)
    ensures p == High && maxWaiting > 0 && keys != [] && now < deadline && s.total < MAX_TOTAL_WAITING ==> r.Ok?
    ensures r == Err(Timeout) <==> now >= deadline
    ensures r == Err(Full) <==> (
      && now < deadline
      && (s.total >= MAX_TOTAL_WAITING || forall j :: 0 <= j < |keys| ==> !Admitted(s, keys[j], maxWaiting, p)))
  {
    if now >= deadline then Err(Timeout)
    else if s.total >= MAX_TOTAL_WAITING then Err(Full)
    else match SelectKey(s, keys, maxWaiting, p, score)
      case None => Err(Full)
      case Some(i) => Ok(keys[i])
  }

  // ----- Runs of enqueues and drops

  /** The queues, the tickets alive (waker to key), and the next waker number. */
  datatype World<K> = World(state: QueueState<K>, live: map<nat, K>, nextId: nat)

  datatype Step<!K> =
    | Enqueue(keys: seq<K>, maxWaiting: nat, now: int, deadline: int, priority: Priority, score: Score<K>)
    | DropTicket(id: nat)

  function Start<K>(): World<K> { World(QueueState(map[], 0), map[], 0) }

  function Admit<K>(w: World<K>, k: K, p: Priority): World<K> {
    World(Enqueued(w.state, k, Waiter(w.nextId, p)), w.live[w.nextId := k], w.nextId + 1)
  }

  function Release<K>(w: World<K>, id: nat): World<K>
    requires id in w.live
  {
    World(Dropped(w.state, w.live[id], id), w.live - {id}, w.nextId)
  }

  function Apply<K>(w: World<K>, step: Step<K>): World<K> {
    match step
    case Enqueue(keys, maxWaiting, now, deadline, p, score) =>
      (match Admission(w.state, keys, maxWaiting, now, deadline, p, score)
       case Ok(k) => Admit(w, k, p)
       case Err(_) => w)
    case DropTicket(id) => if id in w.live then Release(w, id) else w
  }

  function Run<K>(steps: seq<Step<K>>): World<K> {
    if steps == [] then Start() else Apply(Run(steps[..|steps| - 1]), steps[|steps| - 1])
  }

  ghost predicate QueuesOk<K>(s: QueueState<K>) {
    && s.total == SumLengths(s.queues) <= MAX_TOTAL_WAITING
    && forall k :: k in s.queues ==> s.queues[k] != [] && Ordered(s.queues[k]) && DistinctIds(s.queues[k])
  }

  ghost predicate TicketsOk<K(!new)>(w: World<K>) {
    && (forall id :: id in w.live ==> id < w.nextId && IndexOf(QueueOf(w.state, w.live[id]), id).Some?)
    && (forall k, x :: k in w.state.queues && x in w.state.queues[k] ==> x.id in w.live && w.live[x.id] == k)
  }

  ghost predicate Inv<K(!new)>(w: World<K>) {
    QueuesOk(w.state) && TicketsOk(w)
  }

  // ----- Lemmas on one queue

  lemma InsertedOrdered(q: seq<Waiter>, w: Waiter)
    requires Ordered(q) && DistinctIds(q)
    requires forall i :: 0 <= i < |q| ==> q[i].id < w.id
    ensures Ordered(Inserted(q, w)) && DistinctIds(Inserted(q, w))
  {
    var p := InsertPosition(q, w.priority);
    var r := Inserted(q, w);
    forall i, j | 0 <= i < j < |r|
      ensures r[i].id != r[j].id
      ensures r[i].priority == r[j].priority ==> r[i].id < r[j].id
      ensures r[i].priority == Normal ==> r[j].priority == Normal
    {
      var i' := if i < p then i else i - 1;
      var j' := if j < p then j else j - 1;
      if i != p && j != p {
        assert r[i] == q[i'] && r[j] == q[j'];
      } else if w.priority == High && p < |q| && j > p {
        assert q[p].priority == Normal;
      }
    }
  }

  lemma RemovedOrdered(q: seq<Waiter>, i: nat)
    requires i < |q| && Ordered(q) && DistinctIds(q)
    ensures Ordered(Removed(q, i)) && DistinctIds(Removed(q, i))
  {
    var r := Removed(q, i);
    assert forall j :: 0 <= j < |r| ==> r[j] == q[if j < i then j else j + 1];
  }

  lemma HighBeforeNormal(q: seq<Waiter>, i: nat)
    requires Ordered(q) && i < |q| && q[i].priority == High
    ensures q[0].priority == High
  {
    assert i == 0 || (q[0].priority == Normal ==> q[i].priority == Normal);
  }

  lemma RemoveSpliced(a: seq<Waiter>, w: Waiter, b: seq<Waiter>)
    ensures Removed(a + [w] + b, |a|) == a + b
  {
    var r := a + [w] + b;
    assert r[..|a|] == a && r[|a| + 1..] == b;
  }

  lemma {:induction false} IndexOfSpliced(a: seq<Waiter>, w: Waiter, b: seq<Waiter>)
    requires forall i :: 0 <= i < |a| ==> a[i].id != w.id
    ensures IndexOf(a + [w] + b, w.id) == Some(|a|)
  {
    var r := a + [w] + b;
    assert forall j :: 0 <= j < |a| ==> r[j] == a[j];
    assert r[|a|] == w;
  }

  lemma SplitAt(q: seq<Waiter>, p: nat)
    requires p <= |q|
    ensures |q[..p]| == p && q[..p] + q[p..] == q
  {
  }

  lemma NotInFront(q: seq<Waiter>, p: nat, id: nat)
    requires p <= |q| && forall i :: 0 <= i < |q| ==> q[i].id != id
    ensures forall i :: 0 <= i < |q[..p]| ==> q[..p][i].id != id
  {
  }

  lemma RemoveUndoesSplice(q: seq<Waiter>, w: Waiter, p: nat, a: seq<Waiter>, b: seq<Waiter>)
    requires |a| == p && a + b == q && forall i :: 0 <= i < |a| ==> a[i].id != w.id
    ensures IndexOf(a + [w] + b, w.id) == Some(p) && Removed(a + [w] + b, p) == q
  {
    IndexOfSpliced(a, w, b);
    RemoveSpliced(a, w, b);
  }

  lemma RemoveUndoesInsert(q: seq<Waiter>, w: Waiter)
    requires forall i :: 0 <= i < |q| ==> q[i].id != w.id
    ensures IndexOf(Inserted(q, w), w.id) == Some(InsertPosition(q, w.priority))
    ensures Removed(Inserted(q, w), InsertPosition(q, w.priority)) == q
  {
    var p := InsertPosition(q, w.priority);
    SplitAt(q, p);
    NotInFront(q, p, w.id);
    RemoveUndoesSplice(q, w, p, q[..p], q[p..]);
  }

  lemma {:induction false} CountNormalConcat(a: seq<Waiter>, b: seq<Waiter>)
    ensures CountNormal(a + b) == CountNormal(a) + CountNormal(b)
  {
    if a == [] {
      assert a + b == b;
    } else {
      assert (a + b)[1..] == a[1..] + b;
      CountNormalConcat(a[1..], b);
    }
  }

  lemma CountNormalSpliced(a: seq<Waiter>, w: Waiter, b: seq<Waiter>)
    ensures CountNormal(a + [w] + b) == CountNormal(a + b) + if w.priority == Normal then 1 else 0
  {
    CountNormalConcat(a + [w], b);
    CountNormalConcat(a, [w]);
    CountNormalConcat(a, b);
  }

  lemma CountNormalInserted(q: seq<Waiter>, w: Waiter)
    ensures CountNormal(Inserted(q, w)) == CountNormal(q) + if w.priority == Normal then 1 else 0
  {
    var p := InsertPosition(q, w.priority);
    CountNormalSpliced(q[..p], w, q[p..]);
    assert q[..p] + q[p..] == q;
  }

  lemma {:induction false} CountNormalRemoved(q: seq<Waiter>, i: nat)
    requires i < |q|
    ensures CountNormal(Removed(q, i)) <= CountNormal(q)
  {
    var r := Removed(q, i);
    if i == 0 {
      assert r == q[1..];
    } else {
      assert r[0] == q[0] && r[1..] == Removed(q[1..], i - 1);
      CountNormalRemoved(q[1..], i - 1);
    }
  }

  // ----- Lemmas on the sum of lengths

  lemma {:induction false} SumLengthsWithout<K>(m: map<K, seq<Waiter>>, k: K)
    requires k in m
    ensures SumLengths(m) == |m[k]| + SumLengths(m - {k})
    decreases |m|
  {
    var j :| j in m && SumLengths(m) == |m[j]| + SumLengths(m - {j});
    if j != k {
      SumLengthsWithout(m - {j}, k);
      SumLengthsWithout(m - {k}, j);
      assert m - {j} - {k} == m - {k} - {j};
    }
  }

  lemma SumLengthsUpdate<K>(m: map<K, seq<Waiter>>, k: K, q: seq<Waiter>)
    ensures SumLengths(m[k := q]) == SumLengths(m - {k}) + |q|
  {
    SumLengthsWithout(m[k := q], k);
    assert m[k := q] - {k} == m - {k};
  }

  lemma SumLengthsSplit<K>(m: map<K, seq<Waiter>>, k: K)
    ensures SumLengths(m) == SumLengths(m - {k}) + if k in m then |m[k]| else 0
  {
    if k in m {
      SumLengthsWithout(m, k);
    } else {
      assert m - {k} == m;
    }
  }

  // ----- Every step keeps the invariant

  lemma InsertedMembers(q: seq<Waiter>, w: Waiter)
    ensures forall x :: x in Inserted(q, w) <==> x == w || x in q
  {
    var p := InsertPosition(q, w.priority);
    assert q == q[..p] + q[p..];
  }

  lemma RemovedMembers(q: seq<Waiter>, i: nat)
    requires i < |q| && DistinctIds(q)
    ensures forall x :: x in Removed(q, i) <==> x in q && x.id != q[i].id
  {
    var r := Removed(q, i);
    forall x
      ensures x in r <==> x in q && x.id != q[i].id
    {
      if x in r {
        var j :| 0 <= j < |r| && r[j] == x;
        assert x == q[if j < i then j else j + 1];
      }
      if x in q && x.id != q[i].id {
        var j :| 0 <= j < |q| && q[j] == x;
        assert x == r[if j < i then j else j - 1];
      }
    }
  }

  lemma HasId(q: seq<Waiter>, id: nat)
    ensures IndexOf(q, id).Some? <==> exists x :: x in q && x.id == id
  {
    if IndexOf(q, id).Some? {
      assert q[IndexOf(q, id).value] in q;
    }
  }

  lemma EnqueuedQueuesOk<K(!new)>(s: QueueState<K>, k: K, x: Waiter)
    requires QueuesOk(s) && s.total < MAX_TOTAL_WAITING
    requires forall y :: y in QueueOf(s, k) ==> y.id < x.id
    ensures QueuesOk(Enqueued(s, k, x))
  {
    var q := QueueOf(s, k);
    SumLengthsUpdate(s.queues, k, Inserted(q, x));
    SumLengthsSplit(s.queues, k);
    assert forall i :: 0 <= i < |q| ==> q[i] in q;
    InsertedOrdered(q, x);
  }

  lemma DroppedQueuesOk<K(!new)>(s: QueueState<K>, k: K, id: nat)
    requires QueuesOk(s) && IndexOf(QueueOf(s, k), id).Some?
    ensures QueuesOk(Dropped(s, k, id))
  {
    var q := QueueOf(s, k);
    var i := IndexOf(q, id).value;
    SumLengthsSplit(s.queues, k);
    SumLengthsUpdate(s.queues, k, Removed(q, i));
    RemovedOrdered(q, i);
  }

  lemma AdmitKeepsInv<K(!new)>(w: World<K>, k: K, p: Priority)
    requires Inv(w) && w.state.total < MAX_TOTAL_WAITING
    ensures Inv(Admit(w, k, p))
  {
    var x := Waiter(w.nextId, p);
    var q := QueueOf(w.state, k);
    EnqueuedQueuesOk(w.state, k, x);
    InsertedMembers(q, x);
    var w' := Admit(w, k, p);
    forall id | id in w'.live
      ensures IndexOf(QueueOf(w'.state, w'.live[id]), id).Some?
    {
      if w'.live[id] == k {
        HasId(q, id);
        assert id == w.nextId ==> x in Inserted(q, x);
        HasId(Inserted(q, x), id);
      }
    }
  }

  /** Every other live ticket keeps its waiter. */
  lemma ReleaseKeepsLive<K(!new)>(w: World<K>, id: nat, other: nat)
    requires TicketsOk(w) && id in w.live && other in w.live && other != id
    requires DistinctIds(QueueOf(w.state, w.live[id]))
    ensures IndexOf(QueueOf(Release(w, id).state, w.live[other]), other).Some?
  {
    var k := w.live[id];
    var q := QueueOf(w.state, k);
    var i := IndexOf(q, id).value;
    assert QueueOf(Release(w, id).state, k) == Removed(q, i);
    if w.live[other] == k {
      RemovedMembers(q, i);
      HasId(q, other);
      HasId(Removed(q, i), other);
    }
  }

  /** Every waiter still queued has its live ticket. */
  lemma ReleaseKeepsQueued<K(!new)>(w: World<K>, id: nat, k: K, x: Waiter)
    requires TicketsOk(w) && id in w.live && DistinctIds(QueueOf(w.state, w.live[id]))
    requires k in Release(w, id).state.queues && x in Release(w, id).state.queues[k]
    ensures x.id in Release(w, id).live && Release(w, id).live[x.id] == k
  {
    var q := QueueOf(w.state, w.live[id]);
    var i := IndexOf(q, id).value;
    RemovedMembers(q, i);
  }

  lemma ReleaseKeepsTickets<K(!new)>(w: World<K>, id: nat)
    requires TicketsOk(w) && id in w.live && DistinctIds(QueueOf(w.state, w.live[id]))
    ensures TicketsOk(Release(w, id))
  {
    var w' := Release(w, id);
    forall other | other in w'.live
      ensures other < w'.nextId && IndexOf(QueueOf(w'.state, w'.live[other]), other).Some?
    {
      ReleaseKeepsLive(w, id, other);
    }
    forall k, x | k in w'.state.queues && x in w'.state.queues[k]
      ensures x.id in w'.live && w'.live[x.id] == k
    {
      ReleaseKeepsQueued(w, id, k, x);
    }
  }

  lemma ReleaseKeepsInv<K(!new)>(w: World<K>, id: nat)
    requires Inv(w) && id in w.live
    ensures Inv(Release(w, id))
  {
    DroppedQueuesOk(w.state, w.live[id], id);
    ReleaseKeepsTickets(w, id);
  }

  lemma ApplyKeepsInv<K(!new)>(w: World<K>, step: Step<K>)
    requires Inv(w)
    ensures Inv(Apply(w, step))
  {
    match step
    case Enqueue(keys, maxWaiting, now, deadline, p, score) =>
      var r := Admission(w.state, keys, maxWaiting, now, deadline, p, score);
      if r.Ok? {
        AdmitKeepsInv(w, r.value, p);
      }
    case DropTicket(id) =>
      if id in w.live {
        ReleaseKeepsInv(w, id);
      }
  }

  /** Over every run: exact accounting, no empty queue, order, one waiter per ticket. */
  lemma {:induction false} EveryRunKeepsInv<K(!new)>(steps: seq<Step<K>>)
    ensures Inv(Run(steps))
  {
    if steps != [] {
      EveryRunKeepsInv(steps[..|steps| - 1]);
      ApplyKeepsInv(Run(steps[..|steps| - 1]), steps[|steps| - 1]);
    }
  }

  lemma DropUndoesEnqueue<K(!new)>(s: QueueState<K>, k: K, x: Waiter)
    requires IndexOf(QueueOf(s, k), x.id).None? && (k in s.queues ==> s.queues[k] != [])
    ensures Dropped(Enqueued(s, k, x), k, x.id) == s
  {
    RemoveUndoesInsert(QueueOf(s, k), x);
    var m := s.queues[k := Inserted(QueueOf(s, k), x)];
    if k in s.queues {
      assert m[k := s.queues[k]] == s.queues;
    } else {
      assert m - {k} == s.queues;
    }
  }

  /** Dropping a ticket right after it was issued restores the queues exactly. */
  lemma EnqueueThenDropRestores<K(!new)>(steps: seq<Step<K>>, k: K, p: Priority)
    ensures var w := Run(steps);
            && w.nextId in Admit(w, k, p).live
            && Release(Admit(w, k, p), w.nextId) == w.(nextId := w.nextId + 1)
  {
    EveryRunKeepsInv(steps);
    var w := Run(steps);
    HasId(QueueOf(w.state, k), w.nextId);
    DropUndoesEnqueue(w.state, k, Waiter(w.nextId, p));
    assert w.live[w.nextId := k] - {w.nextId} == w.live;
  }

  // ----- Who may try for capacity

  predicate HasWaitersAheadOf<K>(s: QueueState<K>, k: K, p: Priority) {
    exists i :: 0 <= i < |QueueOf(s, k)| && (p == Normal || QueueOf(s, k)[i].priority == p)
  }

  predicate IsHead<K>(s: QueueState<K>, t: Ticket<K>) {
    |QueueOf(s, t.key)| > 0 && QueueOf(s, t.key)[0].id == t.id
  }

  /** `CapacityWait::can_try`. */
  predicate CanTry<K(==)>(s: QueueState<K>, ticket: Option<Ticket<K>>, p: Priority, k: K) {
    if ticket.Some? && ticket.value.key == k then IsHead(s, ticket.value)
    else !HasWaitersAheadOf(s, k, p)
  }

  ghost predicate HighQueued<K>(s: QueueState<K>, k: K) {
    exists i :: 0 <= i < |QueueOf(s, k)| && QueueOf(s, k)[i].priority == High
  }

  ghost predicate LiveTicket<K>(w: World<K>, t: Ticket<K>) {
    t.id in w.live && w.live[t.id] == t.key
  }

  lemma LiveIffQueued<K(!new)>(w: World<K>, t: Ticket<K>)
    requires Inv(w)
    ensures LiveTicket(w, t) <==> IndexOf(QueueOf(w.state, t.key), t.id).Some?
  {
    HasId(QueueOf(w.state, t.key), t.id);
  }

  /** What admitting a waiter does, spelled out. */
  lemma AdmitShape<K(!new)>(w: World<K>, k: K, p: Priority)
    requires Inv(w) && w.state.total < MAX_TOTAL_WAITING
    ensures Inv(Admit(w, k, p))
    ensures Admit(w, k, p) ==
      var q := if k in w.state.queues then w.state.queues[k] else [];
      var i := InsertPosition(q, p);
      World(QueueState(w.state.queues[k := q[..i] + [Waiter(w.nextId, p)] + q[i..]], w.state.total + 1),
            w.live[w.nextId := k], w.nextId + 1)
  {
    AdmitKeepsInv(w, k, p);
  }

  /** What releasing a queued ticket does, spelled out. */
  lemma ReleaseShape<K(!new)>(w: World<K>, t: Ticket<K>, index: nat)
    requires Inv(w) && LiveTicket(w, t) && IndexOf(QueueOf(w.state, t.key), t.id) == Some(index)
    ensures Inv(Release(w, t.id)) && w.state.total > 0 && t.key in w.state.queues && index < |w.state.queues[t.key]|
    ensures Release(w, t.id) ==
      var rest := Removed(w.state.queues[t.key], index);
      World(QueueState(if rest == [] then w.state.queues - {t.key} else w.state.queues[t.key := rest],
                       w.state.total - 1),
            w.live - {t.id}, w.nextId)
  {
    ReleaseKeepsInv(w, t.id);
    SumLengthsSplit(w.state.queues, t.key);
  }

  function PriorityOf<K>(s: QueueState<K>, t: Ticket<K>): Priority
    requires IndexOf(QueueOf(s, t.key), t.id).Some?
  {
    QueueOf(s, t.key)[IndexOf(QueueOf(s, t.key), t.id).value].priority
  }

  /**
   While a High waiter is queued for `k`, nobody without a ticket for `k` may
   try, and a ticket holder may try exactly when it is the head, which is High.
   */
  lemma HighWaiterBlocksOthers<K(!new)>(steps: seq<Step<K>>, k: K, ticket: Option<Ticket<K>>, p: Priority)
    requires HighQueued(Run(steps).state, k)
    requires ticket.Some? && ticket.value.key == k ==> LiveTicket(Run(steps), ticket.value)
    ensures (ticket.None? || ticket.value.key != k) ==> !CanTry(Run(steps).state, ticket, p, k)
    ensures ticket.Some? && ticket.value.key == k && CanTry(Run(steps).state, ticket, p, k) ==>
      && IndexOf(QueueOf(Run(steps).state, k), ticket.value.id) == Some(0)
      && PriorityOf(Run(steps).state, ticket.value) == High
  {
    EveryRunKeepsInv(steps);
    var q := QueueOf(Run(steps).state, k);
    var i :| 0 <= i < |q| && q[i].priority == High;
    HighBeforeNormal(q, i);
  }

  /** After every run a live ticket lets its holder try for its key exactly when it is the head, whatever its class. */
  lemma TicketTriesIffHead<K(!new)>(steps: seq<Step<K>>, t: Ticket<K>, p: Priority)
    requires LiveTicket(Run(steps), t)
    ensures CanTry(Run(steps).state, Some(t), p, t.key) <==> IndexOf(QueueOf(Run(steps).state, t.key), t.id) == Some(0)
  {
    EveryRunKeepsInv(steps);
  }

  /** A ticket for another key changes nothing. */
  lemma OtherTicketIsNoTicket<K(!new)>(s: QueueState<K>, t: Ticket<K>, p: Priority, k: K)
    requires t.key != k
    ensures CanTry(s, Some(t), p, k) == CanTry(s, None, p, k)
  {
  }

  /** After every run a drop wakes exactly the waiter that becomes head by it, and nobody if the head stays. */
  lemma DropWakesNewHead<K(!new)>(steps: seq<Step<K>>, id: nat, x: nat)
    requires id in Run(steps).live
    ensures var w := Run(steps);
      var k := w.live[id];
      var before, after := QueueOf(w.state, k), QueueOf(Release(w, id).state, k);
      WakeTarget(w.state, k, id) == Some(x) <==>
        before != [] && before[0].id == id && after != [] && after[0].id == x
  {
    EveryRunKeepsInv(steps);
    var w := Run(steps);
    var q := QueueOf(w.state, w.live[id]);
    var i := IndexOf(q, id).value;
    assert Removed(q, i) != [] ==> Removed(q, i)[0] == if i == 0 then q[1] else q[0];
  }

  /** A Normal request without a ticket for `k` passes exactly on an empty queue. */
  lemma NormalNewcomerNeedsEmptyQueue<K(!new)>(s: QueueState<K>, k: K)
    ensures CanTry(s, None, Normal, k) <==> QueueOf(s, k) == []
  {
    var q := QueueOf(s, k);
    assert q != [] ==> q[0].priority == q[0].priority;
  }

  /** After every run a High newcomer passes exactly when the queue is empty or its head is Normal. */
  lemma HighNewcomerYieldsToHighOnly<K(!new)>(steps: seq<Step<K>>, k: K)
    ensures var q := QueueOf(Run(steps).state, k);
            CanTry(Run(steps).state, None, High, k) <==> q == [] || q[0].priority == Normal
  {
    EveryRunKeepsInv(steps);
    var q := QueueOf(Run(steps).state, k);
    if i :| 0 <= i < |q| && q[i].priority == High {
      HighBeforeNormal(q, i);
    }
    assert q != [] && q[0].priority == High ==> HasWaitersAheadOf(Run(steps).state, k, High);
  }

  ghost predicate MaxWaitingIs<K(!new)>(steps: seq<Step<K>>, m: nat) {
    forall i :: 0 <= i < |steps| && steps[i].Enqueue? ==> steps[i].maxWaiting == m
  }

  /** Under one `max_waiting`, no queue ever holds more Normal waiters than it. */
  lemma {:induction false} NormalWaitersBounded<K(!new)>(steps: seq<Step<K>>, m: nat, k: K)
    requires MaxWaitingIs(steps, m)
    ensures CountNormal(QueueOf(Run(steps).state, k)) <= m
  {
    if steps != [] {
      var before := steps[..|steps| - 1];
      var last := steps[|steps| - 1];
      assert MaxWaitingIs(before, m) by {
        assert forall i :: 0 <= i < |before| ==> before[i] == steps[i];
      }
      NormalWaitersBounded(before, m, k);
      var w := Run(before);
      match last
      case Enqueue(keys, maxWaiting, now, deadline, p, score) =>
        CountNormalInserted(QueueOf(w.state, k), Waiter(w.nextId, p));
      case DropTicket(id) =>
        if id in w.live && w.live[id] == k {
          match IndexOf(QueueOf(w.state, k), id)
          case None =>
          case Some(i) => CountNormalRemoved(QueueOf(w.state, k), i);
        }
    }
  }

  // ----- The class, its tickets and the capacity wait

  class ConcurrencyWaitQueue<K(==, !new)> {
    var queues: map<K, seq<Waiter>>
    var total: nat
    var nextId: nat
    ghost var live: map<nat, K>

    ghost function View(): World<K>
      reads this
    {
      World(QueueState(queues, total), live, nextId)
    }

    ghost predicate Valid()
      reads this
    {
      Inv(View())
    }

    constructor ()
      ensures Valid() && View() == Start()
    {
      queues, total, nextId, live := map[], 0, 0, map[];
    }

    method Insert(key: K, p: Priority) returns (waker: nat)
      requires Valid() && total < MAX_TOTAL_WAITING
      modifies this
      ensures Valid()
      ensures waker == old(nextId) && View() == Admit(old(View()), key, p)
    {
      AdmitShape(View(), key, p);
      var queue := if key in queues then queues[key] else [];
      var position := InsertPosition(queue, p);
      waker := nextId;
      queues := queues[key := queue[..position] + [Waiter(waker, p)] + queue[position..]];
      total := total + 1;
      nextId := nextId + 1;
      live := live[waker := key];
    }

    /** `enqueue_ranked`: one critical section; a rejection changes nothing. */
    method EnqueueRanked(keys: seq<K>, maxWaiting: nat, now: int, deadline: int, p: Priority, score: Score<K>)
      returns (r: Result<Ticket<K>, Rejection>)
      requires Valid()
      modifies this
      ensures Valid()
      ensures match Admission(old(View()).state, keys, maxWaiting, now, deadline, p, score)
              case Err(e) => r == Err(e) && View() == old(View())
              case Ok(k) => r == Ok(Ticket(k, old(nextId), deadline)) && View() == Admit(old(View()), k, p)
      ensures r.Ok? ==>
        exists i :: 0 <= i < |keys| && keys[i] == r.value.key && Best(old(View()).state, keys, maxWaiting, p, score, i)
    {
      if now >= deadline {
        return Err(Timeout);
      }
      if total >= MAX_TOTAL_WAITING {
        return Err(Full);
      }
      var chosen := SelectKey(QueueState(queues, total), keys, maxWaiting, p, score);
      if chosen.None? {
        return Err(Full);
      }
      var waker := Insert(keys[chosen.value], p);
      return Ok(Ticket(keys[chosen.value], waker, deadline));
    }

    method Remove(t: Ticket<K>, index: nat) returns (next: Option<nat>)
      requires Valid() && LiveTicket(View(), t)
      requires IndexOf(QueueOf(View().state, t.key), t.id) == Some(index)
      modifies this
      ensures Valid() && View() == Release(old(View()), t.id)
      ensures next == var rest := Removed(old(queues)[t.key], index);
                      if rest == [] then None else Some(rest[0].id)
    {
      ReleaseShape(View(), t, index);
      var queue := queues[t.key][..index] + queues[t.key][index + 1..];
      next := if queue == [] then None else Some(queue[0].id);
      queues := if queue == [] then queues - {t.key} else queues[t.key := queue];
      total := total - 1;
      live := live - {t.id};
      assert View() == Release(old(View()), t.id);
    }

    /** `Drop for WaitTicket`: frees the position and names the waiter to wake. */
    method DropWaiter(t: Ticket<K>) returns (wake: Option<nat>)
      requires Valid()
      modifies this
      ensures Valid()
      ensures View() == if LiveTicket(old(View()), t) then Release(old(View()), t.id) else old(View())
      ensures wake == WakeTarget(old(View()).state, t.key, t.id)
    {
      LiveIffQueued(View(), t);
      if t.key !in queues {
        return None;
      }
      var index := IndexOf(queues[t.key], t.id);
      if index.None? {
        return None;
      }
      var next := Remove(t, index.value);
      wake := if index.value == 0 then next else None;
    }
  }

  /** `ConcurrencyWaitBudget`: a write-once deadline shared by all retries. */
  class WaitBudget {
    var deadline: Option<int>

    constructor ()
      ensures deadline == None
    {
      deadline := None;
    }

    method Deadline(now: int, timeout: nat, remaining: nat) returns (d: int)
      modifies this
      ensures deadline == if old(deadline).Some? then old(deadline) else Some(now + timeout)
      ensures d == Min(deadline.value, now + remaining)
    {
      if deadline.None? {
        deadline := Some(now + timeout);
      }
      d := Min(deadline.value, now + remaining);
    }
  }

  /** The outcome of asking for a position: as `Admission` decides, and a rejection changes nothing. */
  ghost predicate Sought<K(!new)>(w: World<K>, w': World<K>, keys: seq<K>, maxWaiting: nat, now: int, deadline: int,
                                  p: Priority, score: Score<K>, r: Result<Ticket<K>, Rejection>)
  {
    match Admission(w.state, keys, maxWaiting, now, deadline, p, score)
    case Err(e) => r == Err(e) && w' == w
    case Ok(k) => r == Ok(Ticket(k, w.nextId, deadline)) && w' == Admit(w, k, p)
  }

  /** `CapacityWait`: at most one ticket, replaced only when its key stops being a candidate. */
  class CapacityWait<K(==, !new)> {
    const queue: ConcurrencyWaitQueue<K>
    const budget: WaitBudget
    const maxWaiting: nat
    const timeout: nat
    const priority: Priority
    var ticket: Option<Ticket<K>>

    constructor (queue: ConcurrencyWaitQueue<K>, budget: WaitBudget, maxWaiting: nat, timeout: nat, priority: Priority)
      ensures this.queue == queue && this.budget == budget && this.priority == priority
      ensures this.maxWaiting == maxWaiting && this.timeout == timeout && ticket == None
    {
      this.queue, this.budget, this.maxWaiting, this.timeout := queue, budget, maxWaiting, timeout;
      this.priority, ticket := priority, None;
    }

    ghost predicate Valid()
      reads this, queue
    {
      queue.Valid() && (ticket.Some? ==> LiveTicket(queue.View(), ticket.value))
    }

    /** Frees the position, if any. */
    method GiveUp()
      requires Valid()
      modifies this, queue
      ensures Valid() && ticket == None
      ensures queue.View() ==
        if old(ticket).None? then old(queue.View()) else Release(old(queue.View()), old(ticket).value.id)
    {
      if ticket.Some? {
        var _ := queue.DropWaiter(ticket.value);
        ticket := None;
      }
    }

    method Seek(keys: seq<K>, score: Score<K>, now: int, deadline: int) returns (r: Result<Ticket<K>, Rejection>)
      requires Valid() && ticket == None
      modifies this, queue
      ensures Valid() && ticket == if r.Ok? then Some(r.value) else None
      ensures Sought(old(queue.View()), queue.View(), keys, maxWaiting, now, deadline, priority, score, r)
      ensures r.Ok? ==> r.value.key in keys
    {
      r := queue.EnqueueRanked(keys, maxWaiting, now, deadline, priority, score);
      if r.Ok? {
        ticket := Some(r.value);
      }
    }

    /**
     `wait_with_priority` up to its first suspension. A ticket whose key is still
     a candidate keeps its position; otherwise the old position is freed before a
     new one is sought, so a rejection leaves no position at all. The deadline is read
     at `now`, the enqueue at `later`.
     */
    method Reserve(keys: seq<K>, score: Score<K>, now: int, remaining: nat, later: int)
      returns (r: Result<Ticket<K>, Rejection>)
      requires Valid()
      modifies this, queue, budget
      ensures Valid()
      ensures r.Ok? ==> ticket == Some(r.value) && r.value.key in keys
      ensures r.Err? ==> ticket == None
      ensures old(ticket).Some? && old(ticket).value.key in keys ==>
        r == Ok(old(ticket).value) && queue.View() == old(queue.View())
      ensures budget.deadline == if old(budget.deadline).Some? then old(budget.deadline) else Some(now + timeout)
      ensures old(ticket).None? || old(ticket).value.key !in keys ==>
        Sought(if old(ticket).None? then old(queue.View()) else Release(old(queue.View()), old(ticket).value.id),
               queue.View(), keys, maxWaiting, later, Min(budget.deadline.value, now + remaining), priority, score, r)
    {
      var deadline := budget.Deadline(now, timeout, remaining);
      if ticket.Some? && ticket.value.key in keys {
        return Ok(ticket.value);
      }
      GiveUp();
      r := Seek(keys, score, later, deadline);
    }
  }
}
