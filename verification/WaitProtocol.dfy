/**
 The wake-up protocol of `WaitTicket` (gateway-core/src/concurrency.rs) under
 every interleaving.

 A critical section under the queue mutex, `AtomicWaker::register` and
 `AtomicWaker::wake` are each one atomic step. `register` stores the waker,
 `wake` takes it if one is stored and schedules the task; otherwise it is lost.
 */
module WaitProtocol {
  import opened Common
  import opened WaitQueue

  /**
   Where the `turn` future of a ticket stands: not running, polled but not yet
   registered, registered but not yet checked, pending, or finished.
   */
  datatype Phase = Idle | Polling | Registered | Parked | Ready

  /** `armed`: the AtomicWaker holds a waker. `woken`: the task is scheduled. */
  datatype Task = Task(phase: Phase, armed: bool, woken: bool)

  /** `wakes` holds the targets of droppers that have unlocked but not yet woken. */
  datatype System<K> = System(world: World<K>, tasks: map<nat, Task>, wakes: multiset<nat>)

  /** The steps of one poll, and the drop of a pending `turn` future. */
  datatype PollStep = StartPoll | SpuriousPoll | Register | CheckHead | Abandon

  datatype Action<!K> =
    | Join(request: Step<K>)
    | Poll(id: nat, step: PollStep)
    | DropLocked(id: nat)
    | Wake(id: nat)

  function Begin<K>(): System<K> { System(Start(), map[], multiset{}) }

  predicate AtHead<K>(w: World<K>, id: nat) {
    && id in w.live
    && var q := QueueOf(w.state, w.live[id]);
       |q| > 0 && q[0].id == id
  }

  /** One step of a task that sees itself at the head or not; `None` if not enabled. */
  function TaskStep(t: Task, step: PollStep, head: bool): Option<Task> {
    match step
    case StartPoll =>
      if t.phase == Idle || t.phase == Ready || (t.phase == Parked && t.woken)
      then Some(t.(phase := Polling, woken := false)) else None
    case SpuriousPoll => if t.phase == Parked then Some(t.(phase := Polling, woken := false)) else None
    case Register => if t.phase == Polling then Some(t.(phase := Registered, armed := true)) else None
    case CheckHead => if t.phase == Registered then Some(t.(phase := if head then Ready else Parked)) else None
    case Abandon => if t.phase == Parked then Some(t.(phase := Idle)) else None
  }

  predicate CanDrop(t: Task) {
    t.phase == Idle || t.phase == Parked || t.phase == Ready
  }

  /** `AtomicWaker::wake`: takes the waker if there is one. */
  function WakeTask(t: Task): Task {
    if t.armed then t.(armed := false, woken := true) else t
  }

  function DoPoll<K>(s: System<K>, id: nat, step: PollStep): System<K> {
    if id !in s.tasks then s
    else match TaskStep(s.tasks[id], step, AtHead(s.world, id))
      case None => s
      case Some(t) => s.(tasks := s.tasks[id := t])
  }

  function DoWake<K>(s: System<K>, id: nat): System<K> {
    if id !in s.wakes then s
    else s.(wakes := s.wakes - multiset{id},
            tasks := if id in s.tasks then s.tasks[id := WakeTask(s.tasks[id])] else s.tasks)
  }

  function DoDrop<K>(s: System<K>, id: nat): System<K> {
    if id !in s.tasks || id !in s.world.live || !CanDrop(s.tasks[id]) then s
    else
      var target := WakeTarget(s.world.state, s.world.live[id], id);
      System(Release(s.world, id), s.tasks - {id},
             if target.Some? then s.wakes + multiset{target.value} else s.wakes)
  }

  function DoJoin<K>(s: System<K>, request: Step<K>): System<K> {
    if !request.Enqueue? then s
    else
      var w := Apply(s.world, request);
      if w.nextId == s.world.nextId then s
      else s.(world := w, tasks := s.tasks[s.world.nextId := Task(Idle, false, false)])
  }

  /** One atomic step; a step that is not enabled changes nothing. */
  function Do<K>(s: System<K>, a: Action<K>): System<K> {
    match a
    case Join(request) => DoJoin(s, request)
    case Poll(id, step) => DoPoll(s, id, step)
    case DropLocked(id) => DoDrop(s, id)
    case Wake(id) => DoWake(s, id)
  }

  function RunFrom<K>(s: System<K>, actions: seq<Action<K>>): System<K>
    decreases |actions|
  {
    if actions == [] then s else RunFrom(Do(s, actions[0]), actions[1..])
  }

  /** A head that is parked has been woken, or some dropper is about to wake it. */
  ghost predicate NoStrandedHead<K(!new)>(s: System<K>) {
    forall id :: id in s.tasks && s.tasks[id].phase == Parked && AtHead(s.world, id) ==>
      s.tasks[id].woken || id in s.wakes
  }

  ghost predicate TasksOk<K(!new)>(s: System<K>) {
    && s.tasks.Keys == s.world.live.Keys
    && (forall id :: id in s.tasks && (s.tasks[id].phase == Registered || s.tasks[id].phase == Parked) ==>
          s.tasks[id].armed || s.tasks[id].woken)
    && NoStrandedHead(s)
  }

  ghost predicate Sound<K(!new)>(s: System<K>) {
    Inv(s.world) && TasksOk(s)
  }

  lemma HeadAfterAdmit<K(!new)>(w: World<K>, k: K, p: Priority, id: nat)
    requires id in w.live && id != w.nextId && AtHead(Admit(w, k, p), id)
    ensures AtHead(w, id)
  {
    var x := Waiter(w.nextId, p);
    if w.live[id] == k {
      var q := QueueOf(w.state, k);
      assert Inserted(q, x)[0] == if InsertPosition(q, p) == 0 then x else q[0];
    }
  }

  lemma HeadAfterRelease<K(!new)>(w: World<K>, gone: nat, id: nat)
    requires gone in w.live && IndexOf(QueueOf(w.state, w.live[gone]), gone).Some? && id != gone
    requires AtHead(Release(w, gone), id)
    ensures AtHead(w, id) || WakeTarget(w.state, w.live[gone], gone) == Some(id)
  {
    if w.live[id] == w.live[gone] {
      var q := QueueOf(w.state, w.live[gone]);
      var i := IndexOf(q, gone).value;
      assert Removed(q, i) != [] ==> Removed(q, i)[0] == if i == 0 then q[1] else q[0];
    }
  }

  lemma PollKeepsTasksOk<K(!new)>(s: System<K>, id: nat, step: PollStep)
    requires TasksOk(s)
    ensures TasksOk(DoPoll(s, id, step)) && DoPoll(s, id, step).world == s.world
  {
  }

  lemma WakeKeepsTasksOk<K(!new)>(s: System<K>, id: nat)
    requires TasksOk(s)
    ensures TasksOk(DoWake(s, id)) && DoWake(s, id).world == s.world
  {
  }

  lemma DropKeepsTasksOk<K(!new)>(s: System<K>, id: nat)
    requires TasksOk(s)
    requires id in s.world.live ==> IndexOf(QueueOf(s.world.state, s.world.live[id]), id).Some?
    ensures TasksOk(DoDrop(s, id))
  {
    var s' := DoDrop(s, id);
    if s' != s {
      forall other | other in s'.tasks && s'.tasks[other].phase == Parked && AtHead(s'.world, other)
        ensures s'.tasks[other].woken || other in s'.wakes
      {
        HeadAfterRelease(s.world, id, other);
      }
    }
  }

  lemma JoinKeepsTasksOk<K(!new)>(s: System<K>, request: Step<K>)
    requires TasksOk(s) && s.world.nextId !in s.world.live
    ensures TasksOk(DoJoin(s, request))
  {
    var s' := DoJoin(s, request);
    if s' != s {
      var k :| s'.world == Admit(s.world, k, request.priority);
      forall id | id in s'.tasks && s'.tasks[id].phase == Parked && AtHead(s'.world, id)
        ensures s'.tasks[id].woken || id in s'.wakes
      {
        HeadAfterAdmit(s.world, k, request.priority, id);
      }
    }
  }

  lemma WorldStaysOk<K(!new)>(s: System<K>, a: Action<K>)
    requires Inv(s.world)
    ensures Inv(Do(s, a).world)
  {
    match a
    case Join(request) => ApplyKeepsInv(s.world, request);
    case Poll(id, step) =>
    case DropLocked(id) => ApplyKeepsInv(s.world, DropTicket(id));
    case Wake(id) =>
  }

  lemma DoKeepsSound<K(!new)>(s: System<K>, a: Action<K>)
    requires Sound(s)
    ensures Sound(Do(s, a))
  {
    WorldStaysOk(s, a);
    match a
    case Join(request) => JoinKeepsTasksOk(s, request);
    case Poll(id, step) => PollKeepsTasksOk(s, id, step);
    case DropLocked(id) => DropKeepsTasksOk(s, id);
    case Wake(id) => WakeKeepsTasksOk(s, id);
  }

  lemma {:induction false} RunKeepsSound<K(!new)>(s: System<K>, actions: seq<Action<K>>)
    requires Sound(s)
    ensures Sound(RunFrom(s, actions))
    decreases |actions|
  {
    if actions != [] {
      DoKeepsSound(s, actions[0]);
      RunKeepsSound(Do(s, actions[0]), actions[1..]);
    }
  }

  /** No interleaving of polls, drops, wakes and front insertions strands a head. */
  lemma NoHeadIsEverStranded<K(!new)>(actions: seq<Action<K>>)
    ensures NoStrandedHead(RunFrom(Begin<K>(), actions))
  {
    RunKeepsSound(Begin<K>(), actions);
  }

  /** A turn is given only to the head, by a poll that sees it there, and an unfinished poll never gives one. */
  lemma TurnOnlyAtHead<K(!new)>(s: System<K>, a: Action<K>, id: nat)
    requires id in s.tasks && id in Do(s, a).tasks
    requires s.tasks[id].phase != Ready && Do(s, a).tasks[id].phase == Ready
    ensures a == Poll(id, CheckHead) && s.tasks[id].phase == Registered && AtHead(s.world, id)
  {
  }

  /** The steps that bring a parked head to its turn: no spurious poll among them. */
  function Rescue<K>(s: System<K>, id: nat): seq<Action<K>> {
    if id in s.tasks && s.tasks[id].woken then Reach(id) else [Wake(id)] + Reach(id)
  }

  function Reach<K>(id: nat): seq<Action<K>> {
    [Poll(id, StartPoll), Poll(id, Register), Poll(id, CheckHead)]
  }

  lemma WokenHeadReachesItsTurn<K(!new)>(s: System<K>, id: nat)
    requires id in s.tasks && s.tasks[id].phase == Parked && s.tasks[id].woken && AtHead(s.world, id)
    ensures var s' := RunFrom(s, Reach(id));
            s'.world == s.world && id in s'.tasks && s'.tasks[id].phase == Ready
  {
    var tail := Reach<K>(id);
    var s2 := DoPoll(DoPoll(s, id, StartPoll), id, Register);
    assert tail[1..][1..] == [tail[2]];
    assert RunFrom(s2, [tail[2]]) == DoPoll(s2, id, CheckHead);
  }

  lemma OwedWakeGivesTheTurn<K(!new)>(s: System<K>, id: nat)
    requires TasksOk(s) && id in s.tasks && s.tasks[id].phase == Parked && AtHead(s.world, id)
    ensures var s' := RunFrom(s, Rescue(s, id));
            s'.world == s.world && id in s'.tasks && s'.tasks[id].phase == Ready
  {
    if s.tasks[id].woken {
      WokenHeadReachesItsTurn(s, id);
    } else {
      assert Rescue(s, id)[1..] == Reach<K>(id);
      WokenHeadReachesItsTurn(DoWake(s, id), id);
    }
  }

  /** In every reachable state the wake owed to a parked head does give it its turn. */
  lemma ParkedHeadGetsItsTurn<K(!new)>(actions: seq<Action<K>>, s: System<K>, id: nat)
    requires s == RunFrom(Begin<K>(), actions)
    requires id in s.tasks && s.tasks[id].phase == Parked && AtHead(s.world, id)
    ensures var s' := RunFrom(s, Rescue(s, id));
            s'.world == s.world && id in s'.tasks && s'.tasks[id].phase == Ready
  {
    RunKeepsSound(Begin<K>(), actions);
    OwedWakeGivesTheTurn(s, id);
  }
}
