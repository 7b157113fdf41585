/**
 Cancellation tokens of gateway-core/src/lifecycle.rs: which tokens a
 cancellation reaches, and why no waiter of `wait_for_state` is left behind.
 */
module Cancellation {
  import opened Common

  // ----- The token objects

  class CancellationState {
    var cancelled: bool
    var waiters: seq<nat>

    constructor ()
      ensures !cancelled && waiters == []
    {
      cancelled, waiters := false, [];
    }
  }

  datatype CancellationToken = CancellationToken(state: CancellationState, ancestors: seq<CancellationState>) {

    function Chain(): seq<CancellationState> { [state] + ancestors }

    predicate IsCancelled()
      reads state, ancestors
    {
      state.cancelled || exists i :: 0 <= i < |ancestors| && ancestors[i].cancelled
    }

    /** A child answers as its parent does until one of the two is cancelled. */
    method ChildToken() returns (child: CancellationToken)
      ensures fresh(child.state) && child.ancestors == Chain()
      ensures child.IsCancelled() == IsCancelled()
    {
      var childState := new CancellationState();
      child := CancellationToken(childState, [state] + ancestors);
      assert IsCancelled() ==> exists i :: 0 <= i < |Chain()| && Chain()[i].cancelled by {
        if IsCancelled() && !state.cancelled {
          var i :| 0 <= i < |ancestors| && ancestors[i].cancelled;
          assert Chain()[i + 1].cancelled;
        } else if state.cancelled {
          assert Chain()[0].cancelled;
        }
      }
    }

    /** `cancel`: only the first call drains the waiters, and signals them all. */
    method Cancel() returns (signalled: seq<nat>)
      modifies state
      ensures state.cancelled
      ensures signalled == if old(state.cancelled) then [] else old(state.waiters)
      ensures state.waiters == if old(state.cancelled) then old(state.waiters) else []
      ensures forall u: CancellationToken :: old(allocated(u)) ==>
        (u.IsCancelled() <==> old(u.IsCancelled()) || state in u.Chain())
    {
      var previous := state.cancelled;
      state.cancelled := true;
      if previous {
        return [];
      }
      signalled := state.waiters;
      state.waiters := [];
    }
  }

  // ----- The tree of tokens

  /**
   Tokens in creation order. `parents` records who called `child_token`;
   `chains` is the ancestor list each token carries.
   */
  datatype Forest = Forest(parents: seq<Option<nat>>, chains: seq<seq<nat>>, cancelled: set<nat>)

  datatype TreeStep = NewToken | NewChild(of: nat) | CancelToken(token: nat)

  function Grow(f: Forest, step: TreeStep): Forest {
    match step
    case NewToken => f.(parents := f.parents + [None], chains := f.chains + [[]])
    case NewChild(p) =>
      if p < |f.chains| then f.(parents := f.parents + [Some(p)], chains := f.chains + [[p] + f.chains[p]]) else f
    case CancelToken(x) => if x < |f.chains| then f.(cancelled := f.cancelled + {x}) else f
  }

  function Tree(steps: seq<TreeStep>): Forest {
    if steps == [] then Forest([], [], {}) else Grow(Tree(steps[..|steps| - 1]), steps[|steps| - 1])
  }

  /** `is_cancelled`: the own flag or the flag of a listed ancestor. */
  predicate IsCancelled(f: Forest, y: nat) {
    y in f.cancelled || (y < |f.chains| && exists i :: 0 <= i < |f.chains[y]| && f.chains[y][i] in f.cancelled)
  }

  /** `x` is `y` or is reached from `y` by following parents. */
  predicate Reaches(f: Forest, y: nat, x: nat)
    decreases y
  {
    x == y || (y < |f.parents| && f.parents[y].Some? && f.parents[y].value < y && Reaches(f, f.parents[y].value, x))
  }

  ghost predicate TreeOk(f: Forest) {
    && |f.parents| == |f.chains|
    && (forall y :: 0 <= y < |f.parents| && f.parents[y].None? ==> f.chains[y] == [])
    && (forall y :: 0 <= y < |f.parents| && f.parents[y].Some? ==>
          f.parents[y].value < y && f.chains[y] == [f.parents[y].value] + f.chains[f.parents[y].value])
  }

  lemma GrowKeepsTreeOk(f: Forest, step: TreeStep)
    requires TreeOk(f)
    ensures TreeOk(Grow(f, step))
  {
  }

  lemma {:induction false} TreeIsOk(steps: seq<TreeStep>)
    ensures TreeOk(Tree(steps))
  {
    if steps != [] {
      TreeIsOk(steps[..|steps| - 1]);
      GrowKeepsTreeOk(Tree(steps[..|steps| - 1]), steps[|steps| - 1]);
    }
  }

  /** The carried list is exactly the proper ancestors. */
  lemma {:induction false} ChainIsAncestors(f: Forest, y: nat, x: nat)
    requires TreeOk(f) && y < |f.chains|
    ensures x in f.chains[y] <==> x != y && Reaches(f, y, x)
    ensures Reaches(f, y, x) ==> x <= y
    decreases y
  {
    if f.parents[y].Some? {
      ChainIsAncestors(f, f.parents[y].value, x);
    }
  }

  lemma CancelledIffReached(f: Forest, y: nat)
    requires TreeOk(f) && y < |f.chains|
    ensures IsCancelled(f, y) <==> exists x :: x in f.cancelled && Reaches(f, y, x)
  {
    if x :| x in f.cancelled && Reaches(f, y, x) {
      ChainIsAncestors(f, y, x);
    }
    if IsCancelled(f, y) {
      if y !in f.cancelled {
        var i :| 0 <= i < |f.chains[y]| && f.chains[y][i] in f.cancelled;
        ChainIsAncestors(f, y, f.chains[y][i]);
      } else {
        assert Reaches(f, y, y);
      }
    }
  }

  lemma {:induction false} CancelKeepsReach(f: Forest, x: nat, y: nat, z: nat)
    ensures Reaches(Grow(f, CancelToken(x)), y, z) == Reaches(f, y, z)
    decreases y
  {
    if y < |f.parents| && f.parents[y].Some? && f.parents[y].value < y {
      CancelKeepsReach(f, x, f.parents[y].value, z);
    }
  }

  /** Cancelling `x` newly cancels exactly `x` and its descendants. */
  lemma CancelReachesExactlyDescendants(steps: seq<TreeStep>, x: nat, y: nat)
    requires x < |Tree(steps).chains| && y < |Tree(steps).chains|
    ensures var f := Tree(steps);
            IsCancelled(Grow(f, CancelToken(x)), y) <==> IsCancelled(f, y) || Reaches(f, y, x)
  {
    var f := Tree(steps);
    var g := Grow(f, CancelToken(x));
    TreeIsOk(steps);
    GrowKeepsTreeOk(f, CancelToken(x));
    CancelledIffReached(f, y);
    CancelledIffReached(g, y);
    forall z ensures Reaches(g, y, z) == Reaches(f, y, z) { CancelKeepsReach(f, x, y, z); }
  }

  /** Cancelling a token never cancels a proper ancestor of it. */
  lemma CancelSparesAncestors(steps: seq<TreeStep>, x: nat, y: nat)
    requires x < |Tree(steps).chains| && y != x && Reaches(Tree(steps), x, y)
    ensures IsCancelled(Grow(Tree(steps), CancelToken(x)), y) <==> IsCancelled(Tree(steps), y)
  {
    TreeIsOk(steps);
    var f := Tree(steps);
    ChainIsAncestors(f, x, y);
    ChainIsAncestors(f, y, x);
    CancelReachesExactlyDescendants(steps, x, y);
  }

  /** Over any run, a token is cancelled iff it or an ancestor was cancelled. */
  lemma CancelledIffAncestorWas(steps: seq<TreeStep>, y: nat)
    requires y < |Tree(steps).chains|
    ensures IsCancelled(Tree(steps), y) <==> exists x :: x in Tree(steps).cancelled && Reaches(Tree(steps), y, x)
  {
    TreeIsOk(steps);
    CancelledIffReached(Tree(steps), y);
  }

  // ----- Racing `cancel` with `wait_for_state` on one state

  /**
   A waiter: not started, past the first load, holding the lock, holding it after
   the second load said "not cancelled", listed and awaiting its receiver,
   returned because of the cancellation, or dropped.
   */
  datatype WaitPhase = Fresh | WantsLock | Locked | Checked | Listed | Returned | Gone

  /** The canceller that won the swap: none yet, before the take, after it. */
  datatype Winner = Nobody | Swapped | Drained

  datatype Cell = Cell(
    cancelled: bool,
    lock: Option<nat>,
    waiters: seq<nat>,
    winner: Winner,
    unsent: seq<nat>,
    signalled: set<nat>,
    tasks: map<nat, WaitPhase>)

  const IDLE: Cell := Cell(false, None, [], Nobody, [], {}, map[])

  datatype Action =
    | Swap
    | TakeWaiters
    | Send
    | StartWait(id: nat)
    | FirstLoad(id: nat)
    | AcquireLock(id: nat)
    | SecondLoad(id: nat)
    | Push(id: nat)
    | Receive(id: nat)
    | Abandon(id: nat)

  predicate In(c: Cell, id: nat, phase: WaitPhase) { id in c.tasks && c.tasks[id] == phase }

  function Move(c: Cell, id: nat, phase: WaitPhase): Cell { c.(tasks := c.tasks[id := phase]) }

  /** One atomic step; a step that is not enabled changes nothing. */
  function Do(c: Cell, a: Action): Cell {
    match a
    case Swap => c.(cancelled := true, winner := if c.cancelled then c.winner else Swapped)
    case TakeWaiters =>
      if c.winner == Swapped && c.lock.None? then c.(winner := Drained, unsent := c.waiters, waiters := []) else c
    case Send => if c.unsent == [] then c else c.(signalled := c.signalled + {c.unsent[0]}, unsent := c.unsent[1..])
    case StartWait(id) => if id in c.tasks then c else Move(c, id, Fresh)
    case FirstLoad(id) => if In(c, id, Fresh) then Move(c, id, if c.cancelled then Returned else WantsLock) else c
    case AcquireLock(id) =>
      if In(c, id, WantsLock) && c.lock.None? then Move(c, id, Locked).(lock := Some(id)) else c
    case SecondLoad(id) =>
      if !In(c, id, Locked) then c
      else if c.cancelled then Move(c, id, Returned).(lock := None)
      else Move(c, id, Checked)
    case Push(id) =>
      if In(c, id, Checked) then Move(c, id, Listed).(lock := None, waiters := c.waiters + [id]) else c
    case Receive(id) => if In(c, id, Listed) && id in c.signalled then Move(c, id, Returned) else c
    case Abandon(id) => if In(c, id, Listed) then Move(c, id, Gone) else c
  }

  function RunFrom(c: Cell, actions: seq<Action>): Cell
    decreases |actions|
  {
    if actions == [] then c else RunFrom(Do(c, actions[0]), actions[1..])
  }

  ghost predicate CellOk(c: Cell) {
    && (c.winner == Nobody <==> !c.cancelled)
    && (forall t :: t in c.tasks && (c.tasks[t] == Locked || c.tasks[t] == Checked) ==> c.lock == Some(t))
    && (c.lock.Some? ==> In(c, c.lock.value, Locked) || In(c, c.lock.value, Checked))
    && (c.winner == Drained ==> c.waiters == [] && forall t :: t in c.tasks ==> c.tasks[t] != Checked)
    && (c.winner != Drained ==> c.unsent == [] && c.signalled == {})
    && (forall t :: In(c, t, Listed) ==> t in c.waiters || t in c.unsent || t in c.signalled)
    && (forall t :: In(c, t, Returned) ==> c.cancelled)
  }

  lemma CancelKeepsCellOk(c: Cell, a: Action)
    requires CellOk(c) && (a.Swap? || a.TakeWaiters? || a.Send?)
    ensures CellOk(Do(c, a))
  {
    if a.Send? && c.unsent != [] {
      assert c.unsent == [c.unsent[0]] + c.unsent[1..];
    }
  }

  /** The steps of a waiter that touch the lock. */
  predicate UsesLock(a: Action) { a.AcquireLock? || a.SecondLoad? || a.Push? }

  lemma LockStepKeepsCellOk(c: Cell, a: Action)
    requires CellOk(c) && UsesLock(a)
    ensures CellOk(Do(c, a))
  {
    forall t | In(Do(c, a), t, Returned)
      ensures Do(c, a).cancelled
    {
      assert In(c, t, Returned) || a.id == t;
    }
  }

  lemma PlainStepKeepsCellOk(c: Cell, a: Action)
    requires CellOk(c) && !UsesLock(a) && !a.Swap? && !a.TakeWaiters? && !a.Send?
    ensures CellOk(Do(c, a))
  {
    assert c.signalled != {} ==> c.cancelled;
    forall t | In(Do(c, a), t, Returned)
      ensures Do(c, a).cancelled
    {
      assert In(c, t, Returned) || a.id == t;
    }
  }

  lemma DoKeepsCellOk(c: Cell, a: Action)
    requires CellOk(c)
    ensures CellOk(Do(c, a))
    ensures c.winner == Drained ==> Do(c, a).winner == Drained
  {
    if a.Swap? || a.TakeWaiters? || a.Send? {
      CancelKeepsCellOk(c, a);
    } else if UsesLock(a) {
      LockStepKeepsCellOk(c, a);
    } else {
      PlainStepKeepsCellOk(c, a);
    }
  }

  lemma {:induction false} RunKeepsCellOk(c: Cell, actions: seq<Action>)
    requires CellOk(c)
    ensures CellOk(RunFrom(c, actions))
    ensures c.winner == Drained ==> RunFrom(c, actions).winner == Drained
    decreases |actions|
  {
    if actions != [] {
      DoKeepsCellOk(c, actions[0]);
      RunKeepsCellOk(Do(c, actions[0]), actions[1..]);
    }
  }

  /** Once the winning canceller has drained the list, it is empty for ever. */
  lemma DrainedListStaysEmpty(before: seq<Action>, after: seq<Action>)
    requires RunFrom(IDLE, before).winner == Drained
    ensures RunFrom(RunFrom(IDLE, before), after).waiters == []
  {
    RunKeepsCellOk(IDLE, before);
    RunKeepsCellOk(RunFrom(IDLE, before), after);
  }

  /**
   When the canceller has sent its last signal, every waiter that is still
   waiting holds a signal, and a waiter returns only because of a cancellation.
   */
  lemma NoWaiterIsLeftBehind(actions: seq<Action>, id: nat)
    ensures var c := RunFrom(IDLE, actions);
            && (c.winner == Drained && c.unsent == [] && In(c, id, Listed) ==> id in c.signalled)
            && (In(c, id, Returned) ==> c.cancelled)
  {
    RunKeepsCellOk(IDLE, actions);
  }

  /** A set flag always has a canceller that finishes: it drains once the lock is free. */
  lemma CancelledCellCanDrain(actions: seq<Action>)
    requires RunFrom(IDLE, actions).cancelled && RunFrom(IDLE, actions).lock.None?
    ensures Do(RunFrom(IDLE, actions), TakeWaiters).winner == Drained
  {
    RunKeepsCellOk(IDLE, actions);
  }

  // ----- Every waiter of a cancelled state can return

  /** How far the holder of the lock is from freeing it. */
  function LockLeft(c: Cell): nat {
    if c.lock.None? then 0 else if In(c, c.lock.value, Checked) then 2 else 1
  }

  /** The next step of whoever holds the lock. */
  function FreeLock(c: Cell): Action
    requires c.lock.Some?
  {
    if In(c, c.lock.value, Checked) then Push(c.lock.value) else SecondLoad(c.lock.value)
  }

  /** The step, of the waiter, the canceller or the lock holder, that the waiter needs next. */
  function NextStep(c: Cell, w: nat): Action
    requires w in c.tasks
  {
    match c.tasks[w]
    case Fresh => FirstLoad(w)
    case WantsLock => if c.lock.None? then AcquireLock(w) else FreeLock(c)
    case Locked => SecondLoad(w)
    case Checked => Push(w)
    case _ =>
      if w in c.signalled then Receive(w)
      else if c.winner == Drained then Send
      else if c.lock.None? then TakeWaiters else FreeLock(c)
  }

  /** A bound on the steps it needs. */
  function StepsLeft(c: Cell, w: nat): nat
    requires w in c.tasks
  {
    match c.tasks[w]
    case Fresh => 1
    case WantsLock => 2 + LockLeft(c)
    case Locked => 1
    case Checked => |c.waiters| + 4
    case Listed =>
      if w in c.signalled then 1
      else if c.winner == Drained then |c.unsent| + 1
      else |c.waiters| + 2 + LockLeft(c)
    case _ => 0
  }

  lemma NextStepHelps(c: Cell, w: nat)
    requires CellOk(c) && c.cancelled && w in c.tasks && c.tasks[w] != Returned && c.tasks[w] != Gone
    ensures var c' := Do(c, NextStep(c, w));
      && c'.cancelled && w in c'.tasks && c'.tasks[w] != Gone && StepsLeft(c', w) < StepsLeft(c, w)
  {
    if c.tasks[w] == Listed && w !in c.signalled && c.winner == Drained {
      assert c.unsent != [];
    }
  }

  /** Neither a cancellation, nor a new or abandoned waiter. */
  predicate OnlyProgress(actions: seq<Action>) {
    forall i :: 0 <= i < |actions| ==> !actions[i].Swap? && !actions[i].StartWait? && !actions[i].Abandon?
  }

  /** Wherever a waiter of a cancelled state stands, steps already owed to it make it return. */
  lemma {:induction false} CancelledWaitReturns(c: Cell, w: nat) returns (rescue: seq<Action>)
    requires CellOk(c) && c.cancelled && w in c.tasks && c.tasks[w] != Gone
    ensures In(RunFrom(c, rescue), w, Returned) && OnlyProgress(rescue) && |rescue| <= StepsLeft(c, w)
    decreases StepsLeft(c, w)
  {
    if c.tasks[w] == Returned {
      rescue := [];
    } else {
      var a := NextStep(c, w);
      NextStepHelps(c, w);
      DoKeepsCellOk(c, a);
      var rest := CancelledWaitReturns(Do(c, a), w);
      rescue := [a] + rest;
      assert rescue[1..] == rest;
    }
  }
}
