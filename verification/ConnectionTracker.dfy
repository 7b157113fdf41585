/**
 The connection drain tracker of gateway-host/src/serve.rs: one atomic `usize`
 packs a drain bit and a count of live guards.

 `usize` has 64 bits and arithmetic on it wraps. Every atomic operation is one
 step; `Notify::notify_waiters` wakes the futures already enabled and stores
 nothing.
 */
module ConnectionTracker {
  const WORD_SIZE: nat := 0x1_0000_0000_0000_0000
  const DRAINING_BIT: nat := 0x8000_0000_0000_0000
  const ACTIVE_MASK: nat := DRAINING_BIT - 1

  // ----- The packed word, read as a number below WORD_SIZE. The drain bit is
  // the top bit, so testing it is a comparison and masking it off a subtraction.

  predicate Draining(word: nat) { word >= DRAINING_BIT }

  function Active(word: nat): nat { if Draining(word) then word - DRAINING_BIT else word }

  function SetDraining(word: nat): nat { if Draining(word) then word else word + DRAINING_BIT }

  function Wrap(i: int): nat { i % WORD_SIZE }

  predicate Refuses(observed: nat) { Draining(observed) || Active(observed) == ACTIVE_MASK }

  /** The state the word stands for. */
  datatype Gate = Gate(draining: bool, active: nat)

  function Unpack(word: nat): Gate { Gate(Draining(word), Active(word)) }

  lemma UnpackIncrement(word: nat)
    requires word < WORD_SIZE && !Refuses(word)
    ensures Unpack(Wrap(word + 1)) == Gate(false, Active(word) + 1) && Wrap(word + 1) < WORD_SIZE
  {
  }

  lemma UnpackDecrement(word: nat)
    requires word < WORD_SIZE && Active(word) > 0
    ensures Unpack(Wrap(word - 1)) == Gate(Draining(word), Active(word) - 1) && Wrap(word - 1) < WORD_SIZE
  {
  }

  lemma UnpackSetDraining(word: nat)
    requires word < WORD_SIZE
    ensures Unpack(SetDraining(word)) == Gate(true, Active(word)) && SetDraining(word) < WORD_SIZE
  {
  }

  // ----- The interleaved system

  datatype WaitPhase = Fresh | Enabled | Parked | Returned

  /** A call of `wait_until_idle`; `notified` belongs to its current future. */
  datatype IdleWait = IdleWait(phase: WaitPhase, notified: bool)

  /**
   `attempts` holds the value each registering thread last observed, `guards`
   the live guards, `notifiers` the threads between their atomic update and
   their `notify_waiters`.
   */
  datatype System = System(
    word: nat,
    guards: set<nat>,
    attempts: map<nat, nat>,
    notifiers: nat,
    waits: map<nat, IdleWait>)

  datatype Action =
    | LoadWord(id: nat)
    | CompareExchange(id: nat, spurious: bool)
    | DropGuard(id: nat)
    | BeginDraining
    | NotifyWaiters
    | StartWait(id: nat)
    | EnableWait(id: nat)
    | ReadCount(id: nat)
    | ResumeWait(id: nat)
    | TimeoutWait(id: nat)

  const INITIAL: System := System(0, {}, map[], 0, map[])

  function NotifyAll(waits: map<nat, IdleWait>): (r: map<nat, IdleWait>)
    ensures r.Keys == waits.Keys
    ensures forall t :: t in r ==> r[t] == waits[t].(notified := r[t].notified)
    ensures forall t :: t in r ==>
      r[t].notified == (waits[t].notified || waits[t].phase == Enabled || waits[t].phase == Parked)
  {
    map t | t in waits ::
      waits[t].(notified := waits[t].notified || waits[t].phase == Enabled || waits[t].phase == Parked)
  }

  /** One turn of the `compare_exchange_weak` loop of `try_register`. */
  function Exchange(s: System, id: nat, spurious: bool): System {
    if id !in s.attempts || id in s.guards then s
    else
      var observed := s.attempts[id];
      if Refuses(observed) then s.(attempts := s.attempts - {id})
      else if s.word == observed && !spurious then
        s.(word := Wrap(observed + 1), guards := s.guards + {id}, attempts := s.attempts - {id})
      else s.(attempts := s.attempts[id := s.word])
  }

  function WaitStep(s: System, id: nat, phase: WaitPhase, next: IdleWait): System {
    if id in s.waits && s.waits[id].phase == phase then s.(waits := s.waits[id := next]) else s
  }

  /** One atomic step; a step that is not enabled changes nothing. */
  function Do(s: System, a: Action): System {
    match a
    case LoadWord(id) => if id in s.guards then s else s.(attempts := s.attempts[id := s.word])
    case CompareExchange(id, spurious) => Exchange(s, id, spurious)
    case DropGuard(id) =>
      if id !in s.guards then s
      else s.(word := Wrap(s.word - 1), guards := s.guards - {id},
              notifiers := s.notifiers + if Active(s.word) == 1 then 1 else 0)
    case BeginDraining =>
      s.(word := SetDraining(s.word), notifiers := s.notifiers + if Active(s.word) == 0 then 1 else 0)
    case NotifyWaiters =>
      if s.notifiers == 0 then s
      else s.(notifiers := s.notifiers - 1, waits := NotifyAll(s.waits))
    case StartWait(id) => if id in s.waits then s else s.(waits := s.waits[id := IdleWait(Fresh, false)])
    case EnableWait(id) => WaitStep(s, id, Fresh, IdleWait(Enabled, false))
    case ReadCount(id) =>
      if id !in s.waits then s
      else WaitStep(s, id, Enabled,
                    s.waits[id].(phase := if Active(s.word) == 0 then Returned else Parked))
    case ResumeWait(id) =>
      if id in s.waits && s.waits[id].notified then WaitStep(s, id, Parked, IdleWait(Fresh, false)) else s
    case TimeoutWait(id) =>
      if id in s.waits then s.(waits := s.waits[id := s.waits[id].(phase := Returned)]) else s
  }

  function RunFrom(s: System, actions: seq<Action>): System
    decreases |actions|
  {
    if actions == [] then s else RunFrom(Do(s, actions[0]), actions[1..])
  }

  // ----- The word refines the gate

  ghost predicate Counted(s: System) {
    s.word < WORD_SIZE && Active(s.word) == |s.guards|
  }

  /** No parked wait misses the moment the count is zero. */
  ghost predicate NoLostIdle(s: System) {
    forall t :: t in s.waits && s.waits[t].phase == Parked && Active(s.word) == 0 && !s.waits[t].notified ==>
      s.notifiers > 0
  }

  /** What a step may do to the gate: the specification the packed word refines. */
  ghost predicate GateStep(g: Gate, g': Gate, a: Action) {
    match a
    case CompareExchange(_, _) => g' == g || (!g.draining && g.active < ACTIVE_MASK && g' == Gate(false, g.active + 1))
    case DropGuard(_) => g' == g || (g.active > 0 && g' == g.(active := g.active - 1))
    case BeginDraining => g' == g.(draining := true)
    case _ => g' == g
  }

  /** The exchange leaves word and guards alone, or adds the guard to a word that does not refuse. */
  lemma ExchangeCases(s: System, id: nat, spurious: bool)
    ensures var s' := Exchange(s, id, spurious);
      || (s'.word == s.word && s'.guards == s.guards)
      || (id !in s.guards && !Refuses(s.word) && s'.word == Wrap(s.word + 1) && s'.guards == s.guards + {id})
  {
  }

  lemma IncrementRefinesGate(word: nat, guards: set<nat>, id: nat)
    requires word < WORD_SIZE && Active(word) == |guards| && id !in guards && !Refuses(word)
    ensures Wrap(word + 1) < WORD_SIZE && Active(Wrap(word + 1)) == |guards + {id}|
    ensures !Draining(word) && Active(word) < ACTIVE_MASK
    ensures Unpack(Wrap(word + 1)) == Gate(false, Unpack(word).active + 1)
  {
    UnpackIncrement(word);
    assert |guards + {id}| == |guards| + 1;
  }

  lemma ExchangeRefinesGate(s: System, id: nat, spurious: bool)
    requires Counted(s)
    ensures var s' := Exchange(s, id, spurious);
            && Counted(s') && GateStep(Unpack(s.word), Unpack(s'.word), CompareExchange(id, spurious))
            && (s'.guards <= s.guards || !Draining(s.word))
  {
    ExchangeCases(s, id, spurious);
    var s' := Exchange(s, id, spurious);
    if s'.guards != s.guards {
      IncrementRefinesGate(s.word, s.guards, id);
    } else if s'.word != s.word {
      assert false;
    }
  }

  lemma DropRefinesGate(s: System, id: nat)
    requires Counted(s)
    ensures Counted(Do(s, DropGuard(id))) && GateStep(Unpack(s.word), Unpack(Do(s, DropGuard(id)).word), DropGuard(id))
    ensures Do(s, DropGuard(id)).guards <= s.guards
  {
    if id in s.guards {
      UnpackDecrement(s.word);
    }
  }

  lemma StepRefinesGate(s: System, a: Action)
    requires Counted(s)
    ensures Counted(Do(s, a)) && GateStep(Unpack(s.word), Unpack(Do(s, a).word), a)
    ensures Do(s, a).guards <= s.guards || (a.CompareExchange? && !Draining(s.word))
  {
    match a
    case CompareExchange(id, spurious) => ExchangeRefinesGate(s, id, spurious);
    case DropGuard(id) => DropRefinesGate(s, id);
    case BeginDraining => UnpackSetDraining(s.word);
    case _ => assert Do(s, a).word == s.word && Do(s, a).guards == s.guards;
  }

  /** A compare-exchange registers exactly if it knows the word, does not fail spuriously, and the gate is open. */
  lemma RegistersIff(s: System, id: nat, spurious: bool)
    requires Counted(s) && id in s.attempts && id !in s.guards
    ensures var gate := Unpack(s.word);
      id in Do(s, CompareExchange(id, spurious)).guards <==>
        s.attempts[id] == s.word && !spurious && !gate.draining && gate.active < ACTIVE_MASK
  {
  }

  /** A refused attempt ends; any other failed one has read the word again. */
  lemma FailedExchangeRetriesOrEnds(s: System, id: nat, spurious: bool)
    requires id in s.attempts && id !in s.guards && id !in Do(s, CompareExchange(id, spurious)).guards
    ensures var s' := Do(s, CompareExchange(id, spurious));
      var seen := Unpack(s.attempts[id]);
      if seen.draining || seen.active == ACTIVE_MASK then id !in s'.attempts
      else id in s'.attempts && s'.attempts[id] == s.word
  {
  }

  /** Dropping a live guard takes it and one from the count; draining takes effect at once. */
  lemma DropsAndDrains(s: System, id: nat)
    requires Counted(s)
    ensures id in s.guards ==>
      var s' := Do(s, DropGuard(id));
      s'.guards == s.guards - {id} && Unpack(s'.word) == Unpack(s.word).(active := Active(s.word) - 1)
    ensures Unpack(Do(s, BeginDraining).word) == Gate(true, Active(s.word)) && Do(s, BeginDraining).guards == s.guards
  {
    if id in s.guards {
      UnpackDecrement(s.word);
    }
    UnpackSetDraining(s.word);
  }

  lemma {:induction false} RunKeepsCounted(s: System, actions: seq<Action>)
    requires Counted(s)
    ensures Counted(RunFrom(s, actions))
    decreases |actions|
  {
    if actions != [] {
      StepRefinesGate(s, actions[0]);
      RunKeepsCounted(Do(s, actions[0]), actions[1..]);
    }
  }

  /** In every reachable state the masked word is the number of live guards. */
  lemma WordCountsLiveGuards(actions: seq<Action>)
    ensures var s := RunFrom(INITIAL, actions);
            s.word < WORD_SIZE && Active(s.word) == |s.guards| <= ACTIVE_MASK
  {
    RunKeepsCounted(INITIAL, actions);
  }

  /** Once draining, always draining, and no guard is ever added again. */
  lemma {:induction false} DrainingIsFinal(s: System, actions: seq<Action>)
    requires Counted(s) && Draining(s.word)
    ensures Draining(RunFrom(s, actions).word)
    ensures RunFrom(s, actions).guards <= s.guards
    ensures Active(RunFrom(s, actions).word) <= Active(s.word)
    decreases |actions|
  {
    if actions != [] {
      var s' := Do(s, actions[0]);
      StepRefinesGate(s, actions[0]);
      DrainingIsFinal(s', actions[1..]);
    }
  }

  // ----- Waiting for idle

  lemma StepKeepsNoLostIdle(s: System, a: Action)
    requires Counted(s) && NoLostIdle(s)
    ensures NoLostIdle(Do(s, a))
  {
    StepRefinesGate(s, a);
  }

  lemma {:induction false} RunKeepsNoLostIdle(s: System, actions: seq<Action>)
    requires Counted(s) && NoLostIdle(s)
    ensures NoLostIdle(RunFrom(s, actions))
    decreases |actions|
  {
    if actions != [] {
      StepRefinesGate(s, actions[0]);
      StepKeepsNoLostIdle(s, actions[0]);
      RunKeepsNoLostIdle(Do(s, actions[0]), actions[1..]);
    }
  }

  /** No interleaving parks a wait on a zero count with nobody left to notify it. */
  lemma IdleWakeupIsNeverLost(actions: seq<Action>)
    ensures NoLostIdle(RunFrom(INITIAL, actions))
  {
    RunKeepsNoLostIdle(INITIAL, actions);
  }

  /** Apart from its timeout a wait returns only by reading a zero count, and such a read returns it. */
  lemma ReturnsIffIdle(s: System, a: Action, id: nat)
    requires id in s.waits && s.waits[id].phase != Returned && a != TimeoutWait(id)
    ensures Do(s, a).waits[id].phase == Returned <==>
      a == ReadCount(id) && s.waits[id].phase == Enabled && Active(s.word) == 0
  {
  }

  /** The steps still owed to a parked wait once the count is zero. */
  function IdleRescue(s: System, id: nat): seq<Action> {
    (if id in s.waits && s.waits[id].notified then [] else [NotifyWaiters])
    + [ResumeWait(id), EnableWait(id), ReadCount(id)]
  }

  lemma RunThree(s: System, a: Action, b: Action, c: Action)
    ensures RunFrom(s, [a, b, c]) == Do(Do(Do(s, a), b), c)
  {
    assert [a, b, c][1..] == [b, c] && [b, c][1..] == [c] && [c][1..] == [];
    assert RunFrom(Do(Do(s, a), b), [c]) == Do(Do(Do(s, a), b), c);
    assert RunFrom(Do(s, a), [b, c]) == RunFrom(Do(Do(s, a), b), [c]);
  }

  lemma NotifiedWaitReturns(s: System, id: nat)
    requires id in s.waits && s.waits[id] == IdleWait(Parked, true) && Active(s.word) == 0
    ensures var s' := RunFrom(s, [ResumeWait(id), EnableWait(id), ReadCount(id)]);
      id in s'.waits && s'.waits[id].phase == Returned
  {
    RunThree(s, ResumeWait(id), EnableWait(id), ReadCount(id));
  }

  /** In every reachable state a wait parked on a zero count returns by the notification owed to it. */
  lemma ParkedIdleWaitReturns(actions: seq<Action>, id: nat)
    requires var s := RunFrom(INITIAL, actions);
      id in s.waits && s.waits[id].phase == Parked && Active(s.word) == 0
    ensures var s := RunFrom(INITIAL, actions);
      var s' := RunFrom(s, IdleRescue(s, id));
      id in s'.waits && s'.waits[id].phase == Returned
  {
    var s := RunFrom(INITIAL, actions);
    var tail := [ResumeWait(id), EnableWait(id), ReadCount(id)];
    if s.waits[id].notified {
      assert IdleRescue(s, id) == tail;
      NotifiedWaitReturns(s, id);
    } else {
      IdleWakeupIsNeverLost(actions);
      assert IdleRescue(s, id)[0] == NotifyWaiters && IdleRescue(s, id)[1..] == tail;
      NotifiedWaitReturns(Do(s, NotifyWaiters), id);
    }
  }

  /** The reads of the count that a wait can still make once draining has begun. */
  function ReadsLeft(s: System, id: nat): nat {
    var w := if id in s.waits then s.waits[id] else IdleWait(Fresh, false);
    if w.phase == Returned then 0
    else if Active(s.word) == 0 then 1
    else
      s.notifiers + 1
      + (if w.notified then 1 else 0)
      + (if w.phase == Parked then 0 else 1)
  }

  predicate Reads(s: System, a: Action, id: nat) {
    a == ReadCount(id) && id in s.waits && s.waits[id].phase == Enabled
  }

  function CountReads(s: System, actions: seq<Action>, id: nat): nat
    decreases |actions|
  {
    if actions == [] then 0
    else (if Reads(s, actions[0], id) then 1 else 0) + CountReads(Do(s, actions[0]), actions[1..], id)
  }

  lemma StepSpendsReads(s: System, a: Action, id: nat)
    requires Counted(s) && Draining(s.word)
    ensures ReadsLeft(Do(s, a), id) + (if Reads(s, a, id) then 1 else 0) <= ReadsLeft(s, id)
  {
    StepRefinesGate(s, a);
  }

  /** Once draining, a wait reads the count at most `notifiers + 3` times, whatever the schedule. */
  lemma {:induction false} DrainingWaitIsBounded(s: System, actions: seq<Action>, id: nat)
    requires Counted(s) && Draining(s.word)
    ensures CountReads(s, actions, id) <= ReadsLeft(s, id) <= s.notifiers + 3
    decreases |actions|
  {
    if actions != [] {
      StepRefinesGate(s, actions[0]);
      StepSpendsReads(s, actions[0], id);
      DrainingWaitIsBounded(Do(s, actions[0]), actions[1..], id);
    }
  }

  // ----- The operations on the shared word

  class ConnectionState {
    var value: nat

    constructor ()
      ensures value == 0
    {
      value := 0;
    }

    /**
     `try_register` against an arbitrary environment: `writes[i]` is the value
     other threads leave in the word before attempt `i`, and `weak[i]` makes that
     exchange fail spuriously. The schedule of interference is finite.
     */
    method TryRegister(writes: seq<nat>, weak: seq<bool>) returns (registered: bool, ghost attempts: nat)
      requires value < WORD_SIZE && |writes| == |weak|
      requires forall i :: 0 <= i < |writes| ==> writes[i] < WORD_SIZE
      modifies this
      ensures attempts <= |writes|
      ensures var seen := if attempts == 0 then old(value) else writes[attempts - 1];
              if registered then !Refuses(seen) && Unpack(value) == Gate(false, Active(seen) + 1)
              else Refuses(seen) && value == seen
    {
      var observed := value;
      var i := 0;
      attempts := 0;
      while true
        invariant i == attempts <= |writes|
        invariant value == observed == if i == 0 then old(value) else writes[i - 1]
        invariant value < WORD_SIZE
        decreases |writes| - i
      {
        if Refuses(observed) {
          return false, attempts;
        }
        var spurious := false;
        if i < |writes| {
          value, spurious := writes[i], weak[i];
          i, attempts := i + 1, attempts + 1;
        }
        if value == observed && !spurious {
          UnpackIncrement(value);
          value := Wrap(observed + 1);
          return true, attempts;
        }
        observed := value;
      }
    }

    /** `begin_draining`: whether it must notify because the count was already zero. */
    method BeginDraining() returns (notify: bool)
      requires value < WORD_SIZE
      modifies this
      ensures Unpack(value) == Gate(true, old(Active(value)))
      ensures notify <==> old(Active(value)) == 0
    {
      var previous := value;
      UnpackSetDraining(previous);
      value := SetDraining(previous);
      notify := Active(previous) == 0;
    }

    /** `Drop for ActiveConnection`: notifies exactly when the last guard leaves. */
    method DropGuard() returns (notify: bool)
      requires value < WORD_SIZE && Active(value) > 0
      modifies this
      ensures Unpack(value) == Gate(old(Draining(value)), old(Active(value)) - 1)
      ensures notify <==> Active(value) == 0
    {
      var previous := value;
      UnpackDecrement(previous);
      value := Wrap(previous - 1);
      notify := Active(previous) == 1;
    }
  }
}
