/** The canonical event order validator of gateway-core/src/event.rs. */
module EventOrder {
  import opened Common

  datatype ContentKind = Text | Reasoning | ToolCall | Image | Audio

  /** A gateway event; payloads the validator does not read are left out. */
  datatype GatewayEvent =
    | Started
    | ContentAdded(index: nat, kind: ContentKind)
    | TextDelta(contentIndex: nat)
    | ReasoningDelta(contentIndex: nat)
    | ToolCallDelta(contentIndex: nat)
    | Accounting
    | Completed

  datatype SequenceError =
    | MissingStarted
    | DuplicateStarted
    | DuplicateContent(index: nat)
    | InvalidDeltaTarget(index: nat)
    | EventAfterCompleted
    | MissingCompleted

  datatype Validator = Validator(started: bool, completed: bool, content: map<nat, ContentKind>)

  const EMPTY: Validator := Validator(false, false, map[])

  /** The content a delta must find, if the event is a delta. */
  function Target(e: GatewayEvent): Option<(nat, ContentKind)> {
    match e
    case TextDelta(i) => Some((i, Text))
    case ReasoningDelta(i) => Some((i, Reasoning))
    case ToolCallDelta(i) => Some((i, ToolCall))
    case _ => None
  }

  predicate HasContent(v: Validator, index: nat, kind: ContentKind) {
    index in v.content && v.content[index] == kind
  }

  /** The error of `observe`, if any. */
  function Fault(v: Validator, e: GatewayEvent): Option<SequenceError> {
    if v.completed then Some(EventAfterCompleted)
    else if !v.started && !e.Started? then Some(MissingStarted)
    else if e.Started? && v.started then Some(DuplicateStarted)
    else if e.ContentAdded? && e.index in v.content then Some(DuplicateContent(e.index))
    else if Target(e).Some? && !HasContent(v, Target(e).value.0, Target(e).value.1) then
      Some(InvalidDeltaTarget(Target(e).value.0))
    else None
  }

  /** The state after an accepted event. */
  function Observed(v: Validator, e: GatewayEvent): Validator {
    match e
    case Started => v.(started := true)
    case ContentAdded(index, kind) => v.(content := v.content[index := kind])
    case Completed => v.(completed := true)
    case _ => v
  }

  /** The state after any event: of the rejected ones only a duplicate content leaves a trace. */
  function Next(v: Validator, e: GatewayEvent): Validator {
    match Fault(v, e)
    case None => Observed(v, e)
    case Some(DuplicateContent(index)) => Observed(v, e)
    case _ => v
  }

  class EventSequenceValidator {
    var started: bool
    var completed: bool
    var content: map<nat, ContentKind>

    function View(): Validator
      reads this
    {
      Validator(started, completed, content)
    }

    constructor ()
      ensures View() == EMPTY
    {
      started, completed, content := false, false, map[];
    }

    method RequireContent(index: nat, expected: ContentKind) returns (r: Option<SequenceError>)
      ensures r == if HasContent(View(), index, expected) then None else Some(InvalidDeltaTarget(index))
    {
      return if index in content && content[index] == expected then None else Some(InvalidDeltaTarget(index));
    }

    /** `observe`: `None` is success. */
    method Observe(e: GatewayEvent) returns (r: Option<SequenceError>)
      modifies this
      ensures r == Fault(old(View()), e)
      ensures View() == Next(old(View()), e)
    {
      if completed {
        return Some(EventAfterCompleted);
      }
      if !started && !e.Started? {
        return Some(MissingStarted);
      }
      match e {
        case Started =>
          if started {
            return Some(DuplicateStarted);
          }
          started := true;
        case ContentAdded(index, kind) =>
          var duplicate := index in content;
          content := content[index := kind];
          if duplicate {
            return Some(DuplicateContent(index));
          }
        case TextDelta(index) =>
          r := RequireContent(index, Text);
          return;
        case ReasoningDelta(index) =>
          r := RequireContent(index, Reasoning);
          return;
        case ToolCallDelta(index) =>
          r := RequireContent(index, ToolCall);
          return;
        case Accounting =>
        case Completed =>
          completed := true;
      }
      return None;
    }

    /** `finish`. */
    method Finish() returns (r: Option<SequenceError>)
      ensures r.None? <==> started && completed
      ensures !started ==> r == Some(MissingStarted)
      ensures started && !completed ==> r == Some(MissingCompleted)
    {
      if !started {
        return Some(MissingStarted);
      }
      if !completed {
        return Some(MissingCompleted);
      }
      return None;
    }
  }

  // ----- Whole streams

  /** The state after observing all events without error, if there was none. */
  function ObserveAll(events: seq<GatewayEvent>): Option<Validator> {
    if events == [] then Some(EMPTY)
    else
      var n := |events| - 1;
      match ObserveAll(events[..n])
      case None => None
      case Some(v) => if Fault(v, events[n]).None? then Some(Observed(v, events[n])) else None
  }

  predicate Accepts(events: seq<GatewayEvent>) {
    var v := ObserveAll(events);
    v.Some? && v.value.started && v.value.completed
  }

  /** Feeding a stream to the validator and finishing it. */
  method Validate(events: seq<GatewayEvent>) returns (ok: bool)
    ensures ok <==> Accepts(events)
  {
    var v := new EventSequenceValidator();
    for i := 0 to |events|
      invariant ObserveAll(events[..i]) == Some(v.View())
    {
      assert events[..i + 1][..i] == events[..i];
      var fault := v.Observe(events[i]);
      if fault.Some? {
        RejectedPrefix(events, i + 1);
        return false;
      }
    }
    assert events[..|events|] == events;
    var fault := v.Finish();
    return fault.None?;
  }

  lemma {:induction false} RejectedPrefix(events: seq<GatewayEvent>, n: nat)
    requires n <= |events| && ObserveAll(events[..n]).None?
    ensures ObserveAll(events).None?
    decreases |events| - n
  {
    if n < |events| {
      assert events[..n + 1][..n] == events[..n];
      RejectedPrefix(events, n + 1);
    } else {
      assert events[..n] == events;
    }
  }

  ghost predicate AddedBefore(events: seq<GatewayEvent>, i: nat, index: nat, kind: ContentKind)
    requires i <= |events|
  {
    exists j :: 0 <= j < i && events[j] == ContentAdded(index, kind)
  }

  /** No event but the first is `Started`, and only the last may be `Completed`. */
  ghost predicate Framed(events: seq<GatewayEvent>) {
    && (forall i :: 0 <= i < |events| ==> (events[i].Started? <==> i == 0))
    && (forall i :: 0 <= i < |events| - 1 ==> !events[i].Completed?)
  }

  /** No index is added twice, and every delta names an index added earlier with its kind. */
  ghost predicate ContentOk(events: seq<GatewayEvent>) {
    && (forall i, j :: 0 <= i < j < |events| && events[i].ContentAdded? && events[j].ContentAdded? ==>
          events[i].index != events[j].index)
    && (forall i :: 0 <= i < |events| && Target(events[i]).Some? ==>
          AddedBefore(events, i, Target(events[i]).value.0, Target(events[i]).value.1))
  }

  ghost predicate WellOrdered(events: seq<GatewayEvent>) {
    events != [] && events[|events| - 1].Completed? && Framed(events) && ContentOk(events)
  }

  /** The validator state in terms of the events observed. */
  ghost predicate Tracks(v: Validator, events: seq<GatewayEvent>) {
    && (v.started <==> events != [])
    && (v.completed <==> events != [] && events[|events| - 1].Completed?)
    && (forall index, kind :: HasContent(v, index, kind) <==> AddedBefore(events, |events|, index, kind))
  }

  lemma AddedBeforeExtends(events: seq<GatewayEvent>, i: nat, index: nat, kind: ContentKind)
    requires i < |events|
    ensures AddedBefore(events[..|events| - 1], i, index, kind) <==> AddedBefore(events, i, index, kind)
    ensures AddedBefore(events, i + 1, index, kind) <==>
      AddedBefore(events, i, index, kind) || events[i] == ContentAdded(index, kind)
  {
    var front := events[..|events| - 1];
    assert forall j :: 0 <= j < i ==> front[j] == events[j];
  }

  lemma FramedStep(front: seq<GatewayEvent>, e: GatewayEvent)
    ensures Framed(front + [e]) <==>
      && Framed(front)
      && (e.Started? <==> front == [])
      && (front != [] ==> !front[|front| - 1].Completed?)
  {
    var events := front + [e];
    assert events[|front|] == e;
    assert forall i :: 0 <= i < |front| ==> events[i] == front[i];
    if Framed(events) {
      assert forall i :: 0 <= i < |front| ==> (front[i].Started? <==> i == 0) by {
        assert forall i :: 0 <= i < |front| ==> (events[i].Started? <==> i == 0);
      }
    }
  }

  lemma ContentStep(front: seq<GatewayEvent>, e: GatewayEvent)
    ensures ContentOk(front + [e]) <==>
      && ContentOk(front)
      && (e.ContentAdded? ==> forall kind :: !AddedBefore(front, |front|, e.index, kind))
      && (Target(e).Some? ==> AddedBefore(front, |front|, Target(e).value.0, Target(e).value.1))
  {
    var events := front + [e];
    assert events[..|front|] == front;
    forall i, index, kind | 0 <= i < |events|
      ensures AddedBefore(front, i, index, kind) <==> AddedBefore(events, i, index, kind)
    {
      AddedBeforeExtends(events, i, index, kind);
    }
    assert events[|front|] == e;
    forall i | 0 <= i < |front| && front[i].ContentAdded?
      ensures AddedBefore(front, |front|, front[i].index, front[i].kind)
    {
    }
    if ContentOk(events) {
      forall j | 0 <= j < |front| && e.ContentAdded? && front[j].ContentAdded?
        ensures front[j].index != e.index
      {
        assert events[j] == front[j];
      }
      forall i | 0 <= i < |front| && Target(front[i]).Some?
        ensures AddedBefore(front, i, Target(front[i]).value.0, Target(front[i]).value.1)
      {
        assert events[i] == front[i];
      }
      forall i, j | 0 <= i < j < |front| && front[i].ContentAdded? && front[j].ContentAdded?
        ensures front[i].index != front[j].index
      {
        assert events[i] == front[i] && events[j] == front[j];
      }
    }
  }

  /** A stream is observed without error exactly when it is framed and its content is right. */
  lemma {:induction false} ObservedIffOrdered(events: seq<GatewayEvent>)
    ensures ObserveAll(events).Some? <==> Framed(events) && ContentOk(events)
    ensures ObserveAll(events).Some? ==> Tracks(ObserveAll(events).value, events)
  {
    if events != [] {
      var n := |events| - 1;
      var front, e := events[..n], events[n];
      assert events == front + [e];
      ObservedIffOrdered(front);
      FramedStep(front, e);
      ContentStep(front, e);
      if ObserveAll(front).Some? {
        var v := ObserveAll(front).value;
        StepAgrees(v, front, e);
      }
    }
  }

  lemma StepAgrees(v: Validator, front: seq<GatewayEvent>, e: GatewayEvent)
    requires Tracks(v, front)
    ensures Fault(v, e).None? <==>
      && (e.Started? <==> front == [])
      && (front != [] ==> !front[|front| - 1].Completed?)
      && (e.ContentAdded? ==> forall kind :: !AddedBefore(front, |front|, e.index, kind))
      && (Target(e).Some? ==> AddedBefore(front, |front|, Target(e).value.0, Target(e).value.1))
    ensures Fault(v, e).None? ==> Tracks(Observed(v, e), front + [e])
  {
    var events := front + [e];
    if e.ContentAdded? {
      assert e.index in v.content <==> exists kind :: HasContent(v, e.index, kind) by {
        if e.index in v.content { assert HasContent(v, e.index, v.content[e.index]); }
      }
    }
    if Fault(v, e).None? {
      var v' := Observed(v, e);
      forall index, kind
        ensures HasContent(v', index, kind) <==> AddedBefore(events, |events|, index, kind)
      {
        assert events[..|front|] == front;
        AddedBeforeExtends(events, |front|, index, kind);
        assert HasContent(v, index, kind) <==> AddedBefore(front, |front|, index, kind);
        if e.ContentAdded? && e.index == index {
          assert !AddedBefore(front, |front|, index, kind);
        }
      }
    }
  }

  /** The error that the next event of a so far accepted stream gets, by the events before it. */
  lemma FaultIff(front: seq<GatewayEvent>, e: GatewayEvent)
    requires ObserveAll(front).Some?
    ensures var r := Fault(ObserveAll(front).value, e);
      var over := front != [] && front[|front| - 1].Completed?;
      && (r == Some(EventAfterCompleted) <==> over)
      && (r == Some(MissingStarted) <==> front == [] && !e.Started?)
      && (r == Some(DuplicateStarted) <==> front != [] && !over && e.Started?)
      && (forall i :: r == Some(DuplicateContent(i)) <==>
            front != [] && !over && e.ContentAdded? && e.index == i
            && exists kind :: AddedBefore(front, |front|, i, kind))
      && (forall i :: r == Some(InvalidDeltaTarget(i)) <==>
            front != [] && !over && Target(e).Some? && Target(e).value.0 == i
            && !AddedBefore(front, |front|, i, Target(e).value.1))
      && r != Some(MissingCompleted)
  {
    ObservedIffOrdered(front);
    var v := ObserveAll(front).value;
    if e.ContentAdded? {
      assert e.index in v.content <==> exists kind :: HasContent(v, e.index, kind) by {
        if e.index in v.content {
          assert HasContent(v, e.index, v.content[e.index]);
        }
      }
    }
  }

  /** The validator accepts a stream exactly when the stream is well ordered. */
  lemma AcceptsIffWellOrdered(events: seq<GatewayEvent>)
    ensures Accepts(events) <==> WellOrdered(events)
  {
    ObservedIffOrdered(events);
  }
}
