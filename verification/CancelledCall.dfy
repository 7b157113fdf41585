/**
 `CancellationToken::cancelled` of gateway-core/src/lifecycle.rs: one call waits on
 the state of its token and of every ancestor at once. The token tree is composed
 with one racing cell per state.
 */
module CancelledCall {
  import opened Common
  import opened Cancellation

  /**
   The tree, the cell of each token, the token each waiting call is about, and the
   calls that returned at once. The waiter of call `w` has number `w` in every cell.
   */
  datatype Group = Group(forest: Forest, cells: seq<Cell>, calls: map<nat, nat>, early: map<nat, nat>)

  datatype Step =
    | Make(parent: Option<nat>)
    | Call(w: nat, token: nat)
    | On(token: nat, action: Action)

  const NO_TOKENS: Group := Group(Forest([], [], {}), [], map[], map[])

  /** The states a call on `y` waits for. */
  predicate Awaits(f: Forest, y: nat, x: nat) {
    x == y || (y < |f.chains| && x in f.chains[y])
  }

  function StartAll(g: Group, w: nat, y: nat): seq<Cell> {
    seq(|g.cells|, x requires 0 <= x < |g.cells| =>
      if Awaits(g.forest, y, x) then Do(g.cells[x], StartWait(w)) else g.cells[x])
  }

  /** One atomic step; a step that is not enabled changes nothing. */
  function Advance(g: Group, s: Step): Group {
    match s
    case Make(None) => g.(forest := Grow(g.forest, NewToken), cells := g.cells + [IDLE])
    case Make(Some(p)) =>
      if p >= |g.cells| then g else g.(forest := Grow(g.forest, NewChild(p)), cells := g.cells + [IDLE])
    case Call(w, y) =>
      if y >= |g.cells| || w in g.calls || w in g.early then g
      else if IsCancelled(g.forest, y) then g.(early := g.early[w := y])
      else g.(cells := StartAll(g, w, y), calls := g.calls[w := y])
    case On(x, a) =>
      if x >= |g.cells| || a.StartWait? then g
      else g.(cells := g.cells[x := Do(g.cells[x], a)],
              forest := if a.Swap? then Grow(g.forest, CancelToken(x)) else g.forest)
  }

  function RunFrom(g: Group, steps: seq<Step>): Group
    decreases |steps|
  {
    if steps == [] then g else RunFrom(Advance(g, steps[0]), steps[1..])
  }

  // ----- What every step keeps

  ghost predicate CellsOk(g: Group) {
    && |g.cells| == |g.forest.chains|
    && (forall x :: 0 <= x < |g.cells| ==> CellOk(g.cells[x]))
    && (forall x :: 0 <= x < |g.cells| ==> (g.cells[x].cancelled <==> x in g.forest.cancelled))
    && (forall x :: x in g.forest.cancelled ==> x < |g.cells|)
  }

  /** A call has a waiter in the cell of every state it awaits. */
  ghost predicate CallsOk(g: Group) {
    && (forall w :: w in g.calls ==> g.calls[w] < |g.cells|)
    && (forall w, x :: w in g.calls && 0 <= x < |g.cells| && Awaits(g.forest, g.calls[w], x) ==> w in g.cells[x].tasks)
  }

  ghost predicate EarlyOk(g: Group) {
    forall w :: w in g.early ==> g.early[w] < |g.cells| && IsCancelled(g.forest, g.early[w])
  }

  ghost predicate GroupOk(g: Group) {
    TreeOk(g.forest) && CellsOk(g) && CallsOk(g) && EarlyOk(g)
  }

  /** A new token at the end of the tree changes nothing for the others. */
  ghost predicate Extended(g: Group, g': Group) {
    && |g.cells| == |g.forest.chains|
    && g'.cells == g.cells + [IDLE]
    && |g'.forest.chains| == |g.forest.chains| + 1 && g'.forest.chains[..|g.forest.chains|] == g.forest.chains
    && g'.forest.cancelled == g.forest.cancelled && g'.calls == g.calls && g'.early == g.early
  }

  lemma NewestNotAwaited(f: Forest, y: nat)
    requires TreeOk(f) && y < |f.chains|
    ensures !Awaits(f, y, |f.chains|)
  {
    ChainIsAncestors(f, y, |f.chains|);
  }

  lemma ExtendedCellsOk(g: Group, g': Group)
    requires Extended(g, g') && CellsOk(g)
    ensures CellsOk(g')
  {
  }

  lemma ExtendedCallsOk(g: Group, g': Group)
    requires Extended(g, g') && TreeOk(g.forest) && CallsOk(g)
    ensures CallsOk(g')
  {
    forall w, x | w in g'.calls && 0 <= x < |g'.cells| && Awaits(g'.forest, g'.calls[w], x)
      ensures w in g'.cells[x].tasks
    {
      var y := g.calls[w];
      assert g'.forest.chains[y] == g.forest.chains[y];
      NewestNotAwaited(g.forest, y);
      assert Awaits(g.forest, y, x);
    }
  }

  lemma ExtendedEarlyOk(g: Group, g': Group)
    requires Extended(g, g') && EarlyOk(g)
    ensures EarlyOk(g')
  {
    forall w | w in g'.early
      ensures IsCancelled(g'.forest, g'.early[w])
    {
      assert g'.forest.chains[g.early[w]] == g.forest.chains[g.early[w]];
    }
  }

  lemma MakeKeepsOk(g: Group, parent: Option<nat>)
    requires GroupOk(g)
    ensures GroupOk(Advance(g, Make(parent)))
  {
    var g' := Advance(g, Make(parent));
    if parent.None? || parent.value < |g.cells| {
      GrowKeepsTreeOk(g.forest, if parent.None? then NewToken else NewChild(parent.value));
      assert Extended(g, g');
      ExtendedCellsOk(g, g');
      ExtendedCallsOk(g, g');
      ExtendedEarlyOk(g, g');
    }
  }

  lemma CallKeepsCells(g: Group, w: nat, y: nat)
    requires CellsOk(g)
    ensures CellsOk(g.(cells := StartAll(g, w, y)))
  {
    var cells := StartAll(g, w, y);
    forall x | 0 <= x < |cells|
      ensures CellOk(cells[x]) && cells[x].cancelled == g.cells[x].cancelled
    {
      DoKeepsCellOk(g.cells[x], StartWait(w));
    }
  }

  lemma CallKeepsCalls(g: Group, w: nat, y: nat)
    requires CallsOk(g) && y < |g.cells| && w !in g.calls
    ensures CallsOk(g.(cells := StartAll(g, w, y), calls := g.calls[w := y]))
  {
    assert forall x, v :: 0 <= x < |g.cells| && v in g.cells[x].tasks ==> v in StartAll(g, w, y)[x].tasks;
  }

  lemma CallKeepsOk(g: Group, w: nat, y: nat)
    requires GroupOk(g)
    ensures GroupOk(Advance(g, Call(w, y)))
  {
    if y < |g.cells| && w !in g.calls && w !in g.early && !IsCancelled(g.forest, y) {
      CallKeepsCells(g, w, y);
      CallKeepsCalls(g, w, y);
    }
  }

  lemma OnKeepsCells(g: Group, x: nat, a: Action)
    requires CellsOk(g) && x < |g.cells| && !a.StartWait?
    ensures CellsOk(Advance(g, On(x, a)))
  {
    DoKeepsCellOk(g.cells[x], a);
  }

  lemma OnKeepsCalls(g: Group, x: nat, a: Action)
    requires CallsOk(g) && x < |g.cells| && !a.StartWait?
    ensures CallsOk(Advance(g, On(x, a)))
  {
    var g' := Advance(g, On(x, a));
    assert g'.forest.chains == g.forest.chains;
    forall w, z | w in g'.calls && 0 <= z < |g'.cells| && Awaits(g'.forest, g'.calls[w], z)
      ensures w in g'.cells[z].tasks
    {
      assert Awaits(g.forest, g.calls[w], z);
    }
  }

  lemma OnKeepsOk(g: Group, x: nat, a: Action)
    requires GroupOk(g)
    ensures GroupOk(Advance(g, On(x, a)))
  {
    if x < |g.cells| && !a.StartWait? {
      GrowKeepsTreeOk(g.forest, CancelToken(x));
      OnKeepsCells(g, x, a);
      OnKeepsCalls(g, x, a);
    }
  }

  lemma {:induction false} RunKeepsOk(g: Group, steps: seq<Step>)
    requires GroupOk(g)
    ensures GroupOk(RunFrom(g, steps))
    decreases |steps|
  {
    if steps != [] {
      match steps[0] {
        case Make(parent) => MakeKeepsOk(g, parent);
        case Call(w, y) => CallKeepsOk(g, w, y);
        case On(x, a) => OnKeepsOk(g, x, a);
      }
      RunKeepsOk(Advance(g, steps[0]), steps[1..]);
    }
  }

  // ----- The laws of a call

  /** The call has returned: at once, or because the waiter of an awaited state returned. */
  ghost predicate HasReturned(g: Group, w: nat, y: nat) {
    || (w in g.early && g.early[w] == y)
    || (w in g.calls && g.calls[w] == y
        && exists x :: 0 <= x < |g.cells| && Reaches(g.forest, y, x) && In(g.cells[x], w, Returned))
  }

  lemma AwaitsIffReaches(f: Forest, y: nat, x: nat)
    requires TreeOk(f) && y < |f.chains|
    ensures Awaits(f, y, x) <==> Reaches(f, y, x)
  {
    ChainIsAncestors(f, y, x);
  }

  /** A call returns only if its token or an ancestor of it was cancelled. */
  lemma ReturnsOnlyIfCancelled(steps: seq<Step>, w: nat, y: nat)
    requires HasReturned(RunFrom(NO_TOKENS, steps), w, y)
    ensures IsCancelled(RunFrom(NO_TOKENS, steps).forest, y)
  {
    var g := RunFrom(NO_TOKENS, steps);
    RunKeepsOk(NO_TOKENS, steps);
    if w in g.calls && g.calls[w] == y {
      CancelledIffReached(g.forest, y);
    }
  }

  /** The call is suspended: its waiter is listed in every cell and has no signal. */
  ghost predicate Suspended(g: Group, w: nat) {
    && w in g.calls
    && forall x :: 0 <= x < |g.cells| && Reaches(g.forest, g.calls[w], x) ==>
         In(g.cells[x], w, Listed) && w !in g.cells[x].signalled
  }

  /** The canceller of `x` has still to take the list or to signal `w`. */
  predicate StillOwed(g: Group, x: nat, w: nat) {
    x < |g.cells| && (g.cells[x].winner == Swapped || w in g.cells[x].unsent)
  }

  /** While a call is suspended, every cancelled state it awaits still owes it a signal. */
  lemma NoCallIsLeftBehind(steps: seq<Step>, w: nat, x: nat)
    requires Suspended(RunFrom(NO_TOKENS, steps), w)
    requires var g := RunFrom(NO_TOKENS, steps); Reaches(g.forest, g.calls[w], x) && x in g.forest.cancelled
    requires x < |RunFrom(NO_TOKENS, steps).cells|
    ensures StillOwed(RunFrom(NO_TOKENS, steps), x, w)
  {
    RunKeepsOk(NO_TOKENS, steps);
    var g := RunFrom(NO_TOKENS, steps);
    assert CellOk(g.cells[x]);
    assert In(g.cells[x], w, Listed);
  }

  /** The same steps in the cell of `x`. */
  function OnAll(x: nat, actions: seq<Action>): seq<Step> {
    seq(|actions|, i requires 0 <= i < |actions| => On(x, actions[i]))
  }

  lemma {:induction false} RunOnCell(g: Group, x: nat, actions: seq<Action>)
    requires x < |g.cells| && OnlyProgress(actions)
    ensures RunFrom(g, OnAll(x, actions)) == g.(cells := g.cells[x := Cancellation.RunFrom(g.cells[x], actions)])
    decreases |actions|
  {
    if actions == [] {
      assert g.cells[x := g.cells[x]] == g.cells;
    } else {
      var g' := Advance(g, On(x, actions[0]));
      assert OnAll(x, actions)[0] == On(x, actions[0]) && OnAll(x, actions)[1..] == OnAll(x, actions[1..]);
      RunOnCell(g', x, actions[1..]);
      assert g'.cells[x := Cancellation.RunFrom(g'.cells[x], actions[1..])]
          == g.cells[x := Cancellation.RunFrom(g.cells[x], actions)];
    }
  }

  /**
   Whenever a token or an ancestor of it has been cancelled, every call on the token
   that was not dropped can return by steps already owed to it: no new cancellation
   and no timeout is needed.
   */
  lemma CancelledCallReturns(steps: seq<Step>, w: nat, x: nat) returns (rescue: seq<Action>)
    requires var g := RunFrom(NO_TOKENS, steps);
      && w in g.calls && x < |g.cells| && Reaches(g.forest, g.calls[w], x) && x in g.forest.cancelled
      && !In(g.cells[x], w, Gone)
    ensures OnlyProgress(rescue)
    ensures var g := RunFrom(NO_TOKENS, steps);
      HasReturned(RunFrom(g, OnAll(x, rescue)), w, g.calls[w])
  {
    RunKeepsOk(NO_TOKENS, steps);
    var g := RunFrom(NO_TOKENS, steps);
    AwaitsIffReaches(g.forest, g.calls[w], x);
    rescue := CancelledWaitReturns(g.cells[x], w);
    RunOnCell(g, x, rescue);
    var g' := RunFrom(g, OnAll(x, rescue));
    assert In(g'.cells[x], w, Returned);
  }
}
