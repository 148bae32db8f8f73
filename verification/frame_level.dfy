/**
 adjustFrameLevel under any number of concurrent callers. A step is one atomic load or one compare-and-swap.
 `order` records each call when it takes effect: at its load if it changes nothing, else at its successful swap.
 */
module FrameLevel {
  const FRAME_SIZES: seq<nat> := [2048, 4096, 8192, 16384, 32768]

  function Clamp(x: int): (y: int)
    ensures 0 <= y < |FRAME_SIZES|
  {
    if x < 0 then 0 else if x > 4 then 4 else x
  }

  /** What an adjustment by `delta` makes of level v: v + delta, cut off at 0 and at 4. */
  predicate Adjusted(v: int, delta: int, w: int) {
    && (0 <= v + delta <= 4 ==> w == v + delta)
    && (v + delta < 0 ==> w == 0)
    && (v + delta > 4 ==> w == 4)
  }

  lemma ClampAdjusts(v: int, delta: int)
    ensures Adjusted(v, delta, Clamp(v + delta))
  {
  }

  datatype Phase =
    | Start                        // about to load
    | Loaded(old_: int, at: nat)   // has loaded old_ when `at` swaps had succeeded
    | Done

  datatype Call = Call(delta: int, invoked: nat, phase: Phase) // invoked: how many calls had taken effect before

  datatype State = State(level: int, swaps: nat, calls: seq<Call>, order: seq<nat>)

  datatype Event = Invoke(delta: int) | Load(c: nat) | Swap(c: nat)

  predicate Enabled(s: State, e: Event) {
    match e
    case Invoke(_) => true
    case Load(c) => c < |s.calls| && s.calls[c].phase.Start?
    case Swap(c) => c < |s.calls| && s.calls[c].phase.Loaded?
  }

  function Goto(s: State, c: nat, next: Phase): State
    requires c < |s.calls|
  {
    s.(calls := s.calls[c := s.calls[c].(phase := next)])
  }

  function Step(s: State, e: Event): State
    requires Enabled(s, e)
  {
    match e
    case Invoke(delta) => s.(calls := s.calls + [Call(delta, |s.order|, Start)])
    case Load(c) =>
      if Clamp(s.level + s.calls[c].delta) == s.level then Goto(s, c, Done).(order := s.order + [c])
      else Goto(s, c, Loaded(s.level, s.swaps))
    case Swap(c) =>
      var old_ := s.calls[c].phase.old_;
      if s.level == old_
      then Goto(s, c, Done).(level := Clamp(old_ + s.calls[c].delta), swaps := s.swaps + 1, order := s.order + [c])
      else Goto(s, c, Start)
  }

  ghost predicate IsRun(start: int, states: seq<State>, events: seq<Event>) {
    && |states| == |events| + 1
    && states[0] == State(start, 0, [], [])
    && (forall i :: 0 <= i < |events| ==> Enabled(states[i], events[i]) && states[i + 1] == Step(states[i], events[i]))
  }

  predicate KnownCalls(order: seq<nat>, calls: seq<Call>) {
    forall k :: 0 <= k < |order| ==> order[k] < |calls|
  }

  /** The level after the calls of `order`, executed one after the other. */
  function Fold(start: int, order: seq<nat>, calls: seq<Call>): int
    requires KnownCalls(order, calls)
  {
    if order == [] then start
    else Clamp(Fold(start, order[..|order| - 1], calls) + calls[order[|order| - 1]].delta)
  }

  lemma {:induction false} FoldSameDeltas(start: int, order: seq<nat>, calls: seq<Call>, more: seq<Call>)
    requires KnownCalls(order, calls) && |calls| <= |more|
    requires forall c :: 0 <= c < |calls| ==> calls[c].delta == more[c].delta
    ensures Fold(start, order, calls) == Fold(start, order, more)
  {
    if order != [] {
      FoldSameDeltas(start, order[..|order| - 1], calls, more);
    }
  }

  ghost predicate Sequential(start: int, s: State) {
    KnownCalls(s.order, s.calls) && s.level == Fold(start, s.order, s.calls)
  }

  /** Exactly the completed calls are in the order, once each, none before a call that ended before it began. */
  ghost predicate Complete(s: State) {
    && KnownCalls(s.order, s.calls)
    && (forall k :: 0 <= k < |s.order| ==> s.calls[s.order[k]].phase.Done? && s.calls[s.order[k]].invoked <= k)
    && (forall j, k :: 0 <= j < k < |s.order| ==> s.order[j] != s.order[k])
    && (forall c :: 0 <= c < |s.calls| && s.calls[c].phase.Done? ==> c in s.order)
    && (forall c :: 0 <= c < |s.calls| ==> s.calls[c].invoked <= |s.order|)
  }

  /** A loaded value is stale only if a swap succeeded since. */
  ghost predicate Fresh(s: State) {
    && 0 <= s.level < |FRAME_SIZES|
    && (forall c :: 0 <= c < |s.calls| && s.calls[c].phase.Loaded? ==>
          && 0 <= s.calls[c].phase.old_ < |FRAME_SIZES| && s.calls[c].phase.at <= s.swaps
          && (s.calls[c].phase.at == s.swaps ==> s.calls[c].phase.old_ == s.level))
  }

  lemma SequentialPreserved(start: int, s: State, e: Event)
    requires Sequential(start, s) && Fresh(s) && Enabled(s, e)
    ensures Sequential(start, Step(s, e))
  {
    var t := Step(s, e);
    FoldSameDeltas(start, s.order, s.calls, t.calls);
    if |t.order| > |s.order| {
      assert t.order[..|t.order| - 1] == s.order;
    }
  }

  /** A call that takes effect goes to the end of the order; the level does not matter here. */
  lemma FinishComplete(s: State, c: nat)
    requires Complete(s) && c < |s.calls| && !s.calls[c].phase.Done?
    ensures Complete(Goto(s, c, Done).(order := s.order + [c]))
  {
    var t := Goto(s, c, Done).(order := s.order + [c]);
    assert t.order[|s.order|] == c;
    forall d | 0 <= d < |t.calls| && t.calls[d].phase.Done? ensures d in t.order {
      if d in s.order {
        var k :| 0 <= k < |s.order| && s.order[k] == d;
        assert t.order[k] == d;
      }
    }
  }

  lemma CompletePreserved(s: State, e: Event)
    requires Complete(s) && Enabled(s, e)
    ensures Complete(Step(s, e))
  {
    if !e.Invoke? {
      FinishComplete(s, e.c);
    }
  }

  lemma FreshPreserved(s: State, e: Event)
    requires Fresh(s) && Enabled(s, e)
    ensures Fresh(Step(s, e))
  {
  }

  lemma {:induction false} RunInv(start: int, states: seq<State>, events: seq<Event>, i: nat)
    requires 0 <= start < |FRAME_SIZES| && IsRun(start, states, events) && i < |states|
    ensures Sequential(start, states[i]) && Complete(states[i]) && Fresh(states[i])
  {
    if i > 0 {
      RunInv(start, states, events, i - 1);
      SequentialPreserved(start, states[i - 1], events[i - 1]);
      CompletePreserved(states[i - 1], events[i - 1]);
      FreshPreserved(states[i - 1], events[i - 1]);
    }
  }

  /** Each call of the order adjusts the level that the calls before it have left. */
  lemma FoldAdjusts(start: int, order: seq<nat>, calls: seq<Call>, k: nat)
    requires KnownCalls(order, calls) && k < |order|
    ensures KnownCalls(order[..k], calls) && KnownCalls(order[..k + 1], calls)
    ensures Adjusted(Fold(start, order[..k], calls), calls[order[k]].delta, Fold(start, order[..k + 1], calls))
  {
    assert order[..k + 1][..k] == order[..k];
  }

  /** The levels between the calls of an order. */
  ghost predicate Levels(start: int, order: seq<nat>, calls: seq<Call>, levels: seq<int>)
    requires KnownCalls(order, calls)
  {
    && |levels| == |order| + 1 && levels[0] == start
    && (forall k :: 0 <= k < |levels| ==> 0 <= levels[k] <= 4)
    && (forall k :: 0 <= k < |order| ==> Adjusted(levels[k], calls[order[k]].delta, levels[k + 1]))
  }

  lemma {:induction false} FoldHasLevels(start: int, order: seq<nat>, calls: seq<Call>) returns (levels: seq<int>)
    requires KnownCalls(order, calls) && 0 <= start <= 4
    ensures Levels(start, order, calls, levels) && levels[|order|] == Fold(start, order, calls)
  {
    if order == [] {
      levels := [start];
    } else {
      var n := |order| - 1;
      levels := FoldHasLevels(start, order[..n], calls);
      levels := levels + [Fold(start, order, calls)];
      ClampAdjusts(Fold(start, order[..n], calls), calls[order[n]].delta);
    }
  }

  /**
   Linearizability: in every run there is an order of exactly the completed calls, each once and behind all `invoked`
   calls that had taken effect when it was invoked, in which every call adjusts the level that the one before it
   has left, from the first level to the current one; all levels are 0 to 4.
   */
  lemma Linearizable(start: int, states: seq<State>, events: seq<Event>, i: nat)
    requires 0 <= start <= 4 && IsRun(start, states, events) && i < |states|
    ensures var s := states[i];
            && 0 <= s.level <= 4 && KnownCalls(s.order, s.calls) && s.level == Fold(start, s.order, s.calls)
            && (exists levels :: Levels(start, s.order, s.calls, levels) && levels[|s.order|] == s.level)
            && (forall c :: 0 <= c < |s.calls| ==> (s.calls[c].phase.Done? <==> c in s.order))
            && (forall j, k :: 0 <= j < k < |s.order| ==> s.order[j] != s.order[k])
            && (forall k :: 0 <= k < |s.order| ==> s.calls[s.order[k]].invoked <= k)
  {
    RunInv(start, states, events, i);
    var _ := FoldHasLevels(start, states[i].order, states[i].calls);
  }

  /** Every successful swap moves the level towards the sign of its delta, by at most as much. */
  lemma SwapMoves(start: int, states: seq<State>, events: seq<Event>, i: nat, c: nat)
    requires 0 <= start <= 4 && IsRun(start, states, events) && i < |events|
    requires events[i] == Swap(c) && states[i + 1].calls[c].phase.Done?
    ensures var delta, moved := states[i].calls[c].delta, states[i + 1].level - states[i].level;
            if delta >= 0 then 0 <= moved <= delta else delta <= moved <= 0
    ensures states[i + 1].swaps == states[i].swaps + 1
  {
    RunInv(start, states, events, i);
  }

  /** A compare-and-swap fails only if another caller's succeeded between the load and now. */
  lemma SwapFailsOnlyOnProgress(start: int, states: seq<State>, events: seq<Event>, i: nat, c: nat)
    requires 0 <= start < |FRAME_SIZES| && IsRun(start, states, events) && i < |events|
    requires events[i] == Swap(c) && states[i + 1].calls[c].phase.Start?
    ensures states[i].swaps > states[i].calls[c].phase.at
    ensures 0 <= states[i].calls[c].phase.old_ < |FRAME_SIZES| == 5
  {
    RunInv(start, states, events, i);
  }

  /**
   Without interference a call ends at its first swap, or at once if it changes nothing: at v + delta when that is
   a level, at 0 when it is below, at 4 when it is above.
   */
  lemma AloneSucceeds(s: State, c: nat)
    requires Fresh(s) && Enabled(s, Load(c))
    ensures var t := Step(s, Load(c));
            var u := if t.calls[c].phase.Done? then t else Step(t, Swap(c));
            && u.calls[c].phase.Done? && Adjusted(s.level, s.calls[c].delta, u.level)
            && (t.calls[c].phase.Done? <==> u.level == s.level)
  {
  }
}
