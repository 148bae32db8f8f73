/** Path choice of a pool worker: lowest measured latency, and failover after three short failures in a row. */
module Failover {
  import opened Bytes

  const MAX_FAILS := 3
  const SHORT_FAILURE := 30 // seconds
  const LONG_SESSION := 120

  // ---- bestPath ----

  /** 0 means not measured yet. The first of the lowest measured latencies, or path 0 if none is measured. */
  ghost predicate IsBest(latency: seq<nat>, i: nat) {
    && i < |latency|
    && (if exists k :: 0 <= k < |latency| && latency[k] > 0 then
          && latency[i] > 0
          && (forall k :: 0 <= k < |latency| && latency[k] > 0 ==> latency[i] <= latency[k])
          && (forall k :: 0 <= k < i && latency[k] > 0 ==> latency[i] < latency[k])
        else i == 0)
  }

  lemma BestUnique(latency: seq<nat>, i: nat, j: nat)
    requires IsBest(latency, i) && IsBest(latency, j)
    ensures i == j
  {
  }

  /** The loop of bestPath over the values it loads. */
  method BestPath(latency: seq<nat>) returns (best: nat)
    requires latency != []
    ensures IsBest(latency, best)
  {
    best := 0;
    if |latency| <= 1 {
      return;
    }
    var bestRTT := latency[0];
    var i := 1;
    while i < |latency|
      invariant 1 <= i <= |latency| && best < i && bestRTT == latency[best]
      invariant bestRTT == 0 ==> best == 0 && forall k :: 0 <= k < i ==> latency[k] == 0
      invariant bestRTT > 0 ==> forall k :: 0 <= k < i && latency[k] > 0 ==> bestRTT <= latency[k]
      invariant bestRTT > 0 ==> forall k :: 0 <= k < best && latency[k] > 0 ==> bestRTT < latency[k]
    {
      var rtt := latency[i];
      if rtt > 0 && (bestRTT == 0 || rtt < bestRTT) {
        best, bestRTT := i, rtt;
      }
      i := i + 1;
    }
  }

  // ---- the worker ----

  /** One turn of the worker's loop. `best` is what bestPath returns if it is asked. */
  datatype Event = Standby | Failed(short: bool, best: nat)

  datatype Worker = Worker(pathIdx: nat, failCount: nat)

  predicate ShortFailure(e: Event) {
    e.Failed? && e.short
  }

  function Step(w: Worker, e: Event, paths: nat): Worker
    requires paths > 0
  {
    match e
    case Standby => w.(failCount := 0)
    case Failed(short, best) =>
      var fails := if short then w.failCount + 1 else 0;
      if fails >= MAX_FAILS && paths > 1
      then Worker(if best == w.pathIdx then (w.pathIdx + 1) % paths else best, 0)
      else w.(failCount := fails)
  }

  function Run(w: Worker, events: seq<Event>, paths: nat): Worker
    requires paths > 0
  {
    if events == [] then w
    else Step(Run(w, events[..|events| - 1], paths), events[|events| - 1], paths)
  }

  predicate InRange(events: seq<Event>, paths: nat) {
    forall i :: 0 <= i < |events| && events[i].Failed? ==> events[i].best < paths
  }

  /** The outcome of one turn: a standby session has died, or an attempt on the path has failed. */
  datatype Turn = StandbyDied | AttemptFailed(duration: nat, latency: seq<nat>)

  /** The event a turn is; `best` answers the latencies of that turn if a switch asks for it. */
  ghost predicate Matches(t: Turn, e: Event, w: Worker, paths: nat) {
    match t
    case StandbyDied => e == Standby
    case AttemptFailed(duration, latency) =>
      && e.Failed? && (e.short <==> duration < 30) && e.best < paths
      && (e.short && w.failCount + 1 >= 3 && paths > 1 ==> IsBest(latency, e.best))
  }

  /** poolWorker's two loop variables. */
  class PoolWorker {
    var pathIdx: nat
    var failCount: nat

    ghost function State(): Worker
      reads this
    {
      Worker(pathIdx, failCount)
    }

    constructor (latency: seq<nat>)
      requires latency != []
      ensures IsBest(latency, pathIdx) && failCount == 0
    {
      var best := BestPath(latency);
      pathIdx, failCount := best, 0;
    }

    /** After connectAndServe failed; the latencies are asked only when a switch is due. */
    method AfterFailure(short: bool, latency: seq<nat>) returns (ghost best: nat)
      requires latency != []
      modifies this
      ensures best < |latency|
      ensures short && old(failCount) + 1 >= MAX_FAILS && |latency| > 1 ==> IsBest(latency, best)
      ensures State() == Step(old(State()), Failed(short, best), |latency|)
    {
      best := 0;
      if short {
        failCount := failCount + 1;
      } else {
        failCount := 0;
      }
      if failCount >= MAX_FAILS && |latency| > 1 {
        var newIdx := BestPath(latency);
        best := newIdx;
        if newIdx == pathIdx {
          newIdx := (pathIdx + 1) % |latency|;
        }
        pathIdx, failCount := newIdx, 0;
      }
    }

    /** The worker's loop, until it is cancelled behind the last of `turns`. */
    method Work(turns: seq<Turn>, paths: nat) returns (ghost events: seq<Event>)
      requires paths > 0
      requires forall k :: 0 <= k < |turns| && turns[k].AttemptFailed? ==> |turns[k].latency| == paths
      modifies this
      ensures |events| == |turns| && InRange(events, paths)
      ensures State() == Run(old(State()), events, paths)
      ensures forall k :: 0 <= k < |turns| ==>
                Matches(turns[k], events[k], Run(old(State()), events[..k], paths), paths)
    {
      ghost var start := State();
      events := [];
      var k := 0;
      while k < |turns|
        invariant 0 <= k <= |turns| && |events| == k && InRange(events, paths)
        invariant State() == Run(start, events, paths)
        invariant forall j :: 0 <= j < k ==> Matches(turns[j], events[j], Run(start, events[..j], paths), paths)
      {
        ghost var before, event := events, Standby;
        match turns[k] {
          case StandbyDied =>
            failCount := 0;
          case AttemptFailed(duration, latency) =>
            ghost var best := AfterFailure(duration < SHORT_FAILURE, latency);
            event := Failed(duration < SHORT_FAILURE, best);
        }
        events := before + [event];
        assert events[..k] == before;
        assert forall j :: 0 <= j < k ==> events[..j] == before[..j];
        k := k + 1;
      }
    }
  }

  /** How many of the last events are short failures without interruption. */
  function Streak(events: seq<Event>): nat {
    if events == [] || !ShortFailure(events[|events| - 1]) then 0 else 1 + Streak(events[..|events| - 1])
  }

  /** With two or more paths, at every loop head the path index is valid and failCount is the streak modulo three. */
  lemma {:induction false} LoopHead(start: nat, events: seq<Event>, paths: nat)
    requires paths >= 2 && start < paths && InRange(events, paths)
    ensures Run(Worker(start, 0), events, paths).pathIdx < paths
    ensures Run(Worker(start, 0), events, paths).failCount == Streak(events) % 3
  {
    if events != [] {
      LoopHead(start, events[..|events| - 1], paths);
    }
  }

  lemma NextOfThree(streak: nat)
    ensures (streak + 1) % 3 == 0 <==> streak % 3 + 1 >= MAX_FAILS
  {
  }

  /** One step moves to a different path exactly when a short failure meets a full count. */
  lemma StepSwitches(w: Worker, e: Event, paths: nat)
    requires paths >= 2 && w.pathIdx < paths && (e.Failed? ==> e.best < paths)
    ensures Step(w, e, paths).pathIdx != w.pathIdx <==> ShortFailure(e) && w.failCount + 1 >= MAX_FAILS
  {
    Successor(w.pathIdx, paths);
  }

  /** The path changes exactly at every third short failure in a row, and then always to a different path. */
  lemma SwitchesExactly(start: nat, events: seq<Event>, e: Event, paths: nat)
    requires paths >= 2 && start < paths && InRange(events + [e], paths)
    ensures Run(Worker(start, 0), events + [e], paths).pathIdx != Run(Worker(start, 0), events, paths).pathIdx
       <==> ShortFailure(e) && (Streak(events) + 1) % 3 == 0
  {
    var all := events + [e];
    assert all[..|events|] == events && all[|events|] == e;
    assert InRange(events, paths) by {
      assert forall i :: 0 <= i < |events| ==> all[i] == events[i];
    }
    LoopHead(start, events, paths);
    StepSwitches(Run(Worker(start, 0), events, paths), e, paths);
    NextOfThree(Streak(events));
  }

  /** With a single path there is no switch and failCount is never reset by one: it is the whole streak. */
  lemma {:induction false} SinglePathCountsOn(events: seq<Event>)
    ensures Run(Worker(0, 0), events, 1) == Worker(0, Streak(events))
  {
    if events != [] {
      SinglePathCountsOn(events[..|events| - 1]);
    }
  }

  // ---- which paths a worker can reach ----

  predicate FixedLatency(events: seq<Event>, best: nat) {
    forall i :: 0 <= i < |events| && events[i].Failed? ==> events[i].best == best
  }

  /** While the latencies do not change, a worker alternates between the best path and its successor. */
  lemma {:induction false} OnlyTwoPaths(best: nat, events: seq<Event>, paths: nat)
    requires paths >= 2 && best < paths && FixedLatency(events, best)
    ensures Run(Worker(best, 0), events, paths).pathIdx in {best, (best + 1) % paths}
  {
    if events != [] {
      OnlyTwoPaths(best, events[..|events| - 1], paths);
    }
  }

  ghost predicate Visits(best: nat, paths: nat, path: nat)
    requires paths > 0
  {
    exists events :: FixedLatency(events, best) && Run(Worker(best, 0), events, paths).pathIdx == path
  }

  lemma Successor(best: nat, paths: nat)
    requires best < paths
    ensures (best + 1) % paths == if best + 1 < paths then best + 1 else 0
  {
  }

  /** Cycling through all paths, as the code's comment promises, happens under fixed latencies only with at most two. */
  lemma CyclesThroughAllIff(best: nat, paths: nat)
    requires best < paths
    ensures (forall path :: 0 <= path < paths ==> Visits(best, paths, path)) <==> paths <= 2
  {
    if paths <= 2 {
      assert FixedLatency([], best) && Run(Worker(best, 0), [], paths).pathIdx == best;
      var fail := Failed(true, best);
      var events := [fail, fail, fail];
      assert events[..2] == [fail, fail] && [fail, fail][..1] == [fail] && [fail][..0] == [];
      assert Run(Worker(best, 0), [fail], paths) == Worker(best, 1);
      assert Run(Worker(best, 0), [fail, fail], paths) == Worker(best, 2);
      assert FixedLatency(events, best);
      assert paths == 2 ==> Run(Worker(best, 0), events, paths).pathIdx == (best + 1) % 2;
    } else {
      Successor(best, paths);
      var path := if best == 0 then 2 else if best + 1 < paths then 0 else 1;
      assert !Visits(best, paths, path) by {
        forall events | FixedLatency(events, best) ensures Run(Worker(best, 0), events, paths).pathIdx != path {
          OnlyTwoPaths(best, events, paths);
        }
      }
    }
  }

  // ---- level adjustments ----

  /** What one connection attempt asks of the frame level; `served` is how long its session lived, if there was one. */
  function Adjustments(duration: nat, served: Option<nat>): seq<int> {
    (if served.Some? && served.value > LONG_SESSION then [1] else []) + (if duration < SHORT_FAILURE then [-1] else [])
  }

  /**
   One attempt never both raises and lowers the level: it lowers it by one if it failed within 30 seconds, else raises
   it by one if its session lived for more than two minutes, else leaves it.
   */
  lemma OneAdjustment(duration: nat, served: Option<nat>)
    requires served.Some? ==> served.value <= duration
    ensures Adjustments(duration, served)
         == if duration < 30 then [-1] else if served.Some? && served.value > 120 then [1] else []
    ensures |Adjustments(duration, served)| <= 1
  {
  }
}
