/**
 The client's pool workers, the standby manager and the cleanup tick as a transition system. A step is one
 action between two lock or channel operations, by any goroutine; a session may die at any step (this also
 covers the recycle tick's Close and the Close on cancellation).
 */
module ClientPool {
  import opened Bytes
  import opened SessionPool

  type Sid = nat

  datatype Worker =
    | Idle
    | Took(s: Sid)      // received from standbyCh, not yet checked
    | Dialing
    | Adding(s: Sid)    // about to call addSession
    | Serving(s: Sid)   // blocked in AcceptStream
    | Failed(s: Sid)    // AcceptStream returned an error or the context ended
    | Closing(s: Sid)   // removed from the list, about to Close
    | Gone

  datatype Manager = Building | Offering(s: Sid) | Stopped

  datatype State = State(
    pool: seq<Pooled<Sid>>, closed: set<Sid>,
    buffer: Option<Sid>,      // standbyCh, capacity 1
    manager: Manager,         // a blocked sender holds a second session
    workers: seq<Worker>,
    created: Sid,             // sessions 0..created exist
    cancelled: bool)

  datatype Event =
    | TakeStandby(w: nat) | CheckStandby(w: nat) | StartDial(w: nat)
    | DialOk(w: nat) | DialFails(w: nat) | Add(w: nat, now: int)
    | AcceptFails(w: nat) | RemoveOwn(w: nat) | CloseOwn(w: nat) | StopWorker(w: nat)
    | BuildStandby | SendStandby | StopManager
    | Die(s: Sid) | Cleanup(dead: set<Sid>) | Cancel

  function Initial(size: nat): State {
    State([], {}, None, Building, seq(size, _ => Idle), 0, false)
  }

  predicate WorkerEvent(e: Event) {
    !e.BuildStandby? && !e.SendStandby? && !e.StopManager? && !e.Die? && !e.Cleanup? && !e.Cancel?
  }

  predicate Enabled(s: State, e: Event) {
    if WorkerEvent(e) then
      e.w < |s.workers| &&
      match (e, s.workers[e.w])
      case (TakeStandby(_), Idle) => s.buffer.Some?
      case (CheckStandby(_), Took(_)) => true
      case (StartDial(_), Idle) => s.buffer.None?
      case (DialOk(_), Dialing) => true
      case (DialFails(_), Dialing) => true
      case (Add(_, _), Adding(_)) => true
      case (AcceptFails(_), Serving(_)) => true
      case (RemoveOwn(_), Failed(_)) => true
      case (CloseOwn(_), Closing(_)) => true
      case (StopWorker(_), Idle) => s.cancelled
      case (StopWorker(_), Dialing) => s.cancelled
      case _ => false
    else
      match e
      case BuildStandby => s.manager.Building?
      case SendStandby => s.manager.Offering? && s.buffer.None?
      case StopManager => s.cancelled && !s.manager.Stopped?
      case Die(x) => x < s.created
      case Cleanup(dead) => dead <= s.closed // what the scan found closed, in whichever order sessions died
      case _ => true
  }

  function Goto(s: State, w: nat, next: Worker): State
    requires w < |s.workers|
  {
    s.(workers := s.workers[w := next])
  }

  function Step(s: State, e: Event): State
    requires Enabled(s, e)
  {
    match e
    case TakeStandby(w) => Goto(s, w, Took(s.buffer.value)).(buffer := None)
    case CheckStandby(w) =>
      var x := s.workers[w].s;
      Goto(s, w, if x in s.closed then Dialing else Adding(x))
    case StartDial(w) => Goto(s, w, Dialing)
    case DialOk(w) => Goto(s, w, Adding(s.created)).(created := s.created + 1)
    case DialFails(w) => Goto(s, w, Idle)
    case Add(w, now) =>
      var x := s.workers[w].s;
      Goto(s, w, Serving(x)).(pool := s.pool + [Pooled(x, now)])
    case AcceptFails(w) => Goto(s, w, Failed(s.workers[w].s))
    case RemoveOwn(w) =>
      var x := s.workers[w].s;
      Goto(s, w, Closing(x)).(pool := Remove(s.pool, x))
    case CloseOwn(w) => Goto(s, w, Idle).(closed := s.closed + {s.workers[w].s})
    case StopWorker(w) => Goto(s, w, Gone)
    case BuildStandby => s.(manager := Offering(s.created), created := s.created + 1)
    case SendStandby => s.(buffer := Some(s.manager.s), manager := Building)
    case StopManager =>
      s.(manager := Stopped, closed := s.closed + if s.manager.Offering? then {s.manager.s} else {})
    case Die(x) => s.(closed := s.closed + {x})
    case Cleanup(dead) => s.(pool := KeepOpen(s.pool, dead))
    case Cancel => s.(cancelled := true)
  }

  ghost predicate IsRun(states: seq<State>, events: seq<Event>) {
    && |states| == |events| + 1
    && (forall i :: 0 <= i < |events| ==> Enabled(states[i], events[i]) && states[i + 1] == Step(states[i], events[i]))
  }

  // ---- the invariant ----

  function Owned(w: Worker): Option<Sid> {
    match w
    case Idle => None
    case Dialing => None
    case Gone => None
    case Took(s) => Some(s)
    case Adding(s) => Some(s)
    case Serving(s) => Some(s)
    case Failed(s) => Some(s)
    case Closing(s) => Some(s)
  }

  function Offered(m: Manager): Option<Sid> {
    if m.Offering? then Some(m.s) else None
  }

  predicate Listed(w: Worker, x: Sid) {
    w == Serving(x) || w == Failed(x)
  }

  /** No session has two owners among workers, channel and manager. */
  ghost predicate OneOwner(s: State) {
    && (forall i, j :: 0 <= i < j < |s.workers| && Owned(s.workers[i]).Some? ==>
          Owned(s.workers[i]) != Owned(s.workers[j]))
    && (forall i :: 0 <= i < |s.workers| && Owned(s.workers[i]).Some? ==>
          Owned(s.workers[i]) != s.buffer && Owned(s.workers[i]) != Offered(s.manager))
    && (s.buffer.Some? ==> s.buffer != Offered(s.manager))
  }

  predicate OwnedBoth(s: State, x: Sid, v: nat, w: nat)
    requires v < |s.workers| && w < |s.workers|
  {
    Owned(s.workers[v]) == Some(x) && Owned(s.workers[w]) == Some(x)
  }

  ghost predicate OwnedByWorker(s: State, x: Sid) {
    exists i :: 0 <= i < |s.workers| && Owned(s.workers[i]) == Some(x)
  }

  /** Every session created is closed or has an owner. */
  ghost predicate NoneLost(s: State) {
    forall x :: 0 <= x < s.created ==>
      x in s.closed || s.buffer == Some(x) || Offered(s.manager) == Some(x) || OwnedByWorker(s, x)
  }

  ghost predicate IdsCreated(s: State) {
    && (forall i :: 0 <= i < |s.workers| && Owned(s.workers[i]).Some? ==> Owned(s.workers[i]).value < s.created)
    && (s.buffer.Some? ==> s.buffer.value < s.created)
    && (s.manager.Offering? ==> s.manager.s < s.created)
    && (forall x :: x in s.closed ==> x < s.created)
  }

  /** The list has no duplicates, each entry is served by a worker, and an open session being served is listed. */
  ghost predicate ListServed(s: State) {
    && Distinct(s.pool)
    && (forall x :: x in s.pool ==> exists i :: 0 <= i < |s.workers| && Listed(s.workers[i], x.session))
    && (forall i :: 0 <= i < |s.workers| && s.workers[i].Serving? ==>
          s.workers[i].s in s.closed || Holds(s.pool, s.workers[i].s))
  }

  ghost predicate Inv(s: State) {
    OneOwner(s) && NoneLost(s) && IdsCreated(s) && ListServed(s)
  }

  lemma InitialInv(size: nat)
    ensures Inv(Initial(size))
  {
  }

  /** A worker step changes one worker, which keeps its session, drops it, takes the channel's or gets a new one. */
  predicate Hands(s: State, t: State, w: nat) {
    && w < |s.workers| && t.workers == s.workers[w := (if w < |t.workers| then t.workers[w] else Gone)]
    && t.manager == s.manager && s.created <= t.created
    && (var owned := Owned(t.workers[w]);
        || (owned.None? && t.buffer == s.buffer)
        || (owned == Owned(s.workers[w]) && t.buffer == s.buffer)
        || (owned == s.buffer && t.buffer.None?)
        || (owned == Some(s.created) && t.buffer == s.buffer && t.created > s.created))
  }

  lemma WorkerStepHands(s: State, e: Event)
    requires WorkerEvent(e) && Enabled(s, e)
    ensures Hands(s, Step(s, e), e.w)
  {
  }

  lemma HandsKeepsOneOwner(s: State, t: State, w: nat)
    requires OneOwner(s) && IdsCreated(s) && Hands(s, t, w)
    ensures OneOwner(t)
  {
    forall i, j | 0 <= i < j < |t.workers| && Owned(t.workers[i]).Some?
      ensures Owned(t.workers[i]) != Owned(t.workers[j])
    {
      if i != w && j != w {
        assert t.workers[i] == s.workers[i] && t.workers[j] == s.workers[j];
      }
    }
  }

  lemma OneOwnerPreserved(s: State, e: Event)
    requires OneOwner(s) && IdsCreated(s) && Enabled(s, e)
    ensures OneOwner(Step(s, e))
  {
    if WorkerEvent(e) {
      WorkerStepHands(s, e);
      HandsKeepsOneOwner(s, Step(s, e), e.w);
    } else {
      assert Step(s, e).workers == s.workers;
    }
  }

  lemma IdsCreatedPreserved(s: State, e: Event)
    requires IdsCreated(s) && Enabled(s, e)
    ensures IdsCreated(Step(s, e))
  {
  }

  lemma NoneLostPreserved(s: State, e: Event)
    requires NoneLost(s) && Enabled(s, e)
    ensures NoneLost(Step(s, e))
  {
    var t := Step(s, e);
    forall x | 0 <= x < t.created
      ensures x in t.closed || t.buffer == Some(x) || Offered(t.manager) == Some(x) || OwnedByWorker(t, x)
    {
      if x < s.created && OwnedByWorker(s, x) {
        var i :| 0 <= i < |s.workers| && Owned(s.workers[i]) == Some(x);
        assert Owned(t.workers[i]) == Some(x) || x in t.closed;
      } else if WorkerEvent(e) {
        assert Owned(t.workers[e.w]) == Some(x)
            || x in t.closed || t.buffer == Some(x) || Offered(t.manager) == Some(x);
      }
    }
  }

  lemma AddsUnlisted(s: State, w: nat, now: int)
    requires Inv(s) && Enabled(s, Add(w, now))
    ensures forall y :: y in s.pool ==> y.session != s.workers[w].s
  {
    forall y | y in s.pool ensures y.session != s.workers[w].s {
      var i :| 0 <= i < |s.workers| && Listed(s.workers[i], y.session);
      assert Owned(s.workers[i]) == Some(y.session) && Owned(s.workers[w]) == Some(s.workers[w].s);
    }
  }

  lemma AddKeepsList(s: State, w: nat, now: int)
    requires Inv(s) && Enabled(s, Add(w, now))
    ensures ListServed(Step(s, Add(w, now)))
  {
    var t := Step(s, Add(w, now));
    var x := s.workers[w].s;
    AddsUnlisted(s, w, now);
    assert t.pool[|s.pool|].session == x;
    forall y | y in t.pool ensures exists i :: 0 <= i < |t.workers| && Listed(t.workers[i], y.session) {
      if y in s.pool {
        var i :| 0 <= i < |s.workers| && Listed(s.workers[i], y.session);
        assert t.workers[i] == s.workers[i];
      } else {
        assert Listed(t.workers[w], y.session);
      }
    }
    forall i | 0 <= i < |t.workers| && t.workers[i].Serving?
      ensures t.workers[i].s in t.closed || Holds(t.pool, t.workers[i].s)
    {
      if i != w && Holds(s.pool, t.workers[i].s) {
        var k :| 0 <= k < |s.pool| && s.pool[k].session == t.workers[i].s;
        assert t.pool[k] == s.pool[k];
      }
    }
  }

  /** Taking a closed or no longer served session off the list drops no open session that is being served. */
  lemma ShrinkKeepsList(s: State, t: State, gone: set<Sid>)
    requires ListServed(s) && Distinct(t.pool)
    requires forall x :: x in t.pool <==> x in s.pool && x.session !in gone
    requires |t.workers| == |s.workers| && s.closed <= t.closed
    requires forall i :: 0 <= i < |s.workers| ==>
               || t.workers[i] == s.workers[i]
               || (!t.workers[i].Serving? && forall x :: Listed(s.workers[i], x) ==> x in gone)
    requires forall i :: 0 <= i < |t.workers| && t.workers[i].Serving? && t.workers[i].s in gone ==>
               t.workers[i].s in t.closed
    ensures ListServed(t)
  {
    forall y | y in t.pool ensures exists i :: 0 <= i < |t.workers| && Listed(t.workers[i], y.session) {
      var i :| 0 <= i < |s.workers| && Listed(s.workers[i], y.session);
      assert t.workers[i] == s.workers[i];
    }
    forall i | 0 <= i < |t.workers| && t.workers[i].Serving?
      ensures t.workers[i].s in t.closed || Holds(t.pool, t.workers[i].s)
    {
      HoldsIn(s.pool, t.workers[i].s);
      HoldsIn(t.pool, t.workers[i].s);
    }
  }

  lemma RemoveOwnKeepsList(s: State, w: nat)
    requires Inv(s) && Enabled(s, RemoveOwn(w))
    ensures ListServed(Step(s, RemoveOwn(w)))
  {
    var t := Step(s, RemoveOwn(w));
    var x := s.workers[w].s;
    RemoveKeeps(s.pool, x);
    forall i | 0 <= i < |t.workers| && t.workers[i].Serving? ensures t.workers[i].s != x {
      assert Owned(s.workers[w]) == Some(x);
    }
    ShrinkKeepsList(s, t, {x});
  }

  lemma CleanupKeepsList(s: State, dead: set<Sid>)
    requires ListServed(s) && Enabled(s, Cleanup(dead))
    ensures ListServed(Step(s, Cleanup(dead)))
  {
    KeepOpenKeeps(s.pool, dead);
    var t := Step(s, Cleanup(dead));
    assert t.pool == KeepOpen(s.pool, dead);
    ShrinkKeepsList(s, t, dead);
  }

  lemma OtherKeepsList(s: State, e: Event)
    requires ListServed(s) && Enabled(s, e) && !e.Add? && !e.RemoveOwn? && !e.Cleanup?
    ensures ListServed(Step(s, e))
  {
    var t := Step(s, e);
    assert t.pool == s.pool && s.closed <= t.closed;
    forall y | y in t.pool ensures exists i :: 0 <= i < |t.workers| && Listed(t.workers[i], y.session) {
      var i :| 0 <= i < |s.workers| && Listed(s.workers[i], y.session);
      assert Listed(t.workers[i], y.session);
    }
    forall i | 0 <= i < |t.workers| && t.workers[i].Serving?
      ensures t.workers[i].s in t.closed || Holds(t.pool, t.workers[i].s)
    {
      assert s.workers[i] == t.workers[i];
    }
  }

  lemma StepPreserves(s: State, e: Event)
    requires Inv(s) && Enabled(s, e)
    ensures Inv(Step(s, e))
  {
    OneOwnerPreserved(s, e);
    IdsCreatedPreserved(s, e);
    NoneLostPreserved(s, e);
    match e
    case Add(w, now) => AddKeepsList(s, w, now);
    case RemoveOwn(w) => RemoveOwnKeepsList(s, w);
    case Cleanup(dead) => CleanupKeepsList(s, dead);
    case _ => OtherKeepsList(s, e);
  }

  lemma {:induction false} RunInv(size: nat, states: seq<State>, events: seq<Event>, i: nat)
    requires IsRun(states, events) && states[0] == Initial(size) && i < |states|
    ensures Inv(states[i]) && |states[i].workers| == size
  {
    if i == 0 {
      InitialInv(size);
    } else {
      RunInv(size, states, events, i - 1);
      StepPreserves(states[i - 1], events[i - 1]);
    }
  }

  // ---- what it means ----

  /** One cleanup tick takes away all entries whose sessions it found closed, and no others. */
  lemma CleanupRemoves(s: State, dead: set<Sid>)
    requires Enabled(s, Cleanup(dead))
    ensures var t := Step(s, Cleanup(dead));
            && (forall x :: x in t.pool ==> x in s.pool && x.session !in dead)
            && (forall x :: x in s.pool && x.session !in dead ==> x in t.pool)
    ensures dead <= s.closed
  {
    KeepOpenKeeps(s.pool, dead);
    var kept, t := KeepOpen(s.pool, dead), Step(s, Cleanup(dead));
    assert t.pool == kept;
    forall x: Pooled<Sid> ensures x in kept <==> x in s.pool && x.session !in dead {
      assert x == Pooled(x.session, x.createdAt);
    }
  }

  /** A standby session goes to the list only if it was found open; else the worker dials. */
  lemma StandbyIsOpen(s: State, w: nat)
    requires Enabled(s, CheckStandby(w))
    ensures var x, next := s.workers[w].s, Step(s, CheckStandby(w)).workers[w];
            (x in s.closed ==> next == Dialing) && (x !in s.closed ==> next == Adding(x))
  {
  }

  ghost function WorkerSessions(workers: seq<Worker>): set<Sid> {
    set i | 0 <= i < |workers| && Owned(workers[i]).Some? :: Owned(workers[i]).value
  }

  lemma {:induction false} WorkerSessionsBound(workers: seq<Worker>)
    ensures |WorkerSessions(workers)| <= |workers|
  {
    if workers != [] {
      var front, last := workers[..|workers| - 1], Owned(workers[|workers| - 1]);
      WorkerSessionsBound(front);
      assert WorkerSessions(workers) == WorkerSessions(front) + if last.Some? then {last.value} else {};
    }
  }

  lemma SubsetCount<T>(a: set<T>, b: set<T>)
    requires a <= b
    ensures |a| <= |b|
  {
    assert b == a + (b - a);
  }

  ghost function OpenSessions(s: State): set<Sid> {
    set x | 0 <= x < s.created && x !in s.closed
  }

  /**
   In every interleaving: the list has no duplicates and never more entries than there are workers; each listed
   session has exactly one serving worker; no open session being served is ever dropped from the list.
   */
  lemma PoolSafety(size: nat, states: seq<State>, events: seq<Event>, i: nat)
    requires IsRun(states, events) && states[0] == Initial(size) && i < |states|
    ensures var s := states[i];
            && Distinct(s.pool) && |s.pool| <= size
            && (forall x :: x in s.pool ==> exists w :: 0 <= w < |s.workers| && Listed(s.workers[w], x.session))
            && (forall x, v, w ::
                  0 <= v < |s.workers| && 0 <= w < |s.workers| && OwnedBoth(s, x, v, w) ==> v == w)
            && (forall w :: 0 <= w < |s.workers| && s.workers[w].Serving? && s.workers[w].s !in s.closed ==>
                  Holds(s.pool, s.workers[w].s))
  {
    RunInv(size, states, events, i);
    var s := states[i];
    DistinctCount(s.pool);
    WorkerSessionsBound(s.workers);
    forall x | x in Sessions(s.pool) ensures x in WorkerSessions(s.workers) {
      var k :| 0 <= k < |s.pool| && s.pool[k].session == x;
      assert s.pool[k] in s.pool;
      var w :| 0 <= w < |s.workers| && Listed(s.workers[w], x);
      assert Owned(s.workers[w]) == Some(x);
    }
    SubsetCount(Sessions(s.pool), WorkerSessions(s.workers));
  }

  /**
   No session leaks: each open one is owned by a worker, sits in the channel or is offered by the standby
   manager, so at most two exist beyond the workers' own.
   */
  lemma OpenSessionsBound(size: nat, states: seq<State>, events: seq<Event>, i: nat)
    requires IsRun(states, events) && states[0] == Initial(size) && i < |states|
    ensures |OpenSessions(states[i])| <= size + 2
    ensures forall x :: x in OpenSessions(states[i]) && !OwnedByWorker(states[i], x) ==>
              states[i].buffer == Some(x) || Offered(states[i].manager) == Some(x)
  {
    RunInv(size, states, events, i);
    var s := states[i];
    var warm := (if s.buffer.Some? then {s.buffer.value} else {}) + if s.manager.Offering? then {s.manager.s} else {};
    WorkerSessionsBound(s.workers);
    forall x | x in OpenSessions(s) ensures x in WorkerSessions(s.workers) + warm {
      if OwnedByWorker(s, x) {
        var w :| 0 <= w < |s.workers| && Owned(s.workers[w]) == Some(x);
        assert x in WorkerSessions(s.workers);
      }
    }
    SubsetCount(OpenSessions(s), WorkerSessions(s.workers) + warm);
  }

  /** The bound of two warm sessions is reached: one in the channel and one held by the blocked sender. */
  lemma TwoWarmSessions(size: nat)
    ensures exists states: seq<State>, events :: IsRun(states, events) && states[0] == Initial(size)
              && states[|events|].buffer == Some(0) && states[|events|].manager == Offering(1)
              && OpenSessions(states[|events|]) == {0, 1}
  {
    var s0 := Initial(size);
    var s1 := s0.(manager := Offering(0), created := 1);
    var s2 := s1.(buffer := Some(0), manager := Building);
    var s3 := s2.(manager := Offering(1), created := 2);
    assert Enabled(s0, BuildStandby) && s1 == Step(s0, BuildStandby);
    assert Enabled(s1, SendStandby) && s2 == Step(s1, SendStandby);
    assert Enabled(s2, BuildStandby) && s3 == Step(s2, BuildStandby);
    var states, events := [s0, s1, s2, s3], [BuildStandby, SendStandby, BuildStandby];
    assert IsRun(states, events);
    assert OpenSessions(s3) == {0, 1};
    assert states[|events|] == s3;
  }
}
