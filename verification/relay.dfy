/**
 relay: two copy loops per relay, any number of relays at once, sharing the global counters. A step is one
 read, one counter update, one write, one close or one return of any loop, or a change at a connection's peer.
 */
module Relay {
  import opened Bytes

  const BUFFER_SIZE := 131072

  /** A copy loop. `last` marks data that came together with the end of the source. */
  datatype Phase =
    | Reading
    | Counting(last: bool)  // MeasuredReader has data, the counter is not updated yet
    | Writing(last: bool)
    | Ended                 // io.CopyBuffer has returned
    | Closed                // the destination has been closed and done has been signalled

  datatype Direction = Direction(read: seq<byte>, written: seq<byte>, phase: Phase)

  /**
   One of the two connections of a relay: closed by relay itself; ended when reads give no more than what is
   already there, then an end or an error; failed when writes give an error; accepting when a write would go
   through now. An open connection that neither fails nor accepts blocks its writer: there is no deadline.
   */
  datatype End = End(closed: bool, ended: bool, failed: bool, accepting: bool)

  /** relay(a, b): `toA` copies from b to a, `toB` from a to b. */
  datatype Relay = Relay(toA: Direction, toB: Direction, a: End, b: End, returned: bool)

  datatype State = State(relays: seq<Relay>, bytesSent: nat, bytesRecv: nat, activeConns: int, totalConns: nat)

  /** One step of a copy loop. */
  datatype Act =
    | Read(data: seq<byte>, last: bool)
    | ReadEnds
    | Count
    | Write(n: nat)  // one write call: all of the buffer, or n bytes of it and an error
    | Close

  /** What the peer behind a connection does. */
  datatype Change = Ends | Fails | Accepts(now: bool)

  datatype Event = Start | Loop(r: nat, toA: bool, act: Act) | Return(r: nat) | Peer(r: nat, atA: bool, change: Change)

  const IDLE := Direction([], [], Reading)
  const OPEN_END := End(false, false, false, true)
  const NOTHING := State([], 0, 0, 0, 0)

  function Side(r: Relay, toA: bool): Direction {
    if toA then r.toA else r.toB
  }

  function SetSide(r: Relay, toA: bool, d: Direction): Relay {
    if toA then r.(toA := d) else r.(toB := d)
  }

  function Source(r: Relay, toA: bool): End {
    if toA then r.b else r.a
  }

  function Target(r: Relay, toA: bool): End {
    if toA then r.a else r.b
  }

  function SetEnd(r: Relay, atA: bool, c: End): Relay {
    if atA then r.(a := c) else r.(b := c)
  }

  function Changed(c: End, change: Change): End {
    match change
    case Ends => c.(ended := true)
    case Fails => c.(ended := true, failed := true)
    case Accepts(now) => c.(accepting := now)
  }

  function Buffered(d: Direction): nat {
    if |d.written| <= |d.read| then |d.read| - |d.written| else 0
  }

  predicate Allowed(d: Direction, source: End, target: End, act: Act) {
    match act
    case Read(data, last) => d.phase.Reading? && !source.closed && 0 < |data| <= BUFFER_SIZE && (last ==> source.ended)
    case ReadEnds => d.phase.Reading? && (source.closed || source.ended)
    case Count => d.phase.Counting?
    case Write(n) =>
      && d.phase.Writing? && n <= Buffered(d)
      && (if n == Buffered(d) then !target.failed && target.accepting else target.failed)
    case Close => d.phase.Ended?
  }

  predicate Fits(r: Relay, e: Event) {
    match e
    case Start => false
    case Loop(_, toA, act) => Allowed(Side(r, toA), Source(r, toA), Target(r, toA), act)
    case Return(_) => r.toA.phase.Closed? && r.toB.phase.Closed? && !r.returned
    case Peer(_, _, _) => true
  }

  predicate Enabled(s: State, e: Event) {
    e.Start? || (e.r < |s.relays| && Fits(s.relays[e.r], e))
  }

  /** The copy loop's own step; MeasuredReader counts before the write. */
  function Advance(d: Direction, act: Act): Direction {
    match act
    case Read(data, last) => Direction(d.read + data, d.written, Counting(last))
    case ReadEnds => d.(phase := Ended)
    case Count => if d.phase.Counting? then d.(phase := Writing(d.phase.last)) else d
    case Write(n) =>
      if d.phase.Writing? && n <= Buffered(d) && |d.written| <= |d.read| then
        d.(written := d.written + d.read[|d.written|..|d.written| + n],
           phase := if n == Buffered(d) && !d.phase.last then Reading else Ended)
      else d
    case Close => d.(phase := Closed)
  }

  /** Closing the destination is the last step of a loop. */
  function AdvanceRelay(r: Relay, toA: bool, act: Act): Relay {
    var moved := SetSide(r, toA, Advance(Side(r, toA), act));
    if act.Close? then SetEnd(moved, toA, Target(r, toA).(closed := true)) else moved
  }

  function Next(r: Relay, e: Event): Relay {
    match e
    case Start => r
    case Loop(_, toA, act) => AdvanceRelay(r, toA, act)
    case Return(_) => r.(returned := true)
    case Peer(_, atA, change) => SetEnd(r, atA, Changed(Target(r, atA), change))
  }

  function Step(s: State, e: Event): State
    requires Enabled(s, e)
  {
    if e.Start? then
      s.(relays := s.relays + [Relay(IDLE, IDLE, OPEN_END, OPEN_END, false)],
         activeConns := s.activeConns + 1, totalConns := s.totalConns + 1)
    else
      var r := s.relays[e.r];
      var n := if e.Loop? && e.act.Count? then Buffered(Side(r, e.toA)) else 0;
      s.(relays := s.relays[e.r := Next(r, e)],
         bytesSent := s.bytesSent + if e.Loop? && e.toA then n else 0,
         bytesRecv := s.bytesRecv + if e.Loop? && !e.toA then n else 0,
         activeConns := s.activeConns - if e.Return? then 1 else 0)
  }

  ghost predicate IsRun(states: seq<State>, events: seq<Event>) {
    && |states| == |events| + 1 && states[0] == NOTHING
    && (forall i :: 0 <= i < |events| ==> Enabled(states[i], events[i]) && states[i + 1] == Step(states[i], events[i]))
  }

  // ---- one relay ----

  predicate GoodDirection(d: Direction, targetClosed: bool) {
    && d.written <= d.read && Buffered(d) <= BUFFER_SIZE
    && (d.phase.Reading? ==> d.written == d.read)
    && (d.phase.Counting? || d.phase.Writing? ==> Buffered(d) > 0)
    && (d.phase.Closed? <==> targetClosed)
  }

  predicate GoodRelay(r: Relay) {
    && GoodDirection(r.toA, r.a.closed) && GoodDirection(r.toB, r.b.closed)
    && (r.returned ==> r.a.closed && r.b.closed)
  }

  lemma AdvanceKeepsDirection(d: Direction, source: End, target: End, act: Act)
    requires GoodDirection(d, target.closed) && Allowed(d, source, target, act)
    ensures GoodDirection(Advance(d, act), target.closed || act.Close?)
  {
    if act.Write? {
      var k := |d.written|;
      assert d.written == d.read[..k];
      assert d.read[..k] + d.read[k..k + act.n] == d.read[..k + act.n];
    }
  }

  lemma NextKeepsRelay(r: Relay, e: Event)
    requires GoodRelay(r) && Fits(r, e)
    ensures GoodRelay(Next(r, e))
  {
    if e.Loop? {
      AdvanceKeepsDirection(Side(r, e.toA), Source(r, e.toA), Target(r, e.toA), e.act);
    }
  }

  lemma StepKeepsRelays(s: State, e: Event)
    requires Enabled(s, e) && forall i :: 0 <= i < |s.relays| ==> GoodRelay(s.relays[i])
    ensures forall i :: 0 <= i < |Step(s, e).relays| ==> GoodRelay(Step(s, e).relays[i])
  {
    if !e.Start? {
      NextKeepsRelay(s.relays[e.r], e);
    }
  }

  // ---- the counters ----

  /** How much of a direction's data has been added to its counter. */
  function Counted(d: Direction): nat {
    if d.phase.Counting? then |d.written| else |d.read|
  }

  function Sum(f: Relay -> nat, relays: seq<Relay>): nat {
    if relays == [] then 0 else Sum(f, relays[..|relays| - 1]) + f(relays[|relays| - 1])
  }

  function CountedToA(r: Relay): nat {
    Counted(r.toA)
  }

  function CountedToB(r: Relay): nat {
    Counted(r.toB)
  }

  function InProgress(r: Relay): nat {
    if r.returned then 0 else 1
  }

  lemma {:induction false} SumUpdate(f: Relay -> nat, relays: seq<Relay>, i: nat, next: Relay)
    requires i < |relays|
    ensures Sum(f, relays[i := next]) == Sum(f, relays) - f(relays[i]) + f(next)
  {
    var n := |relays| - 1;
    if i == n {
      assert relays[i := next][..n] == relays[..n];
    } else {
      SumUpdate(f, relays[..n], i, next);
      assert relays[i := next][..n] == relays[..n][i := next];
    }
  }

  lemma SumAppend(f: Relay -> nat, relays: seq<Relay>, next: Relay)
    ensures Sum(f, relays + [next]) == Sum(f, relays) + f(next)
  {
    assert (relays + [next])[..|relays|] == relays;
  }

  ghost predicate Balanced(s: State) {
    && s.bytesSent == Sum(CountedToA, s.relays)
    && s.bytesRecv == Sum(CountedToB, s.relays)
    && s.activeConns == Sum(InProgress, s.relays)
    && s.totalConns == |s.relays|
  }

  lemma StartKeepsBalance(s: State)
    requires Balanced(s)
    ensures Balanced(Step(s, Start))
  {
    var relay := Relay(IDLE, IDLE, OPEN_END, OPEN_END, false);
    SumAppend(CountedToA, s.relays, relay);
    SumAppend(CountedToB, s.relays, relay);
    SumAppend(InProgress, s.relays, relay);
  }

  lemma OtherKeepsBalance(s: State, e: Event)
    requires Enabled(s, e) && Balanced(s) && !e.Start? && GoodRelay(s.relays[e.r])
    ensures Balanced(Step(s, e))
  {
    var t := Step(s, e);
    SumUpdate(CountedToA, s.relays, e.r, t.relays[e.r]);
    SumUpdate(CountedToB, s.relays, e.r, t.relays[e.r]);
    SumUpdate(InProgress, s.relays, e.r, t.relays[e.r]);
    assert t.relays == s.relays[e.r := t.relays[e.r]];
  }

  lemma {:induction false} RunInv(states: seq<State>, events: seq<Event>, i: nat)
    requires IsRun(states, events) && i < |states|
    ensures Balanced(states[i]) && forall k :: 0 <= k < |states[i].relays| ==> GoodRelay(states[i].relays[k])
  {
    if i > 0 {
      RunInv(states, events, i - 1);
      StepKeepsRelays(states[i - 1], events[i - 1]);
      if events[i - 1].Start? {
        StartKeepsBalance(states[i - 1]);
      } else {
        OtherKeepsBalance(states[i - 1], events[i - 1]);
      }
    }
  }

  /**
   In every interleaving of any number of relays: what is written to a side is a prefix of what was read from the
   other, at most one buffer behind; a relay that has returned has closed both sides; each byte counter is the
   number of bytes read in its direction (less what a read has just returned), and ActiveConns the relays running.
   */
  lemma RelaysCorrect(states: seq<State>, events: seq<Event>, i: nat)
    requires IsRun(states, events) && i < |states|
    ensures forall k :: 0 <= k < |states[i].relays| ==>
              var r := states[i].relays[k];
              && r.toA.written <= r.toA.read && |r.toA.read| <= |r.toA.written| + 131072
              && r.toB.written <= r.toB.read && |r.toB.read| <= |r.toB.written| + 131072
              && (r.returned ==> r.a.closed && r.b.closed)
    ensures states[i].bytesSent == Sum(CountedToA, states[i].relays)
    ensures states[i].bytesRecv == Sum(CountedToB, states[i].relays)
    ensures states[i].activeConns == Sum(InProgress, states[i].relays)
  {
    RunInv(states, events, i);
  }

  // ---- ending ----

  /** Steps a copy loop has left once its source is closed. */
  function StepsLeft(p: Phase): nat {
    match p
    case Counting(_) => 4
    case Writing(_) => 3
    case Reading => 2
    case Ended => 1
    case Closed => 0
  }

  /** The loop sits in a write to a connection that is open, does not fail and does not accept. */
  predicate Blocked(r: Relay, toA: bool) {
    Side(r, toA).phase.Writing? && !Target(r, toA).failed && !Target(r, toA).accepting
  }

  /**
   Exactly when a loop whose source is closed can go on: it has not finished and is not blocked. So the end of one
   direction does not by itself end the other.
   */
  lemma CanGoOn(s: State, r: nat, toA: bool)
    requires r < |s.relays| && GoodRelay(s.relays[r]) && Source(s.relays[r], toA).closed
    ensures (exists act :: Enabled(s, Loop(r, toA, act)))
       <==> !Side(s.relays[r], toA).phase.Closed? && !Blocked(s.relays[r], toA)
  {
    var d, target := Side(s.relays[r], toA), Target(s.relays[r], toA);
    var own := match d.phase
      case Counting(_) => Count
      case Writing(_) => Write(if target.failed then 0 else Buffered(d))
      case Reading => ReadEnds
      case _ => Close;
    if !d.phase.Closed? && !Blocked(s.relays[r], toA) {
      assert Enabled(s, Loop(r, toA, own));
    }
  }

  /** How many steps one loop takes in a run. */
  function OwnSteps(events: seq<Event>, r: nat, toA: bool): nat {
    if events == [] then 0
    else
      OwnSteps(events[..|events| - 1], r, toA) + Own(events[|events| - 1], r, toA)
  }

  function Own(e: Event, r: nat, toA: bool): nat {
    if e.Loop? && e.r == r && e.toA == toA then 1 else 0
  }

  lemma NextTowardsEnd(r: Relay, e: Event, toA: bool)
    requires GoodRelay(r) && Fits(r, e) && Source(r, toA).closed
    ensures Source(Next(r, e), toA).closed
    ensures StepsLeft(Side(Next(r, e), toA).phase) + (if e.Loop? && e.toA == toA then 1 else 0)
         <= StepsLeft(Side(r, toA).phase)
  {
  }

  lemma OwnStepsSplit(events: seq<Event>, i: nat, j: nat, r: nat, toA: bool)
    requires i < j <= |events|
    ensures OwnSteps(events[i..j], r, toA) == OwnSteps(events[i..j - 1], r, toA) + Own(events[j - 1], r, toA)
  {
    assert events[i..j][..j - 1 - i] == events[i..j - 1];
  }

  lemma StepTowardsEnd(s: State, e: Event, r: nat, toA: bool)
    requires Enabled(s, e) && r < |s.relays| && GoodRelay(s.relays[r]) && Source(s.relays[r], toA).closed
    ensures r < |Step(s, e).relays| && Source(Step(s, e).relays[r], toA).closed
    ensures StepsLeft(Side(Step(s, e).relays[r], toA).phase) + Own(e, r, toA) <= StepsLeft(Side(s.relays[r], toA).phase)
  {
    if !e.Start? && e.r == r {
      NextTowardsEnd(s.relays[r], e, toA);
    }
  }

  lemma RunTowardsEnd(states: seq<State>, events: seq<Event>, i: nat, r: nat, toA: bool)
    requires IsRun(states, events) && i < |events|
    requires r < |states[i].relays| && Source(states[i].relays[r], toA).closed
    ensures r < |states[i + 1].relays| && Source(states[i + 1].relays[r], toA).closed
    ensures StepsLeft(Side(states[i + 1].relays[r], toA).phase) + Own(events[i], r, toA)
         <= StepsLeft(Side(states[i].relays[r], toA).phase)
  {
    RunInv(states, events, i);
    StepTowardsEnd(states[i], events[i], r, toA);
  }

  /** In every run, once its source is closed a loop takes at most StepsLeft steps more, whatever else happens. */
  lemma {:induction false} EndsWithin(states: seq<State>, events: seq<Event>, i: nat, j: nat, r: nat, toA: bool)
    requires IsRun(states, events) && i <= j < |states|
    requires r < |states[i].relays| && Source(states[i].relays[r], toA).closed
    ensures r < |states[j].relays| && Source(states[j].relays[r], toA).closed
    ensures OwnSteps(events[i..j], r, toA) + StepsLeft(Side(states[j].relays[r], toA).phase)
         <= StepsLeft(Side(states[i].relays[r], toA).phase)
    decreases j
  {
    if i < j {
      EndsWithin(states, events, i, j - 1, r, toA);
      RunTowardsEnd(states, events, j - 1, r, toA);
      OwnStepsSplit(events, i, j, r, toA);
    }
  }

  /**
   The end of one direction, in every run: from there the other loop takes at most four steps, and it can take
   none exactly when it has closed its own destination too or is blocked.
   */
  lemma EndPropagates(states: seq<State>, events: seq<Event>, i: nat, j: nat, r: nat, toA: bool)
    requires IsRun(states, events) && i <= j < |states|
    requires r < |states[i].relays| && Source(states[i].relays[r], toA).closed
    ensures OwnSteps(events[i..j], r, toA) <= StepsLeft(Side(states[i].relays[r], toA).phase) <= 4
    ensures r < |states[j].relays|
    ensures (exists act :: Enabled(states[j], Loop(r, toA, act)))
       <==> !Target(states[j].relays[r], toA).closed && !Blocked(states[j].relays[r], toA)
  {
    EndsWithin(states, events, i, j, r, toA);
    RunInv(states, events, j);
    CanGoOn(states[j], r, toA);
  }

  /** Until the destination accepts or fails, a blocked loop stays blocked and its relay running. */
  lemma {:induction false} BlockedHolds(states: seq<State>, events: seq<Event>, i: nat, j: nat, r: nat, toA: bool)
    requires IsRun(states, events) && i <= j < |states|
    requires r < |states[i].relays| && Blocked(states[i].relays[r], toA)
    requires forall k, change :: i <= k < j && events[k] == Peer(r, toA, change) ==> change.Ends?
    ensures r < |states[j].relays| && Blocked(states[j].relays[r], toA)
    ensures !states[j].relays[r].returned && !Enabled(states[j], Return(r))
    decreases j
  {
    if i < j {
      BlockedHolds(states, events, i, j - 1, r, toA);
      RunInv(states, events, j - 1);
      var e := events[j - 1];
      if !e.Start? && e.r == r {
        NextStaysBlocked(states[j - 1].relays[r], e, toA);
      }
    } else {
      RunInv(states, events, i);
    }
  }

  lemma NextStaysBlocked(r: Relay, e: Event, toA: bool)
    requires GoodRelay(r) && Fits(r, e) && Blocked(r, toA)
    requires e.Peer? && e.atA == toA ==> e.change.Ends?
    ensures Blocked(Next(r, e), toA) && !Next(r, e).returned
  {
  }

  const CALM := Relay(IDLE, IDLE, OPEN_END, OPEN_END, false)

  function Holding(data: seq<byte>): Relay {
    CALM.(toA := Direction(data, [], Writing(false)))
  }

  function Stalled(data: seq<byte>): Relay {
    Holding(data).(a := End(false, true, false, false))
  }

  function Hung(data: seq<byte>): Relay {
    Stalled(data).(toB := Direction([], [], Closed), b := OPEN_END.(closed := true))
  }

  ghost predicate Reachable(s: State) {
    exists states: seq<State>, events :: IsRun(states, events) && states[|events|] == s
  }

  lemma ReachableStep(s: State, e: Event)
    requires Reachable(s) && Enabled(s, e)
    ensures Reachable(Step(s, e))
  {
    var states: seq<State>, events :| IsRun(states, events) && states[|events|] == s;
    var states', events' := states + [Step(s, e)], events + [e];
    assert IsRun(states', events') && states'[|events'|] == Step(s, e);
  }

  /** One relay, running. */
  function Alone(r: Relay, sent: nat): State {
    State([r], sent, 0, 1, 1)
  }

  lemma AloneStep(r: Relay, sent: nat, e: Event, later: nat)
    requires Reachable(Alone(r, sent))
    requires !e.Start? && e.r == 0 && !e.Return? && (e.Loop? && e.act.Count? ==> e.toA) && Fits(r, e)
    requires later == sent + if e.Loop? && e.act.Count? then Buffered(r.toA) else 0
    ensures Reachable(Alone(Next(r, e), later))
  {
    ReachableStep(Alone(r, sent), e);
  }

  lemma HoldingReachable(data: seq<byte>)
    requires 0 < |data| <= BUFFER_SIZE
    ensures Reachable(Alone(Holding(data), |data|))
  {
    var e1, e2 := Loop(0, true, Read(data, false)), Loop(0, true, Count);
    assert IsRun([NOTHING], []) && [NOTHING][0] == NOTHING;
    ReachableStep(NOTHING, Start);
    assert Step(NOTHING, Start) == Alone(CALM, 0);
    assert [] + data == data;
    AloneStep(CALM, 0, e1, 0);
    AloneStep(Next(CALM, e1), 0, e2, |data|);
    assert Next(Next(CALM, e1), e2) == Holding(data);
  }

  lemma StalledReachable(data: seq<byte>)
    requires Reachable(Alone(Holding(data), |data|))
    ensures Reachable(Alone(Stalled(data), |data|))
  {
    var e1, e2 := Peer(0, true, Accepts(false)), Peer(0, true, Ends);
    AloneStep(Holding(data), |data|, e1, |data|);
    AloneStep(Next(Holding(data), e1), |data|, e2, |data|);
    assert Next(Next(Holding(data), e1), e2) == Stalled(data);
  }

  /** Such a relay can arise: one direction has ended and closed its destination, the other is blocked. */
  lemma RelayCanHang(data: seq<byte>)
    requires 0 < |data| <= BUFFER_SIZE
    ensures Reachable(Alone(Hung(data), |data|))
    ensures Source(Hung(data), true).closed && Blocked(Hung(data), true)
  {
    HoldingReachable(data);
    StalledReachable(data);
    var e1, e2 := Loop(0, false, ReadEnds), Loop(0, false, Close);
    AloneStep(Stalled(data), |data|, e1, |data|);
    AloneStep(Next(Stalled(data), e1), |data|, e2, |data|);
    assert Next(Next(Stalled(data), e1), e2) == Hung(data);
  }

  /** A write that goes through delivers everything read so far. */
  lemma FullWriteDelivers(s: State, r: nat, toA: bool)
    requires r < |s.relays| && GoodRelay(s.relays[r]) && Side(s.relays[r], toA).phase.Writing?
    requires !Target(s.relays[r], toA).failed && Target(s.relays[r], toA).accepting
    ensures var d := Side(s.relays[r], toA);
            var e := Loop(r, toA, Write(Buffered(d)));
            Enabled(s, e) && Side(Step(s, e).relays[r], toA).written == d.read
  {
    var d := Side(s.relays[r], toA);
    assert d.written + d.read[|d.written|..] == d.read;
  }
}
