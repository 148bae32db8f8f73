/**
 One direction of a tunnel connection as a transition system: a writer calling Write, a network that
 delivers in arbitrary pieces, and a reader whose calls may block half way through a packet.
 A step is one Write, one arrival, one transport read inside a Read call, or the start or end of a Read call.
 */
module RecordLink {
  import opened Bytes
  import opened RecordFormat

  datatype Reader = Idle | Reading(want: nat)

  datatype State = State(
    outgoing: seq<byte>,   // written by Write, not yet arrived
    wire: seq<byte>,       // arrived, not yet read
    taken: seq<byte>,      // what the Read in progress has read of its packet
    leftover: seq<byte>,   // readBuf
    reader: Reader,
    written: seq<byte>,    // all data passed to Write
    delivered: seq<byte>,  // all data returned by Read
    failed: bool)          // some Read returned an error or crashed

  datatype Event =
    | Write(data: seq<byte>, nonce: seq<byte>, padding: seq<byte>)
    | Arrive(k: nat)
    | StartRead(want: nat) // the length of the caller's slice, 0 included
    | Pull(k: nat)
    | FinishRead

  const INITIAL := State([], [], [], [], Idle, [], [], false)

  predicate InBounds(codec: Codec, e: Event)
    requires e.Write?
  {
    Carries(codec, Sent(e.data, e.nonce, e.padding))
  }

  /** How many bytes the two io.ReadFull calls still wait for. */
  function Missing(taken: seq<byte>): nat {
    if |taken| < 4 then 4 - |taken|
    else
      var length := U32(taken[..4]);
      if length == 0 || length > BUFFER_SIZE || 4 + length <= |taken| then 0 else 4 + length - |taken|
  }

  predicate Enabled(codec: Codec, s: State, e: Event) {
    match e
    case Write(_, _, _) => InBounds(codec, e)
    case Arrive(k) => 0 < k <= |s.outgoing|
    case StartRead(_) => s.reader.Idle?
    case Pull(k) => s.reader.Reading? && 0 < k <= |s.wire| && k <= Missing(s.taken)
    case FinishRead => s.reader.Reading? && Missing(s.taken) == 0
  }

  /** Read hands out what fits the caller's slice and keeps the rest. */
  function Deliver(s: State, data: seq<byte>, want: nat): State {
    var n := Min(want, |data|);
    s.(delivered := s.delivered + data[..n], leftover := data[n..], reader := Idle, taken := [])
  }

  function Step(codec: Codec, s: State, e: Event): State
    requires Enabled(codec, s, e)
  {
    match e
    case Write(data, nonce, padding) =>
      s.(outgoing := s.outgoing + Frame(codec, data, nonce, padding), written := s.written + data)
    case Arrive(k) => s.(outgoing := s.outgoing[k..], wire := s.wire + s.outgoing[..k])
    case StartRead(want) => if s.leftover != [] then Deliver(s, s.leftover, want) else s.(reader := Reading(want))
    case Pull(k) => s.(wire := s.wire[k..], taken := s.taken + s.wire[..k])
    case FinishRead =>
      (match ReadPacket(codec, s.taken)
       case Got(data, _) => Deliver(s, data, s.reader.want)
       case _ => s.(failed := true, reader := Idle, taken := []))
  }

  ghost predicate IsRun(codec: Codec, states: seq<State>, events: seq<Event>) {
    && |states| == |events| + 1
    && (forall i :: 0 <= i < |events| ==>
          Enabled(codec, states[i], events[i]) && states[i + 1] == Step(codec, states[i], events[i]))
  }

  // ---- safety ----

  function InFlight(s: State): seq<byte> {
    s.taken + s.wire + s.outgoing
  }

  /** The bytes in flight are a clean stream that carries exactly what is still owed. */
  ghost predicate Balanced(codec: Codec, s: State, flight: seq<byte>) {
    && Undelivered(codec, flight).Some?
    && s.delivered + s.leftover + Undelivered(codec, flight).value == s.written
  }

  predicate WellPhased(s: State) {
    && !s.failed
    && (s.reader.Idle? ==> s.taken == [])
    && (s.reader.Reading? ==> s.leftover == [])
    && (|s.taken| > 4 ==> |s.taken| <= 4 + U32(s.taken[..4]))
  }

  ghost predicate Inv(codec: Codec, s: State) {
    WellPhased(s) && Balanced(codec, s, InFlight(s))
  }

  /** When the bytes taken are a whole packet, they give what the whole stream gives. */
  lemma WholePacketTaken(codec: Codec, taken: seq<byte>, behind: seq<byte>)
    requires ReadPacket(codec, taken + behind).Got?
    requires |taken| >= 4 && |taken| <= 4 + U32(taken[..4])
    requires Missing(taken) == 0
    ensures ReadPacket(codec, taken) == Got(ReadPacket(codec, taken + behind).data, [])
    ensures ReadPacket(codec, taken + behind).rest == behind
  {
    var all := taken + behind;
    assert all[..4] == taken[..4];
    var length := U32(taken[..4]);
    assert |taken| == 4 + length;
    assert all[4..4 + length] == taken[4..4 + length];
    assert all[4 + length..] == behind;
  }

  lemma WritePreserves(codec: Codec, s: State, e: Event)
    requires codec.Lawful() && Inv(codec, s) && e.Write? && Enabled(codec, s, e)
    ensures Inv(codec, Step(codec, s, e))
  {
    var frame := Frame(codec, e.data, e.nonce, e.padding);
    UndeliveredWrite(codec, InFlight(s), e.data, e.nonce, e.padding);
    ConcatAssociative(s.taken + s.wire, s.outgoing, frame);
    ConcatAssociative(s.delivered + s.leftover, Undelivered(codec, InFlight(s)).value, e.data);
  }

  lemma DeliverKeepsOrder(s: State, data: seq<byte>, want: nat, later: seq<byte>)
    requires s.delivered + (data + later) == s.written
    ensures Deliver(s, data, want).delivered + Deliver(s, data, want).leftover + later == s.written
  {
    var n := Min(want, |data|);
    ConcatAssociative(s.delivered, data[..n], data[n..]);
    ConcatAssociative(s.delivered, data, later);
    assert data[..n] + data[n..] == data;
  }

  lemma FinishReads(codec: Codec, s: State)
    requires Inv(codec, s) && Enabled(codec, s, FinishRead)
    ensures ReadPacket(codec, s.taken).Got?
    ensures Undelivered(codec, s.wire + s.outgoing).Some?
    ensures Undelivered(codec, InFlight(s)).value
         == ReadPacket(codec, s.taken).data + Undelivered(codec, s.wire + s.outgoing).value
  {
    var behind := s.wire + s.outgoing;
    ConcatAssociative(s.taken, s.wire, s.outgoing);
    assert ReadPacket(codec, s.taken + behind).Got?;
    WholePacketTaken(codec, s.taken, behind);
    UndeliveredCons(codec, s.taken + behind, ReadPacket(codec, s.taken).data, behind);
  }

  lemma DeliverPreserves(codec: Codec, s: State, data: seq<byte>, behind: seq<byte>)
    requires WellPhased(s) && s.reader.Reading? && behind == s.wire + s.outgoing
    requires Undelivered(codec, behind).Some?
    requires s.delivered + (data + Undelivered(codec, behind).value) == s.written
    ensures Inv(codec, Deliver(s, data, s.reader.want))
  {
    DeliverKeepsOrder(s, data, s.reader.want, Undelivered(codec, behind).value);
    assert InFlight(Deliver(s, data, s.reader.want)) == behind;
  }

  lemma FinishPreserves(codec: Codec, s: State)
    requires Inv(codec, s) && Enabled(codec, s, FinishRead)
    ensures Inv(codec, Step(codec, s, FinishRead))
  {
    FinishReads(codec, s);
    assert s.delivered + s.leftover == s.delivered;
    DeliverPreserves(codec, s, ReadPacket(codec, s.taken).data, s.wire + s.outgoing);
  }

  lemma StartPreserves(codec: Codec, s: State, want: nat)
    requires Inv(codec, s) && Enabled(codec, s, StartRead(want))
    ensures Inv(codec, Step(codec, s, StartRead(want)))
  {
    var later := Undelivered(codec, InFlight(s)).value;
    ConcatAssociative(s.delivered, s.leftover, later);
    DeliverKeepsOrder(s, s.leftover, want, later);
    assert InFlight(Step(codec, s, StartRead(want))) == InFlight(s);
  }

  /** Moving bytes along does not change the stream, however it is cut. */
  lemma MoveKeepsFlight(codec: Codec, s: State, e: Event)
    requires Enabled(codec, s, e) && (e.Arrive? || e.Pull?)
    ensures InFlight(Step(codec, s, e)) == InFlight(s)
  {
    if e.Arrive? {
      ConcatAssociative(s.taken, s.wire, s.outgoing[..e.k]);
      MoveFront(s.taken + s.wire, s.outgoing, e.k);
    } else {
      MoveFront(s.taken, s.wire, e.k);
    }
  }

  lemma MoveKeepsPhase(codec: Codec, s: State, e: Event)
    requires WellPhased(s) && Enabled(codec, s, e) && (e.Arrive? || e.Pull?)
    ensures WellPhased(Step(codec, s, e))
  {
    if e.Pull? && |s.taken| >= 4 {
      assert (s.taken + s.wire[..e.k])[..4] == s.taken[..4];
    }
  }

  lemma MovePreserves(codec: Codec, s: State, e: Event)
    requires Inv(codec, s) && Enabled(codec, s, e) && (e.Arrive? || e.Pull?)
    ensures Inv(codec, Step(codec, s, e))
  {
    MoveKeepsFlight(codec, s, e);
    MoveKeepsPhase(codec, s, e);
    assert Balanced(codec, Step(codec, s, e), InFlight(s));
  }

  lemma StepPreserves(codec: Codec, s: State, e: Event)
    requires codec.Lawful() && Inv(codec, s) && Enabled(codec, s, e)
    ensures Inv(codec, Step(codec, s, e))
  {
    match e
    case Write(_, _, _) => WritePreserves(codec, s, e);
    case StartRead(want) => StartPreserves(codec, s, want);
    case FinishRead => FinishPreserves(codec, s);
    case _ => MovePreserves(codec, s, e);
  }

  lemma {:induction false} RunInv(codec: Codec, states: seq<State>, events: seq<Event>, i: nat)
    requires codec.Lawful() && IsRun(codec, states, events) && states[0] == INITIAL && i < |states|
    ensures Inv(codec, states[i])
  {
    if i == 0 {
      assert InFlight(INITIAL) == [];
    } else {
      RunInv(codec, states, events, i - 1);
      StepPreserves(codec, states[i - 1], events[i - 1]);
    }
  }

  /** In every run, no read fails and what has been returned is a prefix of what was written. */
  lemma LosslessFifo(codec: Codec, states: seq<State>, events: seq<Event>, i: nat)
    requires codec.Lawful() && IsRun(codec, states, events) && states[0] == INITIAL && i < |states|
    ensures !states[i].failed
    ensures states[i].delivered <= states[i].written
  {
    RunInv(codec, states, events, i);
    var s := states[i];
    ConcatAssociative(s.delivered, s.leftover, Undelivered(codec, InFlight(s)).value);
  }

  // ---- progress ----

  /** Everything but writes and empty reads. */
  predicate Draining(e: Event) {
    !e.Write? && (e.StartRead? ==> e.want > 0)
  }

  function Work(s: State): nat {
    3 * |s.outgoing| + 2 * |s.wire| + |s.taken| + |s.leftover| + if s.reader.Idle? then 1 else 0
  }

  lemma DataShorterThanPacket(codec: Codec, taken: seq<byte>)
    requires codec.Lawful() && ReadPacket(codec, taken).Got?
    ensures |ReadPacket(codec, taken).data| + 4 <= |taken|
  {
  }

  lemma DrainingWorks(codec: Codec, s: State, e: Event)
    requires codec.Lawful() && Inv(codec, s) && Enabled(codec, s, e) && Draining(e)
    ensures Work(Step(codec, s, e)) < Work(s)
  {
    if e.FinishRead? {
      FinishReads(codec, s);
      DataShorterThanPacket(codec, s.taken);
    }
  }

  /** A state in which the peers can do nothing more has delivered everything. */
  lemma StuckMeansDelivered(codec: Codec, s: State)
    requires Inv(codec, s)
    requires forall e :: Draining(e) ==> !Enabled(codec, s, e)
    ensures s.delivered == s.written
  {
    assert !Enabled(codec, s, Arrive(1)) && Draining(Arrive(1));
    assert !Enabled(codec, s, StartRead(1)) && Draining(StartRead(1));
    assert !Enabled(codec, s, Pull(1)) && Draining(Pull(1));
    assert !Enabled(codec, s, FinishRead) && Draining(FinishRead);
    assert s.outgoing == [] && s.wire == [] && Missing(s.taken) > 0;
    assert InFlight(s) == s.taken;
    assert s.taken == [];
    assert Undelivered(codec, []) == Some([]);
  }

  /** Once writing stops, at most Work(s) arrivals and non-empty reads remain before all data is delivered. */
  lemma {:induction false} DrainsCompletely(codec: Codec, states: seq<State>, events: seq<Event>)
    requires codec.Lawful() && IsRun(codec, states, events) && Inv(codec, states[0])
    requires forall i :: 0 <= i < |events| ==> Draining(events[i])
    ensures Inv(codec, states[|events|]) && Work(states[|events|]) + |events| <= Work(states[0])
    ensures (forall e :: Draining(e) ==> !Enabled(codec, states[|events|], e)) ==>
              states[|events|].delivered == states[|events|].written == states[0].written
    decreases |events|
  {
    var n := |events|;
    if n > 0 {
      assert IsRun(codec, states[..n], events[..n - 1]);
      DrainsCompletely(codec, states[..n], events[..n - 1]);
      StepPreserves(codec, states[n - 1], events[n - 1]);
      DrainingWorks(codec, states[n - 1], events[n - 1]);
      WrittenUnchanged(codec, states, events);
    }
    if forall e :: Draining(e) ==> !Enabled(codec, states[n], e) {
      StuckMeansDelivered(codec, states[n]);
    }
  }

  lemma {:induction false} WrittenUnchanged(codec: Codec, states: seq<State>, events: seq<Event>)
    requires IsRun(codec, states, events)
    requires forall i :: 0 <= i < |events| ==> Draining(events[i])
    ensures states[|events|].written == states[0].written
    decreases |events|
  {
    var n := |events|;
    if n > 0 {
      assert IsRun(codec, states[..n], events[..n - 1]);
      WrittenUnchanged(codec, states[..n], events[..n - 1]);
      assert Draining(events[n - 1]);
    }
  }
}
