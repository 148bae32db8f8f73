/**
 Any number of connections in both directions on one pool of buffers, as a transition system. A step is one pool
 operation, one computation into a buffer, or one partial transport read or write of any call; calls of different
 connections interleave freely and may block in the middle of a packet with its bytes in a pooled buffer. Each
 direction refines the one-connection system RecordLink, which knows no buffers.
 */
module BufferOwnership {
  import opened Bytes
  import opened RecordFormat
  import RecordLink

  type Buffer = nat

  datatype Role = SourceRole | PacketRole | BodyRole | PlainRole // the two buffers of a Write, the two of a Read

  /** Where a Write stands. */
  datatype Writer =
    | Silent
    | Copying(data: seq<byte>, src: Buffer)                      // has its first buffer
    | Padded(data: seq<byte>, padding: seq<byte>, src: Buffer)   // the payload is in it, if padding is on
    | Building(data: seq<byte>, padding: seq<byte>, src: Buffer, dst: Buffer)
    | Sending(src: Buffer, dst: Buffer, length: nat, sent: nat)  // inside the transport write of dst[..length]
    | Releasing(src: Buffer)

  /** Where a Read stands. */
  datatype Reader =
    | Quiet
    | InHeader(want: nat, header: seq<byte>)
    | InBody(want: nat, header: seq<byte>, pkt: Buffer, filled: nat)  // inside io.ReadFull
    | Opening(want: nat, header: seq<byte>, pkt: Buffer, plain: Buffer)
    | Opened(want: nat, header: seq<byte>, pkt: Buffer, plain: Buffer, size: nat)
    | Leaving(pkt: Buffer, last: Option<Buffer>)                      // the deferred Puts

  /** One direction of a connection: its writer at one end, its reader at the other. */
  datatype Link = Link(
    codec: Codec, writer: Writer, reader: Reader, outgoing: seq<byte>, wire: seq<byte>,
    leftover: seq<byte>, written: seq<byte>, delivered: seq<byte>, failed: bool)

  datatype Holder = Holder(link: nat, role: Role)

  datatype State = State(
    mem: map<Buffer, seq<byte>>,
    free: set<Buffer>,
    owner: map<Buffer, Holder>, // bookkeeping: who got a buffer and has not put it back
    links: seq<Link>)

  datatype Act =
    | BeginWrite(data: seq<byte>, b: Buffer) | Pad(padding: seq<byte>) | GetPacket(b: Buffer)
    | Build(nonce: seq<byte>) | Transmit(k: nat) | PutPacket(keep: bool) | PutSource(keep: bool)
    | Arrive(k: nat)
    | BeginRead(want: nat) | PullHeader(k: nat) | GetBody(b: Buffer) | PullBody(k: nat)
    | GetPlain(b: Buffer) | OpenSealed | Finish | Fail | PutPlain(keep: bool) | PutBody(keep: bool)

  datatype Event = Event(link: nat, act: Act)

  // ---- one link and the contents of the buffers it holds ----

  function Held(l: Link, role: Role): Option<Buffer> {
    match role
    case SourceRole =>
      (match l.writer
       case Silent => None
       case Copying(_, src) => Some(src)
       case Padded(_, _, src) => Some(src)
       case Building(_, _, src, _) => Some(src)
       case Sending(src, _, _, _) => Some(src)
       case Releasing(src) => Some(src))
    case PacketRole =>
      (match l.writer
       case Building(_, _, _, dst) => Some(dst)
       case Sending(_, dst, _, _) => Some(dst)
       case _ => None)
    case BodyRole =>
      (match l.reader
       case InBody(_, _, pkt, _) => Some(pkt)
       case Opening(_, _, pkt, _) => Some(pkt)
       case Opened(_, _, pkt, _, _) => Some(pkt)
       case Leaving(pkt, _) => Some(pkt)
       case _ => None)
    case PlainRole =>
      (match l.reader
       case Opening(_, _, _, plain) => Some(plain)
       case Opened(_, _, _, plain, _) => Some(plain)
       case Leaving(_, last) => last
       case _ => None)
  }

  /** The contents of the four buffers a link can hold; empty for one it does not hold. */
  datatype View = View(src: seq<byte>, dst: seq<byte>, pkt: seq<byte>, plain: seq<byte>)

  /** copy(buf[at:], data). */
  function Overwrite(buf: seq<byte>, at: nat, data: seq<byte>): (r: seq<byte>)
    ensures |r| == |buf|
    ensures at + |data| <= |buf| ==> r[..at] == buf[..at] && r[at..at + |data|] == data
  {
    if at + |data| <= |buf| then buf[..at] + data + buf[at + |data|..] else buf
  }

  function Slice(s: seq<byte>, lo: nat, hi: nat): seq<byte> {
    if lo <= hi <= |s| then s[lo..hi] else []
  }

  function BodyLength(header: seq<byte>): nat {
    if |header| == 4 then U32(header) else 0
  }

  predicate Whole(r: Reader) {
    r.InBody? && r.filled == BodyLength(r.header)
  }

  /** The payload that Build encrypts: from the padded buffer, or the caller's own data. */
  function PayloadIn(l: Link, v: View): seq<byte> {
    if !l.writer.Building? then []
    else if l.codec.padded then Slice(v.src, 0, 2 + |l.writer.data| + |l.writer.padding|)
    else l.writer.data
  }

  function Unsealed(l: Link, v: View): Option<seq<byte>> {
    if l.codec.gcm.Some? && l.reader.Opening? && |v.pkt| >= BodyLength(l.reader.header) >= NONCE_SIZE
    then l.codec.gcm.value.open(v.pkt[..NONCE_SIZE], v.pkt[NONCE_SIZE..BodyLength(l.reader.header)])
    else None
  }

  /** What Read takes for the payload once the packet is there, and what removing the padding makes of it. */
  function Result(l: Link, v: View): Unpadded {
    match l.reader
    case InBody(_, _, _, filled) => OpenPayload(l.codec, Slice(v.pkt, 0, filled))
    case Opened(_, _, _, _, size) => OpenPayload(l.codec, Slice(v.plain, 0, size))
    case _ => Rejected
  }

  predicate CanFinish(l: Link) {
    (Whole(l.reader) && l.codec.gcm.None?) || l.reader.Opened?
  }

  /** Every way in which Read gives up on a packet. */
  predicate Fails(l: Link, v: View) {
    || (l.reader.InHeader? && |l.reader.header| == 4 && !(0 < U32(l.reader.header) <= BUFFER_SIZE))
    || (Whole(l.reader) && l.codec.gcm.Some? && l.reader.filled < NONCE_SIZE)
    || (l.reader.Opening? && Unsealed(l, v).None?)
    || (CanFinish(l) && !Result(l, v).Plain?)
  }

  predicate Ready(l: Link, v: View, act: Act) {
    match act
    case BeginWrite(_, _) => l.writer.Silent?
    case Pad(padding) =>
      && l.writer.Copying? && Readable(l.codec, l.writer.data)
      && FitsBuffer(l.codec, |Payload(l.codec, l.writer.data, padding)|)
    case GetPacket(_) => l.writer.Padded?
    case Build(nonce) => l.writer.Building? && |nonce| == NONCE_SIZE
    case Transmit(k) => l.writer.Sending? && 0 < k && l.writer.sent + k <= l.writer.length
    case PutPacket(_) => l.writer.Sending? && l.writer.sent == l.writer.length
    case PutSource(_) => l.writer.Releasing?
    case Arrive(k) => 0 < k <= |l.outgoing|
    case BeginRead(_) => l.reader.Quiet?
    case PullHeader(k) => l.reader.InHeader? && 0 < k <= |l.wire| && |l.reader.header| + k <= 4
    case GetBody(_) => l.reader.InHeader? && |l.reader.header| == 4 && 0 < U32(l.reader.header) <= BUFFER_SIZE
    case PullBody(k) => l.reader.InBody? && 0 < k <= |l.wire| && l.reader.filled + k <= BodyLength(l.reader.header)
    case GetPlain(_) => Whole(l.reader) && l.codec.gcm.Some? && l.reader.filled >= NONCE_SIZE
    case OpenSealed => l.reader.Opening? && Unsealed(l, v).Some?
    case Finish => CanFinish(l) && Result(l, v).Plain?
    case Fail => Fails(l, v)
    case PutPlain(_) => l.reader.Leaving? && l.reader.last.Some?
    case PutBody(_) => l.reader.Leaving? && l.reader.last.None?
  }

  function Delivered(l: Link, data: seq<byte>, want: nat): Link {
    var n := Min(want, |data|);
    l.(delivered := l.delivered + data[..n], leftover := data[n..])
  }

  /** The reader once its packet is dealt with: only the deferred Puts remain. */
  function Left(r: Reader): Reader {
    match r
    case InBody(_, _, pkt, _) => Leaving(pkt, None)
    case Opening(_, _, pkt, plain) => Leaving(pkt, Some(plain))
    case Opened(_, _, pkt, plain, _) => Leaving(pkt, Some(plain))
    case _ => Quiet
  }

  function Next(l: Link, v: View, act: Act): Link
    requires Ready(l, v, act)
  {
    var w, r := l.writer, l.reader;
    match act
    case BeginWrite(data, b) => l.(writer := Copying(data, b))
    case Pad(padding) => l.(writer := Padded(w.data, padding, w.src))
    case GetPacket(b) => l.(writer := Building(w.data, w.padding, w.src, b))
    case Build(nonce) =>
      var packet := Packet(Body(l.codec, nonce, PayloadIn(l, v)));
      l.(writer := Sending(w.src, w.dst, |packet|, 0), written := l.written + w.data)
    case Transmit(k) =>
      l.(writer := Sending(w.src, w.dst, w.length, w.sent + k),
         outgoing := l.outgoing + Slice(v.dst, w.sent, w.sent + k))
    case PutPacket(_) => l.(writer := Releasing(w.src))
    case PutSource(_) => l.(writer := Silent)
    case Arrive(k) => l.(outgoing := l.outgoing[k..], wire := l.wire + l.outgoing[..k])
    case BeginRead(want) =>
      if l.leftover != [] then Delivered(l, l.leftover, want) else l.(reader := InHeader(want, []))
    case PullHeader(k) => l.(reader := InHeader(r.want, r.header + l.wire[..k]), wire := l.wire[k..])
    case GetBody(b) => l.(reader := InBody(r.want, r.header, b, 0))
    case PullBody(k) => l.(reader := InBody(r.want, r.header, r.pkt, r.filled + k), wire := l.wire[k..])
    case GetPlain(b) => l.(reader := Opening(r.want, r.header, r.pkt, b))
    case OpenSealed => l.(reader := Opened(r.want, r.header, r.pkt, r.plain, |Unsealed(l, v).value|))
    case Finish => Delivered(l, Result(l, v).data, r.want).(reader := Left(r))
    case Fail => l.(failed := true, reader := Left(r))
    case PutPlain(_) => l.(reader := Leaving(r.pkt, None))
    case PutBody(_) => l.(reader := Quiet)
  }

  /** What a step does to the pool and the buffers. */
  datatype Effect =
    | Nothing
    | Get(role: Role, b: Buffer)
    | Put(role: Role, b: Buffer, keep: bool)             // the runtime may drop the buffer
    | Fill(role: Role, b: Buffer, contents: seq<byte>)

  function EffectOf(l: Link, v: View, act: Act): Effect
    requires Ready(l, v, act)
  {
    match act
    case BeginWrite(_, b) => Get(SourceRole, b)
    case Pad(padding) =>
      if l.codec.padded
      then Fill(SourceRole, l.writer.src, Overwrite(v.src, 0, AddPadding(l.writer.data, padding)))
      else Nothing
    case GetPacket(b) => Get(PacketRole, b)
    case Build(nonce) =>
      Fill(PacketRole, l.writer.dst, Overwrite(v.dst, 0, Packet(Body(l.codec, nonce, PayloadIn(l, v)))))
    case PutPacket(keep) => Put(PacketRole, l.writer.dst, keep)
    case PutSource(keep) => Put(SourceRole, l.writer.src, keep)
    case GetBody(b) => Get(BodyRole, b)
    case PullBody(k) => Fill(BodyRole, l.reader.pkt, Overwrite(v.pkt, l.reader.filled, l.wire[..k]))
    case GetPlain(b) => Get(PlainRole, b)
    case OpenSealed => Fill(PlainRole, l.reader.plain, Overwrite(v.plain, 0, Unsealed(l, v).value))
    case PutPlain(keep) => Put(PlainRole, l.reader.last.value, keep)
    case PutBody(keep) => Put(BodyRole, l.reader.pkt, keep)
    case _ => Nothing
  }

  function SetView(v: View, role: Role, contents: seq<byte>): View {
    match role
    case SourceRole => v.(src := contents)
    case PacketRole => v.(dst := contents)
    case BodyRole => v.(pkt := contents)
    case PlainRole => v.(plain := contents)
  }

  /** What the link's buffers hold after an effect; `got` is what a buffer from the pool happens to hold. */
  function ViewAfter(v: View, effect: Effect, got: seq<byte>): View {
    match effect
    case Nothing => v
    case Get(role, _) => SetView(v, role, got)
    case Put(role, _, _) => SetView(v, role, [])
    case Fill(role, _, contents) => SetView(v, role, contents)
  }

  function NextView(l: Link, v: View, act: Act, got: seq<byte>): View
    requires Ready(l, v, act)
  {
    ViewAfter(v, EffectOf(l, v, act), got)
  }

  // ---- one link refines RecordLink ----

  function Unsent(l: Link, v: View): seq<byte> {
    if l.writer.Sending? then Slice(v.dst, l.writer.sent, l.writer.length) else []
  }

  /** The bytes of the packet that the Read in progress has so far, wherever they are. */
  function Taken(l: Link, v: View): seq<byte> {
    match l.reader
    case InHeader(_, header) => header
    case InBody(_, header, _, filled) => header + Slice(v.pkt, 0, filled)
    case Opening(_, header, _, _) => header + Slice(v.pkt, 0, BodyLength(header))
    case Opened(_, header, _, _, _) => header + Slice(v.pkt, 0, BodyLength(header))
    case _ => []
  }

  function Phase(r: Reader): RecordLink.Reader {
    if r.Quiet? || r.Leaving? then RecordLink.Idle else RecordLink.Reading(r.want)
  }

  /** The link without its buffers. */
  function Abstract(l: Link, v: View): RecordLink.State {
    RecordLink.State(l.outgoing + Unsent(l, v), l.wire, Taken(l, v), l.leftover, Phase(l.reader), l.written,
                     l.delivered, l.failed)
  }

  /** A held buffer is a whole pooled buffer. */
  predicate Sized(l: Link, v: View) {
    && (Held(l, SourceRole).Some? ==> |v.src| == BUFFER_SIZE)
    && (Held(l, PacketRole).Some? ==> |v.dst| == BUFFER_SIZE)
    && (Held(l, BodyRole).Some? ==> |v.pkt| == BUFFER_SIZE)
    && (Held(l, PlainRole).Some? ==> |v.plain| == BUFFER_SIZE)
  }

  predicate PayloadReady(codec: Codec, data: seq<byte>, padding: seq<byte>, src: seq<byte>) {
    && Readable(codec, data) && FitsBuffer(codec, |Payload(codec, data, padding)|)
    && (codec.padded ==> Slice(src, 0, 2 + |data| + |padding|) == AddPadding(data, padding))
  }

  predicate GoodWriter(l: Link, v: View) {
    match l.writer
    case Padded(data, padding, _) => PayloadReady(l.codec, data, padding, v.src)
    case Building(data, padding, _, _) => PayloadReady(l.codec, data, padding, v.src)
    case Sending(_, _, length, sent) => sent <= length <= BUFFER_SIZE
    case _ => true
  }

  predicate GoodHeader(header: seq<byte>) {
    |header| == 4 && 0 < U32(header) <= BUFFER_SIZE
  }

  predicate GoodReader(l: Link, v: View) {
    match l.reader
    case InHeader(_, header) => |header| <= 4
    case InBody(_, header, _, filled) => GoodHeader(header) && filled <= U32(header)
    case Opening(_, header, _, _) => GoodHeader(header) && U32(header) >= NONCE_SIZE && l.codec.gcm.Some?
    case Opened(_, header, _, _, size) =>
      && GoodHeader(header) && U32(header) >= NONCE_SIZE && l.codec.gcm.Some?
      && |v.pkt| >= U32(header) && size <= BUFFER_SIZE
      && l.codec.gcm.value.open(v.pkt[..NONCE_SIZE], v.pkt[NONCE_SIZE..U32(header)]) == Some(Slice(v.plain, 0, size))
    case _ => true
  }

  ghost predicate Good(l: Link, v: View) {
    l.codec.Lawful() && Sized(l, v) && GoodWriter(l, v) && GoodReader(l, v)
  }

  ghost predicate LinkInv(l: Link, v: View) {
    Good(l, v) && RecordLink.Inv(l.codec, Abstract(l, v))
  }

  /** The step of RecordLink that a step of this system is, if it is one. */
  function AsEvent(l: Link, act: Act): Option<RecordLink.Event> {
    match act
    case Build(nonce) =>
      if l.writer.Building? then Some(RecordLink.Write(l.writer.data, nonce, l.writer.padding)) else None
    case Arrive(k) => Some(RecordLink.Arrive(k))
    case BeginRead(want) => Some(RecordLink.StartRead(want))
    case PullHeader(k) => Some(RecordLink.Pull(k))
    case PullBody(k) => Some(RecordLink.Pull(k))
    case Finish => Some(RecordLink.FinishRead)
    case _ => None
  }

  ghost predicate Refines(l: Link, v: View, act: Act, got: seq<byte>)
    requires Ready(l, v, act)
  {
    var t := Abstract(Next(l, v, act), NextView(l, v, act, got));
    match AsEvent(l, act)
    case None => t == Abstract(l, v)
    case Some(e) => RecordLink.Enabled(l.codec, Abstract(l, v), e) && t == RecordLink.Step(l.codec, Abstract(l, v), e)
  }

  predicate WriterAct(act: Act) {
    act.BeginWrite? || act.Pad? || act.GetPacket? || act.Build? || act.Transmit? || act.PutPacket? || act.PutSource?
  }

  lemma PadRefines(l: Link, v: View, act: Act, got: seq<byte>)
    requires Good(l, v) && Ready(l, v, act) && act.Pad?
    ensures Refines(l, v, act, got) && GoodWriter(Next(l, v, act), NextView(l, v, act, got))
  {
  }

  lemma BuildRefines(l: Link, v: View, act: Act, got: seq<byte>)
    requires Good(l, v) && Ready(l, v, act) && act.Build?
    ensures Refines(l, v, act, got) && GoodWriter(Next(l, v, act), NextView(l, v, act, got))
  {
    var w := l.writer;
    assert PayloadIn(l, v) == Payload(l.codec, w.data, w.padding);
    var packet := Frame(l.codec, w.data, act.nonce, w.padding);
    assert |packet| == 4 + l.codec.Overhead() + |Payload(l.codec, w.data, w.padding)|;
    assert Slice(Overwrite(v.dst, 0, packet), 0, |packet|) == packet;
    assert l.outgoing + [] == l.outgoing;
  }

  lemma SliceSplit(s: seq<byte>, lo: nat, mid: nat, hi: nat)
    requires lo <= mid <= hi <= |s|
    ensures Slice(s, lo, hi) == Slice(s, lo, mid) + Slice(s, mid, hi)
  {
  }

  lemma TransmitRefines(l: Link, v: View, act: Act, got: seq<byte>)
    requires Good(l, v) && Ready(l, v, act) && act.Transmit?
    ensures Refines(l, v, act, got) && GoodWriter(Next(l, v, act), NextView(l, v, act, got))
  {
    var w := l.writer;
    SliceSplit(v.dst, w.sent, w.sent + act.k, w.length);
    ConcatAssociative(l.outgoing, Slice(v.dst, w.sent, w.sent + act.k), Slice(v.dst, w.sent + act.k, w.length));
  }

  lemma OtherWriterRefines(l: Link, v: View, act: Act, got: seq<byte>)
    requires Good(l, v) && Ready(l, v, act) && (act.BeginWrite? || act.GetPacket? || act.PutPacket? || act.PutSource?)
    ensures Refines(l, v, act, got) && GoodWriter(Next(l, v, act), NextView(l, v, act, got))
  {
  }

  lemma ArriveRefines(l: Link, v: View, act: Act, got: seq<byte>)
    requires Good(l, v) && Ready(l, v, act) && act.Arrive?
    ensures Refines(l, v, act, got)
  {
    var k, unsent := act.k, Unsent(l, v);
    assert (l.outgoing + unsent)[..k] == l.outgoing[..k];
    assert (l.outgoing + unsent)[k..] == l.outgoing[k..] + unsent;
  }

  lemma HeaderInFront(header: seq<byte>, body: seq<byte>)
    requires |header| == 4
    ensures (header + body)[..4] == header
  {
  }

  lemma BeginReadRefines(l: Link, v: View, act: Act, got: seq<byte>)
    requires Good(l, v) && Ready(l, v, act) && act.BeginRead?
    ensures Refines(l, v, act, got) && GoodReader(Next(l, v, act), NextView(l, v, act, got))
  {
  }

  lemma PullHeaderRefines(l: Link, v: View, act: Act, got: seq<byte>)
    requires Good(l, v) && Ready(l, v, act) && act.PullHeader?
    ensures Refines(l, v, act, got) && GoodReader(Next(l, v, act), NextView(l, v, act, got))
  {
  }

  lemma PullBodyRefines(l: Link, v: View, act: Act, got: seq<byte>)
    requires Good(l, v) && Ready(l, v, act) && act.PullBody?
    ensures Refines(l, v, act, got) && GoodReader(Next(l, v, act), NextView(l, v, act, got))
  {
    var r, more := l.reader, l.wire[..act.k];
    var after := Overwrite(v.pkt, r.filled, more);
    HeaderInFront(r.header, Slice(v.pkt, 0, r.filled));
    SliceSplit(after, 0, r.filled, r.filled + act.k);
    assert Slice(after, 0, r.filled) == Slice(v.pkt, 0, r.filled);
    ConcatAssociative(r.header, Slice(v.pkt, 0, r.filled), more);
  }

  lemma PutRefines(l: Link, v: View, act: Act, got: seq<byte>)
    requires Good(l, v) && Ready(l, v, act) && (act.PutPlain? || act.PutBody?)
    ensures Refines(l, v, act, got) && GoodReader(Next(l, v, act), NextView(l, v, act, got))
  {
  }

  lemma GetRefines(l: Link, v: View, act: Act, got: seq<byte>)
    requires Good(l, v) && Ready(l, v, act) && (act.GetBody? || act.GetPlain?)
    ensures Refines(l, v, act, got) && GoodReader(Next(l, v, act), NextView(l, v, act, got))
  {
    if act.GetBody? {
      assert l.reader.header + [] == l.reader.header;
    }
  }

  lemma OpenRefines(l: Link, v: View, act: Act, got: seq<byte>)
    requires Good(l, v) && Ready(l, v, act) && act.OpenSealed?
    ensures Refines(l, v, act, got) && GoodReader(Next(l, v, act), NextView(l, v, act, got))
  {
    var plain := Unsealed(l, v).value;
    assert |plain| <= BUFFER_SIZE;
    assert Slice(Overwrite(v.plain, 0, plain), 0, |plain|) == plain;
  }

  /** The packet as the reader has it in its buffers is what RecordLink's reader has taken. */
  lemma ResultIsPacket(l: Link, v: View)
    requires Good(l, v) && (Whole(l.reader) || l.reader.Opening? || l.reader.Opened?)
    ensures RecordLink.Missing(Taken(l, v)) == 0
    ensures RecordLink.Enabled(l.codec, Abstract(l, v), RecordLink.FinishRead)
    ensures var body := Slice(v.pkt, 0, BodyLength(l.reader.header));
            ReadPacket(l.codec, Taken(l, v)).Got? ==>
              OpenBody(l.codec, body) == Plain(ReadPacket(l.codec, Taken(l, v)).data)
    ensures CanFinish(l) ==> Result(l, v) == OpenBody(l.codec, Slice(v.pkt, 0, BodyLength(l.reader.header)))
  {
    var header := l.reader.header;
    var body := Slice(v.pkt, 0, U32(header));
    HeaderInFront(header, body);
    assert (header + body)[4..4 + U32(header)] == body;
    if l.reader.Opened? {
      assert body[..NONCE_SIZE] == v.pkt[..NONCE_SIZE] && body[NONCE_SIZE..] == v.pkt[NONCE_SIZE..U32(header)];
    }
  }

  lemma FinishRefines(l: Link, v: View, act: Act, got: seq<byte>)
    requires LinkInv(l, v) && Ready(l, v, act) && act.Finish?
    ensures Refines(l, v, act, got) && GoodReader(Next(l, v, act), NextView(l, v, act, got))
  {
    ResultIsPacket(l, v);
    RecordLink.FinishReads(l.codec, Abstract(l, v));
  }

  /** No Read ever gives up on a packet. */
  lemma NeverFails(l: Link, v: View)
    requires LinkInv(l, v)
    ensures !Fails(l, v)
  {
    if l.reader.InHeader? && |l.reader.header| == 4 && !(0 < U32(l.reader.header) <= BUFFER_SIZE) {
      assert l.reader.header[..4] == l.reader.header;
      RecordLink.FinishReads(l.codec, Abstract(l, v));
    } else if Whole(l.reader) || l.reader.Opening? || l.reader.Opened? {
      ResultIsPacket(l, v);
      RecordLink.FinishReads(l.codec, Abstract(l, v));
      if l.reader.Opening? {
        OpeningOpens(l, v);
      }
    }
  }

  lemma OpeningOpens(l: Link, v: View)
    requires LinkInv(l, v) && l.reader.Opening? && OpenBody(l.codec, Slice(v.pkt, 0, U32(l.reader.header))).Plain?
    ensures Unsealed(l, v).Some?
  {
    var n := U32(l.reader.header);
    var body := Slice(v.pkt, 0, n);
    assert body[..NONCE_SIZE] == v.pkt[..NONCE_SIZE] && body[NONCE_SIZE..] == v.pkt[NONCE_SIZE..n];
  }

  lemma WriterLeavesReader(l: Link, v: View, act: Act, got: seq<byte>)
    requires Ready(l, v, act) && GoodReader(l, v) && WriterAct(act)
    ensures GoodReader(Next(l, v, act), NextView(l, v, act, got))
  {
    var t, u := Next(l, v, act), NextView(l, v, act, got);
    assert t.reader == l.reader && t.codec == l.codec && u.pkt == v.pkt && u.plain == v.plain;
  }

  lemma ReaderLeavesWriter(l: Link, v: View, act: Act, got: seq<byte>)
    requires Ready(l, v, act) && GoodWriter(l, v) && !WriterAct(act)
    ensures GoodWriter(Next(l, v, act), NextView(l, v, act, got))
  {
    var t, u := Next(l, v, act), NextView(l, v, act, got);
    assert t.writer == l.writer && t.codec == l.codec && u.src == v.src && u.dst == v.dst;
  }

  lemma WriterStaysSized(l: Link, v: View, act: Act, got: seq<byte>)
    requires Ready(l, v, act) && Sized(l, v) && |got| == BUFFER_SIZE && WriterAct(act)
    ensures Sized(Next(l, v, act), NextView(l, v, act, got))
  {
  }

  lemma ReaderStaysSized(l: Link, v: View, act: Act, got: seq<byte>)
    requires Ready(l, v, act) && Sized(l, v) && |got| == BUFFER_SIZE && !WriterAct(act)
    ensures Sized(Next(l, v, act), NextView(l, v, act, got))
  {
  }

  lemma WriterRefines(l: Link, v: View, act: Act, got: seq<byte>)
    requires LinkInv(l, v) && Ready(l, v, act) && WriterAct(act)
    ensures Refines(l, v, act, got) && GoodWriter(Next(l, v, act), NextView(l, v, act, got))
  {
    match act {
      case Pad(_) => PadRefines(l, v, act, got);
      case Build(_) => BuildRefines(l, v, act, got);
      case Transmit(_) => TransmitRefines(l, v, act, got);
      case _ => OtherWriterRefines(l, v, act, got);
    }
  }

  lemma ReaderRefines(l: Link, v: View, act: Act, got: seq<byte>)
    requires LinkInv(l, v) && Ready(l, v, act) && !WriterAct(act)
    ensures Refines(l, v, act, got) && GoodReader(Next(l, v, act), NextView(l, v, act, got))
  {
    NeverFails(l, v);
    match act {
      case Arrive(_) => ArriveRefines(l, v, act, got);
      case BeginRead(_) => BeginReadRefines(l, v, act, got);
      case PullHeader(_) => PullHeaderRefines(l, v, act, got);
      case PullBody(_) => PullBodyRefines(l, v, act, got);
      case OpenSealed => OpenRefines(l, v, act, got);
      case Finish => FinishRefines(l, v, act, got);
      case Fail => assert false;
      case GetBody(_) => GetRefines(l, v, act, got);
      case GetPlain(_) => GetRefines(l, v, act, got);
      case _ => PutRefines(l, v, act, got);
    }
  }

  /**
   Every step of a link, whatever the buffer it gets from the pool holds, is invisible without the buffers or is
   one step of RecordLink; so the link's invariant holds on.
   */
  lemma StepRefines(l: Link, v: View, act: Act, got: seq<byte>)
    requires LinkInv(l, v) && Ready(l, v, act) && |got| == BUFFER_SIZE
    ensures Refines(l, v, act, got)
    ensures LinkInv(Next(l, v, act), NextView(l, v, act, got))
  {
    if WriterAct(act) {
      WriterLeavesReader(l, v, act, got);
      WriterStaysSized(l, v, act, got);
      WriterRefines(l, v, act, got);
    } else {
      ReaderLeavesWriter(l, v, act, got);
      ReaderStaysSized(l, v, act, got);
      ReaderRefines(l, v, act, got);
    }
    CodecKept(l, v, act);
    InvFollows(l, v, act, got);
  }

  lemma CodecKept(l: Link, v: View, act: Act)
    requires Ready(l, v, act)
    ensures Next(l, v, act).codec == l.codec
  {
  }

  lemma InvFollows(l: Link, v: View, act: Act, got: seq<byte>)
    requires Ready(l, v, act) && Refines(l, v, act, got) && l.codec.Lawful() && RecordLink.Inv(l.codec, Abstract(l, v))
    ensures RecordLink.Inv(l.codec, Abstract(Next(l, v, act), NextView(l, v, act, got)))
  {
    match AsEvent(l, act)
    case None =>
    case Some(e) => RecordLink.StepPreserves(l.codec, Abstract(l, v), e);
  }

  // ---- all links on one pool ----

  function NewBuffer(): seq<byte> {
    seq(BUFFER_SIZE, _ => 0)
  }

  function Contents(mem: map<Buffer, seq<byte>>, b: Option<Buffer>): seq<byte> {
    if b.Some? && b.value in mem then mem[b.value] else []
  }

  function Look(mem: map<Buffer, seq<byte>>, l: Link): View {
    View(Contents(mem, Held(l, SourceRole)), Contents(mem, Held(l, PacketRole)), Contents(mem, Held(l, BodyRole)),
         Contents(mem, Held(l, PlainRole)))
  }

  /** A buffer can be had if it is in the pool, or new. */
  predicate CanHave(s: State, effect: Effect) {
    effect.Get? ==> effect.b in s.free || effect.b !in s.mem
  }

  predicate Enabled(s: State, e: Event) {
    && e.link < |s.links|
    && var l := s.links[e.link]; var v := Look(s.mem, l); Ready(l, v, e.act) && CanHave(s, EffectOf(l, v, e.act))
  }

  function After(s: State, i: nat, effect: Effect, l: Link): State
    requires i < |s.links|
  {
    var t := s.(links := s.links[i := l]);
    match effect
    case Nothing => t
    case Get(role, b) =>
      t.(mem := if b in s.mem then s.mem else s.mem[b := NewBuffer()], free := s.free - {b},
         owner := s.owner[b := Holder(i, role)])
    case Put(_, b, keep) => t.(free := if keep then s.free + {b} else s.free, owner := s.owner - {b})
    case Fill(_, b, contents) => t.(mem := s.mem[b := contents])
  }

  function Step(s: State, e: Event): State
    requires Enabled(s, e)
  {
    var l := s.links[e.link];
    var v := Look(s.mem, l);
    After(s, e.link, EffectOf(l, v, e.act), Next(l, v, e.act))
  }

  function Unused(codec: Codec): Link {
    Link(codec, Silent, Quiet, [], [], [], [], [], false)
  }

  function Initial(codecs: seq<Codec>): State {
    State(map[], {}, map[], seq(|codecs|, i requires 0 <= i < |codecs| => Unused(codecs[i])))
  }

  ghost predicate IsRun(codecs: seq<Codec>, states: seq<State>, events: seq<Event>) {
    && |states| == |events| + 1 && states[0] == Initial(codecs)
    && (forall i :: 0 <= i < |events| ==> Enabled(states[i], events[i]) && states[i + 1] == Step(states[i], events[i]))
  }

  predicate HeldRight(s: State, i: nat, role: Role)
    requires i < |s.links|
  {
    var b := Held(s.links[i], role);
    b.Some? ==> b.value in s.owner && s.owner[b.value] == Holder(i, role)
  }

  /** Every buffer is in the pool, or held by exactly the link and role that the books say, or dropped. */
  ghost predicate Ownership(s: State) {
    && s.free <= s.mem.Keys && s.owner.Keys <= s.mem.Keys && s.free !! s.owner.Keys
    && (forall b :: b in s.mem ==> |s.mem[b]| == BUFFER_SIZE)
    && (forall i, role :: 0 <= i < |s.links| ==> HeldRight(s, i, role))
  }

  ghost predicate Inv(s: State) {
    Ownership(s) && forall i :: 0 <= i < |s.links| ==> LinkInv(s.links[i], Look(s.mem, s.links[i]))
  }

  function HeldAfter(held: Option<Buffer>, role: Role, effect: Effect): Option<Buffer> {
    match effect
    case Get(r, b) => if r == role then Some(b) else held
    case Put(r, _, _) => if r == role then None else held
    case _ => held
  }

  /** An effect that link `l` may have: it puts back and fills only what it holds. */
  predicate Rightful(l: Link, effect: Effect) {
    match effect
    case Nothing => true
    case Get(role, _) => Held(l, role).None?
    case Put(role, b, _) => Held(l, role) == Some(b)
    case Fill(role, b, contents) => Held(l, role) == Some(b) && |contents| == BUFFER_SIZE
  }

  lemma EffectIsRightful(l: Link, v: View, act: Act)
    requires Ready(l, v, act) && Sized(l, v)
    ensures Rightful(l, EffectOf(l, v, act))
  {
  }

  lemma WriterHeldNext(l: Link, v: View, act: Act, role: Role)
    requires Ready(l, v, act) && WriterAct(act)
    ensures Held(Next(l, v, act), role) == HeldAfter(Held(l, role), role, EffectOf(l, v, act))
  {
  }

  lemma ReaderHeldNext(l: Link, v: View, act: Act, role: Role)
    requires Ready(l, v, act) && !WriterAct(act)
    ensures Held(Next(l, v, act), role) == HeldAfter(Held(l, role), role, EffectOf(l, v, act))
  {
  }

  lemma HeldNext(l: Link, v: View, act: Act, role: Role)
    requires Ready(l, v, act)
    ensures Held(Next(l, v, act), role) == HeldAfter(Held(l, role), role, EffectOf(l, v, act))
  {
    if WriterAct(act) {
      WriterHeldNext(l, v, act, role);
    } else {
      ReaderHeldNext(l, v, act, role);
    }
  }

  lemma OwnershipAfter(s: State, i: nat, effect: Effect, l: Link)
    requires Ownership(s) && i < |s.links| && CanHave(s, effect) && Rightful(s.links[i], effect)
    requires forall role :: Held(l, role) == HeldAfter(Held(s.links[i], role), role, effect)
    ensures Ownership(After(s, i, effect, l))
  {
    var t := After(s, i, effect, l);
    if effect.Put? || effect.Fill? {
      assert HeldRight(s, i, effect.role);
    }
    forall j, role | 0 <= j < |t.links| ensures HeldRight(t, j, role) {
      assert HeldRight(s, j, role);
    }
  }

  /** An effect changes the contents of no buffer that another link, or this one in another role, holds. */
  lemma ContentsKept(s: State, i: nat, effect: Effect, l: Link, j: nat, role: Role)
    requires Ownership(s) && i < |s.links| && j < |s.links| && CanHave(s, effect) && Rightful(s.links[i], effect)
    requires effect.Fill? ==> i != j || effect.role != role
    ensures Contents(After(s, i, effect, l).mem, Held(s.links[j], role)) == Contents(s.mem, Held(s.links[j], role))
  {
    assert HeldRight(s, j, role);
    if effect.Fill? {
      assert HeldRight(s, i, effect.role);
    }
  }

  lemma OthersUntouched(s: State, i: nat, effect: Effect, l: Link, j: nat)
    requires Ownership(s) && i < |s.links| && j < |s.links| && CanHave(s, effect) && Rightful(s.links[i], effect)
    requires i != j
    ensures Look(After(s, i, effect, l).mem, s.links[j]) == Look(s.mem, s.links[j])
  {
    ContentsKept(s, i, effect, l, j, SourceRole);
    ContentsKept(s, i, effect, l, j, PacketRole);
    ContentsKept(s, i, effect, l, j, BodyRole);
    ContentsKept(s, i, effect, l, j, PlainRole);
  }

  function Got(s: State, effect: Effect): seq<byte> {
    if effect.Get? && effect.b in s.mem then s.mem[effect.b] else NewBuffer()
  }

  function Part(v: View, role: Role): seq<byte> {
    match role
    case SourceRole => v.src
    case PacketRole => v.dst
    case BodyRole => v.pkt
    case PlainRole => v.plain
  }

  lemma OwnPart(s: State, i: nat, effect: Effect, l: Link, role: Role)
    requires Ownership(s) && i < |s.links| && CanHave(s, effect) && Rightful(s.links[i], effect)
    requires Held(l, role) == HeldAfter(Held(s.links[i], role), role, effect)
    ensures Contents(After(s, i, effect, l).mem, Held(l, role))
         == Part(ViewAfter(Look(s.mem, s.links[i]), effect, Got(s, effect)), role)
  {
    if effect.Nothing? || effect.role != role {
      ContentsKept(s, i, effect, l, i, role);
    }
  }

  /** For the acting link the memory changes as the link's own step says. */
  lemma OwnView(s: State, i: nat, effect: Effect, l: Link)
    requires Ownership(s) && i < |s.links| && CanHave(s, effect) && Rightful(s.links[i], effect)
    requires forall role :: Held(l, role) == HeldAfter(Held(s.links[i], role), role, effect)
    ensures Look(After(s, i, effect, l).mem, l) == ViewAfter(Look(s.mem, s.links[i]), effect, Got(s, effect))
  {
    OwnPart(s, i, effect, l, SourceRole);
    OwnPart(s, i, effect, l, PacketRole);
    OwnPart(s, i, effect, l, BodyRole);
    OwnPart(s, i, effect, l, PlainRole);
  }

  /** A step is the acting link's own step on its own buffers and leaves every other link's buffers alone. */
  lemma StepIsLocal(s: State, e: Event)
    requires Inv(s) && Enabled(s, e)
    ensures var l, t := s.links[e.link], Step(s, e);
            var v := Look(s.mem, l);
            && Ownership(t) && |t.links| == |s.links|
            && t.links[e.link] == Next(l, v, e.act)
            && Look(t.mem, t.links[e.link]) == NextView(l, v, e.act, Got(s, EffectOf(l, v, e.act)))
            && |Got(s, EffectOf(l, v, e.act))| == BUFFER_SIZE
            && (forall i :: 0 <= i < |s.links| && i != e.link ==>
                  t.links[i] == s.links[i] && Look(t.mem, t.links[i]) == Look(s.mem, s.links[i]))
  {
    var l := s.links[e.link];
    var v := Look(s.mem, l);
    var effect, next := EffectOf(l, v, e.act), Next(l, v, e.act);
    EffectIsRightful(l, v, e.act);
    forall role ensures Held(next, role) == HeldAfter(Held(l, role), role, effect) {
      HeldNext(l, v, e.act, role);
    }
    OwnershipAfter(s, e.link, effect, next);
    OwnView(s, e.link, effect, next);
    forall i | 0 <= i < |s.links| && i != e.link ensures Look(Step(s, e).mem, s.links[i]) == Look(s.mem, s.links[i]) {
      OthersUntouched(s, e.link, effect, next, i);
    }
  }

  lemma StepPreserves(s: State, e: Event)
    requires Inv(s) && Enabled(s, e)
    ensures Inv(Step(s, e))
  {
    var t := Step(s, e);
    var l := s.links[e.link];
    var v := Look(s.mem, l);
    StepIsLocal(s, e);
    StepRefines(l, v, e.act, Got(s, EffectOf(l, v, e.act)));
    forall i | 0 <= i < |t.links| ensures LinkInv(t.links[i], Look(t.mem, t.links[i])) {
      if i != e.link {
        assert LinkInv(s.links[i], Look(s.mem, s.links[i]));
      }
    }
  }

  lemma {:induction false} RunInv(codecs: seq<Codec>, states: seq<State>, events: seq<Event>, i: nat)
    requires (forall k :: 0 <= k < |codecs| ==> codecs[k].Lawful()) && IsRun(codecs, states, events) && i < |states|
    ensures Inv(states[i]) && |states[i].links| == |codecs|
  {
    if i > 0 {
      RunInv(codecs, states, events, i - 1);
      StepPreserves(states[i - 1], events[i - 1]);
    } else {
      forall k | 0 <= k < |codecs| ensures LinkInv(states[0].links[k], Look(map[], states[0].links[k])) {
        UnusedInv(codecs[k]);
      }
    }
  }

  lemma UnusedInv(codec: Codec)
    requires codec.Lawful()
    ensures LinkInv(Unused(codec), Look(map[], Unused(codec)))
  {
    assert RecordLink.InFlight(Abstract(Unused(codec), Look(map[], Unused(codec)))) == [];
  }

  // ---- what it means ----

  /** In every interleaving a buffer is in the pool, or held by one call in one role, or neither; never two of these. */
  lemma BuffersExclusive(codecs: seq<Codec>, states: seq<State>, events: seq<Event>, i: nat)
    requires (forall k :: 0 <= k < |codecs| ==> codecs[k].Lawful()) && IsRun(codecs, states, events) && i < |states|
    ensures forall j, role :: 0 <= j < |states[i].links| && Held(states[i].links[j], role).Some? ==>
              Held(states[i].links[j], role).value !in states[i].free
    ensures forall j, p, k, q :: SameBuffer(states[i], j, p, k, q) ==> j == k && p == q
  {
    RunInv(codecs, states, events, i);
    var s := states[i];
    forall j, role | 0 <= j < |s.links| && Held(s.links[j], role).Some?
      ensures Held(s.links[j], role).value !in s.free
    {
      assert HeldRight(s, j, role);
    }
    forall j, p, k, q | SameBuffer(s, j, p, k, q) ensures j == k && p == q {
      assert HeldRight(s, j, p) && HeldRight(s, k, q);
    }
  }

  predicate SameBuffer(s: State, j: nat, p: Role, k: nat, q: Role) {
    j < |s.links| && k < |s.links| && Held(s.links[j], p).Some? && Held(s.links[j], p) == Held(s.links[k], q)
  }

  /** The contents of a buffer change only by a step of a call that holds it. */
  lemma OnlyHolderWrites(s: State, e: Event, b: Buffer)
    requires Inv(s) && Enabled(s, e) && b in s.mem
    ensures b in Step(s, e).mem
    ensures Step(s, e).mem[b] != s.mem[b] ==> exists role :: Held(s.links[e.link], role) == Some(b)
  {
    var l := s.links[e.link];
    var v := Look(s.mem, l);
    EffectIsRightful(l, v, e.act);
    var effect := EffectOf(l, v, e.act);
    if effect.Fill? {
      assert Held(l, effect.role) == Some(effect.b);
    }
  }

  /** A step of one link is a step of RecordLink for it, or nothing, and nothing for every other link. */
  lemma StepSimulates(s: State, e: Event, j: nat)
    requires Inv(s) && Enabled(s, e) && j < |s.links|
    ensures var t := Step(s, e);
            var before := Abstract(s.links[j], Look(s.mem, s.links[j]));
            var after := Abstract(t.links[j], Look(t.mem, t.links[j]));
            || after == before
            || (j == e.link && exists event ::
                  RecordLink.Enabled(s.links[j].codec, before, event)
                  && after == RecordLink.Step(s.links[j].codec, before, event))
  {
    var l := s.links[e.link];
    var v := Look(s.mem, l);
    StepIsLocal(s, e);
    StepRefines(l, v, e.act, Got(s, EffectOf(l, v, e.act)));
  }

  /** The bytes of a link on their way: taken by a Read, arrived, sent, or still in a Write's buffer. */
  function InFlight(s: State, j: nat): seq<byte>
    requires j < |s.links|
  {
    RecordLink.InFlight(Abstract(s.links[j], Look(s.mem, s.links[j])))
  }

  /**
   In every interleaving of any number of connections on one pool, with calls blocked anywhere: no Read fails, and
   for each direction what was returned, what is left over and what the bytes in flight still carry is what was written.
   */
  lemma EveryLinkLossless(codecs: seq<Codec>, states: seq<State>, events: seq<Event>, i: nat, j: nat)
    requires (forall k :: 0 <= k < |codecs| ==> codecs[k].Lawful()) && IsRun(codecs, states, events)
    requires i < |states| && j < |codecs|
    ensures |states[i].links| == |codecs|
    ensures var l, flight := states[i].links[j], InFlight(states[i], j);
            && !l.failed && l.delivered <= l.written
            && Undelivered(l.codec, flight).Some?
            && l.delivered + l.leftover + Undelivered(l.codec, flight).value == l.written
  {
    RunInv(codecs, states, events, i);
    var l := states[i].links[j];
    assert LinkInv(l, Look(states[i].mem, l));
    ConcatAssociative(l.delivered, l.leftover, Undelivered(l.codec, InFlight(states[i], j)).value);
  }

  // ---- progress ----

  /** Everything but new writes and empty reads. */
  predicate Draining(act: Act) {
    !act.BeginWrite? && (act.BeginRead? ==> act.want > 0)
  }

  ghost predicate Stuck(s: State, j: nat) {
    j < |s.links| && forall act :: Draining(act) ==> !Enabled(s, Event(j, act))
  }

  lemma {:induction false} SomeBufferIsNew(taken: set<Buffer>) returns (b: Buffer)
    ensures forall c :: c in taken ==> c < b
    decreases |taken|
  {
    if taken == {} {
      b := 0;
    } else {
      var c :| c in taken;
      var rest := taken - {c};
      var d := SomeBufferIsNew(rest);
      b := if c < d then d else c + 1;
      assert forall x :: x in taken ==> x == c || x in rest;
    }
  }

  /** No step of the link is ready, new writes and empty reads aside; Gets count, a new buffer always serves them. */
  ghost predicate NoneReady(l: Link, v: View) {
    forall act :: Draining(act) ==> !Ready(l, v, act)
  }

  lemma StuckHasNoneReady(s: State, j: nat)
    requires Stuck(s, j)
    ensures NoneReady(s.links[j], Look(s.mem, s.links[j]))
  {
    var l := s.links[j];
    var v := Look(s.mem, l);
    var b := SomeBufferIsNew(s.mem.Keys);
    forall act | Draining(act) ensures !Ready(l, v, act) {
      var served := match act
        case GetPacket(_) => GetPacket(b)
        case GetBody(_) => GetBody(b)
        case GetPlain(_) => GetPlain(b)
        case _ => act;
      assert Draining(served) && (Ready(l, v, act) ==> Ready(l, v, served) && CanHave(s, EffectOf(l, v, served)));
      assert !Enabled(s, Event(j, served));
    }
  }

  /** Such a link has no packet complete and no buffer to put back: its reader waits for bytes. */
  predicate Waits(r: Reader) {
    (r.InHeader? && |r.header| < 4) || (r.InBody? && r.filled < BodyLength(r.header))
  }

  /** Otherwise there is a step that it can take. */
  lemma ReadyAct(l: Link, v: View) returns (act: Act)
    requires GoodReader(l, v) && !Fails(l, v) && !(Waits(l.reader) && l.outgoing == [] && l.wire == [])
    ensures Draining(act) && Ready(l, v, act)
  {
    if l.outgoing != [] {
      return Arrive(1);
    }
    match l.reader {
      case Quiet => act := BeginRead(1);
      case InHeader(_, header) => act := if |header| < 4 then PullHeader(1) else GetBody(0);
      case InBody(_, header, _, filled) =>
        act := if filled < U32(header) then PullBody(1) else if l.codec.gcm.Some? then GetPlain(0) else Finish;
      case Opening(_, _, _, _) => act := OpenSealed;
      case Opened(_, _, _, _, _) => act := Finish;
      case Leaving(_, last) => act := if last.Some? then PutPlain(true) else PutBody(true);
    }
  }

  lemma NoneReadyWaits(l: Link, v: View)
    requires GoodReader(l, v) && !Fails(l, v) && NoneReady(l, v)
    ensures Waits(l.reader) && l.outgoing == [] && l.wire == []
  {
    if !(Waits(l.reader) && l.outgoing == [] && l.wire == []) {
      var _ := ReadyAct(l, v);
    }
  }

  /**
   In every interleaving a direction whose writer is silent and that has no step left, new writes and empty reads
   aside, has returned everything written: blocked calls of other connections never keep it from that.
   */
  lemma StuckMeansDelivered(codecs: seq<Codec>, states: seq<State>, events: seq<Event>, i: nat, j: nat)
    requires (forall k :: 0 <= k < |codecs| ==> codecs[k].Lawful()) && IsRun(codecs, states, events)
    requires i < |states| && Stuck(states[i], j) && states[i].links[j].writer.Silent?
    ensures states[i].links[j].delivered == states[i].links[j].written
  {
    RunInv(codecs, states, events, i);
    StuckLinkDelivered(states[i], j);
  }

  lemma StuckLinkDelivered(s: State, j: nat)
    requires Stuck(s, j) && LinkInv(s.links[j], Look(s.mem, s.links[j])) && s.links[j].writer.Silent?
    ensures s.links[j].delivered == s.links[j].written
  {
    var l := s.links[j];
    var v := Look(s.mem, l);
    StuckHasNoneReady(s, j);
    NeverFails(l, v);
    NoneReadyWaits(l, v);
    var t := Abstract(l, v);
    if l.reader.InBody? {
      HeaderInFront(l.reader.header, Slice(v.pkt, 0, l.reader.filled));
    }
    assert t.outgoing == [] && t.wire == [] && RecordLink.Missing(t.taken) > 0;
    RecordLink.StuckMeansDelivered(l.codec, t);
  }
}
