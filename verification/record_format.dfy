/**
 The packet format of EncryptedConn, as functions on byte strings:
   [4B length][body], body = [12B nonce][sealed payload] or the bare payload,
   payload = [2B data length][data][padding] or the bare data.
 Writer and reader functions are independent of each other; the lemmas connect them.
 */
module RecordFormat {
  import opened Bytes

  const BUFFER_SIZE := 131072    // one pooled buffer
  const MAX_PACKET := 2097152    // the reader's sanity limit
  const NONCE_SIZE := 12
  const TAG_SIZE := 16
  const MAX_PADDED_DATA := 65533 // longest data that survives the 16-bit length field

  /** AES-256-GCM as an abstract pair: only inversion and lengths are used. */
  datatype Aead = Aead(
    seal: (seq<byte>, seq<byte>) -> seq<byte>,
    open: (seq<byte>, seq<byte>) -> Option<seq<byte>>)
  {
    ghost predicate Lawful() {
      && (forall nonce, plain ::
            && |seal(nonce, plain)| == |plain| + TAG_SIZE
            && open(nonce, seal(nonce, plain)) == Some(plain))
      && (forall nonce, sealed :: open(nonce, sealed).Some? ==> |sealed| == |open(nonce, sealed).value| + TAG_SIZE)
    }
  }

  /** What both ends of a connection agree on: the key (None when the PSK is empty) and whether padding is on. */
  datatype Codec = Codec(gcm: Option<Aead>, padded: bool) {
    ghost predicate Lawful() {
      gcm.Some? ==> gcm.value.Lawful()
    }

    function Overhead(): nat {
      if gcm.Some? then NONCE_SIZE + TAG_SIZE else 0
    }
  }

  /** ObfsConfig, the padding and delay settings that are in effect. */
  datatype Obfs =
    Obfs(enabled: bool, minPadding: int, maxPadding: int, minDelay: int, maxDelay: int, burstChance: int)

  predicate Pads(obfs: Option<Obfs>) {
    obfs.Some? && obfs.value.enabled
  }

  /** What the record layer needs of its settings. */
  predicate PaddingAllowed(obfs: Option<Obfs>) {
    Pads(obfs) ==> obfs.value.minPadding >= 0
  }

  // ---- writer ----

  /** addPaddingBuf: the length field is uint16(len(data)). */
  function AddPadding(data: seq<byte>, padding: seq<byte>): seq<byte> {
    PutU16(|data|) + data + padding
  }

  function Payload(codec: Codec, data: seq<byte>, padding: seq<byte>): seq<byte> {
    if codec.padded then AddPadding(data, padding) else data
  }

  function Body(codec: Codec, nonce: seq<byte>, payload: seq<byte>): seq<byte> {
    if codec.gcm.Some? then nonce + codec.gcm.value.seal(nonce, payload) else payload
  }

  function Packet(body: seq<byte>): seq<byte> {
    PutU32(|body|) + body
  }

  function Frame(codec: Codec, data: seq<byte>, nonce: seq<byte>, padding: seq<byte>): seq<byte> {
    Packet(Body(codec, nonce, Payload(codec, data, padding)))
  }

  /** Write slices the packet out of one pooled buffer; a longer packet panics there. */
  predicate FitsBuffer(codec: Codec, payloadLength: nat) {
    4 + codec.Overhead() + payloadLength <= BUFFER_SIZE
  }

  // ---- reader ----

  datatype Unpadded = Rejected | Crash | Plain(data: seq<byte>)

  /** removePadding: the check is in int, but the upper slice bound 2+origLen is a uint16 and wraps. */
  function RemovePadding(payload: seq<byte>): Unpadded {
    if |payload| < 2 then Rejected else
    var origLen := U16(payload[..2]);
    if origLen + 2 > |payload| then Rejected else
    var end := (2 + origLen) % 0x1_0000;
    if end < 2 then Crash else Plain(payload[2..end])
  }

  function OpenPayload(codec: Codec, payload: seq<byte>): Unpadded {
    if codec.padded then RemovePadding(payload) else Plain(payload)
  }

  /** From the packet body to the data; too short and decrypt failures are rejections. */
  function OpenBody(codec: Codec, body: seq<byte>): Unpadded {
    if codec.gcm.None? then OpenPayload(codec, body)
    else if |body| < NONCE_SIZE then Rejected
    else match codec.gcm.value.open(body[..NONCE_SIZE], body[NONCE_SIZE..])
      case None => Rejected
      case Some(payload) => OpenPayload(codec, payload)
  }

  /** Outcome of reading one packet off a byte stream. Starved: the stream ends inside the packet. */
  datatype Reading = Starved | Refused(rest: seq<byte>) | Panics | Got(data: seq<byte>, rest: seq<byte>)

  function ReadPacket(codec: Codec, stream: seq<byte>): Reading {
    if |stream| < 4 then Starved else
    var length := U32(stream[..4]);
    if length == 0 || length > MAX_PACKET then Refused(stream[4..])
    else if length > BUFFER_SIZE then Panics
    else if |stream| < 4 + length then Starved
    else match OpenBody(codec, stream[4..4 + length])
      case Rejected => Refused(stream[4 + length..])
      case Crash => Panics
      case Plain(data) => Got(data, stream[4 + length..])
  }

  /** All the data a reader will get out of `stream`; None when some packet is bad or the stream stops inside one. */
  function Undelivered(codec: Codec, stream: seq<byte>): Option<seq<byte>>
    decreases |stream|
  {
    if stream == [] then Some([]) else
    match ReadPacket(codec, stream)
    case Got(data, rest) =>
      (match Undelivered(codec, rest)
       case Some(later) => Some(data + later)
       case None => None)
    case _ => None
  }

  // ---- padding alone ----

  lemma BoundWraps(n: nat)
    requires n < 0x1_0000
    ensures (2 + n) % 0x1_0000 == if n <= MAX_PADDED_DATA then 2 + n else n - MAX_PADDED_DATA - 1
  {
  }

  /** What removePadding returns for every output of addPaddingBuf, whatever the padding. */
  lemma RemovePaddingOfPadded(data: seq<byte>, padding: seq<byte>)
    ensures RemovePadding(AddPadding(data, padding))
         == (var n := |data| % 0x1_0000; if n > MAX_PADDED_DATA then Crash else Plain(data[..n]))
  {
    var payload := AddPadding(data, padding);
    assert payload[..2] == PutU16(|data|);
    U16RoundTrip(|data|);
    var n := |data| % 0x1_0000;
    BoundWraps(n);
    assert U16(payload[..2]) == n && n + 2 <= |payload|;
    if n <= MAX_PADDED_DATA {
      assert payload[2..2 + n] == data[..n];
    }
  }

  /** The padding round trip holds exactly for data of at most 65533 bytes (65534 and 65535 crash the reader). */
  lemma PaddingRoundTrip(data: seq<byte>, padding: seq<byte>)
    ensures RemovePadding(AddPadding(data, padding)) == Plain(data) <==> |data| <= MAX_PADDED_DATA
  {
    RemovePaddingOfPadded(data, padding);
  }

  // ---- one packet ----

  /** When a write that does not panic can be read back. */
  predicate Readable(codec: Codec, data: seq<byte>) {
    && (codec.padded ==> |data| <= MAX_PADDED_DATA)
    && (!codec.padded && codec.gcm.None? ==> data != [])
  }

  /** Every packet Write emits passes the reader's length and slice checks, except the empty body. */
  lemma ReadBackPacket(codec: Codec, body: seq<byte>, more: seq<byte>)
    requires 4 + |body| <= BUFFER_SIZE
    ensures ReadPacket(codec, Packet(body) + more)
         == if body == [] then Refused(more)
            else match OpenBody(codec, body)
                 case Rejected => Refused(more)
                 case Crash => Panics
                 case Plain(data) => Got(data, more)
  {
    var stream := Packet(body) + more;
    assert stream[..4] == PutU32(|body|);
    U32RoundTrip(|body|);
    assert U32(stream[..4]) == |body|;
    assert stream[4..4 + |body|] == body;
    assert stream[4 + |body|..] == more;
    assert body == [] ==> stream[4..] == more;
  }

  lemma OpenBodyOfBody(codec: Codec, nonce: seq<byte>, payload: seq<byte>)
    requires codec.Lawful() && |nonce| == NONCE_SIZE
    ensures OpenBody(codec, Body(codec, nonce, payload)) == OpenPayload(codec, payload)
    ensures |Body(codec, nonce, payload)| == codec.Overhead() + |payload|
  {
    if codec.gcm.Some? {
      var sealed := codec.gcm.value.seal(nonce, payload);
      var body := nonce + sealed;
      assert body[..NONCE_SIZE] == nonce && body[NONCE_SIZE..] == sealed;
    }
  }

  /**
   The record round trip, exactly: a packet that fits the writer's buffer is read back as the data,
   with the rest of the stream untouched, if and only if the data is Readable.
   */
  lemma FrameRoundTrip(codec: Codec, data: seq<byte>, nonce: seq<byte>, padding: seq<byte>, more: seq<byte>)
    requires codec.Lawful() && |nonce| == NONCE_SIZE
    requires FitsBuffer(codec, |Payload(codec, data, padding)|)
    ensures ReadPacket(codec, Frame(codec, data, nonce, padding) + more) == Got(data, more) <==> Readable(codec, data)
  {
    var payload := Payload(codec, data, padding);
    var body := Body(codec, nonce, payload);
    OpenBodyOfBody(codec, nonce, payload);
    ReadBackPacket(codec, body, more);
    if codec.padded {
      PaddingRoundTrip(data, padding);
    }
  }

  // ---- streams ----

  /** Bytes that arrive later do not change what the reader already got. */
  lemma ReadPacketStable(codec: Codec, stream: seq<byte>, more: seq<byte>)
    requires ReadPacket(codec, stream).Got?
    ensures ReadPacket(codec, stream + more)
         == Got(ReadPacket(codec, stream).data, ReadPacket(codec, stream).rest + more)
  {
    var all := stream + more;
    var length := U32(stream[..4]);
    assert all[..4] == stream[..4];
    assert all[4..4 + length] == stream[4..4 + length];
    assert all[4 + length..] == stream[4 + length..] + more;
  }

  lemma UndeliveredSingle(codec: Codec, frame: seq<byte>, data: seq<byte>)
    requires ReadPacket(codec, frame) == Got(data, [])
    ensures Undelivered(codec, frame) == Some(data)
  {
    assert Undelivered(codec, []) == Some([]);
    assert data + [] == data;
  }

  lemma UndeliveredCons(codec: Codec, stream: seq<byte>, data: seq<byte>, rest: seq<byte>)
    requires ReadPacket(codec, stream) == Got(data, rest)
    ensures |rest| < |stream|
    ensures Undelivered(codec, stream).Some? <==> Undelivered(codec, rest).Some?
    ensures Undelivered(codec, rest).Some? ==> Undelivered(codec, stream).value == data + Undelivered(codec, rest).value
  {
  }

  /** Writing a packet behind a clean stream adds its data behind the data already there. */
  lemma {:induction false} UndeliveredAppend(codec: Codec, stream: seq<byte>, frame: seq<byte>, data: seq<byte>)
    requires Undelivered(codec, stream).Some?
    requires ReadPacket(codec, frame) == Got(data, [])
    ensures Undelivered(codec, stream + frame) == Some(Undelivered(codec, stream).value + data)
    decreases |stream|
  {
    if stream == [] {
      UndeliveredSingle(codec, frame, data);
      assert stream + frame == frame;
      assert Undelivered(codec, stream).value + data == data;
    } else {
      var first, rest := ReadPacket(codec, stream).data, ReadPacket(codec, stream).rest;
      UndeliveredCons(codec, stream, first, rest);
      ReadPacketStable(codec, stream, frame);
      UndeliveredAppend(codec, rest, frame, data);
      UndeliveredCons(codec, stream + frame, first, rest + frame);
      ConcatAssociative(first, Undelivered(codec, rest).value, data);
    }
  }

  /** The form Write needs: appending the frame of readable data. */
  lemma UndeliveredWrite(codec: Codec, stream: seq<byte>, data: seq<byte>, nonce: seq<byte>, padding: seq<byte>)
    requires codec.Lawful() && |nonce| == NONCE_SIZE && Readable(codec, data)
    requires FitsBuffer(codec, |Payload(codec, data, padding)|)
    requires Undelivered(codec, stream).Some?
    ensures Undelivered(codec, stream + Frame(codec, data, nonce, padding))
         == Some(Undelivered(codec, stream).value + data)
  {
    var frame := Frame(codec, data, nonce, padding);
    FrameRoundTrip(codec, data, nonce, padding, []);
    assert frame + [] == frame;
    UndeliveredAppend(codec, stream, frame, data);
  }

  // ---- many writes ----

  datatype Sent = Sent(data: seq<byte>, nonce: seq<byte>, padding: seq<byte>)

  /** A write that succeeds and that the peer can read back. */
  predicate Carries(codec: Codec, w: Sent) {
    |w.nonce| == NONCE_SIZE && Readable(codec, w.data) && FitsBuffer(codec, |Payload(codec, w.data, w.padding)|)
  }

  /** The bytes of a sequence of writes, and the data in them. */
  function Stream(codec: Codec, writes: seq<Sent>): seq<byte> {
    if writes == [] then []
    else
      var last := writes[|writes| - 1];
      Stream(codec, writes[..|writes| - 1]) + Frame(codec, last.data, last.nonce, last.padding)
  }

  function DataOf(writes: seq<Sent>): seq<byte> {
    if writes == [] then [] else DataOf(writes[..|writes| - 1]) + writes[|writes| - 1].data
  }

  /** A stream of in-bound writes carries exactly their data. */
  lemma {:induction false} StreamCarries(codec: Codec, writes: seq<Sent>)
    requires codec.Lawful() && forall i :: 0 <= i < |writes| ==> Carries(codec, writes[i])
    ensures Undelivered(codec, Stream(codec, writes)) == Some(DataOf(writes))
  {
    if writes != [] {
      var front, last := writes[..|writes| - 1], writes[|writes| - 1];
      StreamCarries(codec, front);
      UndeliveredWrite(codec, Stream(codec, front), last.data, last.nonce, last.padding);
    }
  }

  // ---- the bytes themselves ----

  /**
   What one write puts on the wire, spelled out: four big-endian length bytes; the nonce and the sealed payload, or
   the payload as it is; and the payload is the data, or with padding on two big-endian length bytes, data, padding.
   */
  ghost predicate OnWire(obfs: Option<Obfs>, gcm: Option<Aead>, data: seq<byte>, nonce: seq<byte>, padding: seq<byte>,
                         sent: seq<byte>)
  {
    var n := |data|;
    var payload :=
      if obfs.None? || !obfs.value.enabled then data else [n / 256 % 256, n % 256] + data + padding;
    var body := if gcm.None? then payload else nonce + gcm.value.seal(nonce, payload);
    var m := |body|;
    sent == [m / 0x100_0000 % 256, m / 0x1_0000 % 256, m / 256 % 256, m % 256] + body
  }

  /** The length of the payload of a write. */
  function PayloadLength(obfs: Option<Obfs>, n: nat, padding: nat): nat {
    if obfs.None? || !obfs.value.enabled then n else 2 + n + padding
  }

  lemma FrameOnWire(obfs: Option<Obfs>, gcm: Option<Aead>, data: seq<byte>, nonce: seq<byte>, padding: seq<byte>)
    ensures OnWire(obfs, gcm, data, nonce, padding, Frame(Codec(gcm, Pads(obfs)), data, nonce, padding))
  {
    U32Digits(|Body(Codec(gcm, Pads(obfs)), nonce, Payload(Codec(gcm, Pads(obfs)), data, padding))|);
  }

  /** The largest payloads that fit a buffer: 131040 bytes with encryption, 131068 without. */
  lemma FitsExactly(codec: Codec, n: nat)
    ensures FitsBuffer(codec, n) <==> n <= if codec.gcm.Some? then 131040 else 131068
  {
  }

  /** Two writers that put the same on the wire are read alike: such bytes give back the data and what follows. */
  lemma OnWireReadsBack(obfs: Option<Obfs>, gcm: Option<Aead>, data: seq<byte>, nonce: seq<byte>, padding: seq<byte>,
                        sent: seq<byte>, more: seq<byte>)
    requires Codec(gcm, Pads(obfs)).Lawful() && |nonce| == 12 && OnWire(obfs, gcm, data, nonce, padding, sent)
    requires PayloadLength(obfs, |data|, |padding|) <= if gcm.Some? then 131040 else 131068
    ensures ReadPacket(Codec(gcm, Pads(obfs)), sent + more) == Got(data, more)
       <==> if obfs.Some? && obfs.value.enabled then |data| <= 65533 else gcm.Some? || data != []
  {
    FrameOnWire(obfs, gcm, data, nonce, padding);
    FitsExactly(Codec(gcm, Pads(obfs)), PayloadLength(obfs, |data|, |padding|));
    FrameRoundTrip(Codec(gcm, Pads(obfs)), data, nonce, padding, more);
  }

  /** What the four header bytes alone decide: 0 and more than 2 MiB are refused, more than one buffer panics. */
  lemma HeaderDecides(codec: Codec, a: byte, b: byte, c: byte, d: byte, rest: seq<byte>)
    ensures var length := a * 0x100_0000 + b * 0x1_0000 + c * 256 + d;
            var res := ReadPacket(codec, [a, b, c, d] + rest);
            && (length == 0 || length > 2097152 ==> res == Refused(rest))
            && (131072 < length <= 2097152 ==> res == Panics)
            && (0 < length <= 131072 && |rest| < length ==> res == Starved)
            && (0 < length <= 131072 && |rest| >= length ==> !res.Starved?)
  {
    var stream := [a, b, c, d] + rest;
    assert stream[..4] == [a, b, c, d] && stream[4..] == rest;
    assert stream[..4][..2] == [a, b] && stream[..4][2..] == [c, d];
  }
}
