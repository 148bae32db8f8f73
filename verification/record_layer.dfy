/**
 EncryptedConn over real buffers: arrays borrowed from a shared pool, filled in place and given back.
 The methods are proved against the packet functions of RecordFormat.
 */
module RecordLayer {
  import opened Bytes
  import opened RecordFormat
  import opened Transport

  /** Result of Read and Write; Panic is a Go slice-bounds panic. */
  datatype IoResult = Ok(n: nat) | Err | Panic

  // ---- copying ----

  /** copy(dst[at:], src), for a source that fits. */
  method CopyInto(dst: array<byte>, at: nat, src: seq<byte>)
    requires at + |src| <= dst.Length
    modifies dst
    ensures dst[..at] == old(dst[..at])
    ensures dst[at..at + |src|] == src
    ensures dst[at + |src|..] == old(dst[at + |src|..])
  {
    forall i | 0 <= i < |src| {
      dst[at + i] := src[i];
    }
  }

  /** rand.Read(dst[lo:hi]). */
  method FillRandom(dst: array<byte>, lo: nat, hi: nat)
    requires lo <= hi <= dst.Length
    modifies dst
    ensures dst[..lo] == old(dst[..lo])
    ensures dst[hi..] == old(dst[hi..])
  {
    var i := lo;
    while i < hi
      invariant lo <= i <= hi
      invariant dst[..lo] == old(dst[..lo])
      invariant dst[hi..] == old(dst[hi..])
    {
      var x: byte := *;
      dst[i] := x;
      i := i + 1;
    }
  }

  // ---- the shared pool ----

  /** globalBufPool. A buffer is either free here or held by exactly one call; its old contents are arbitrary. */
  class BufferPool {
    var free: set<array<byte>>

    ghost predicate Valid()
      reads this
    {
      forall b :: b in free ==> b.Length == BUFFER_SIZE
    }

    constructor ()
      ensures Valid() && free == {}
    {
      free := {};
    }

    method Get() returns (b: array<byte>)
      requires Valid()
      modifies this
      ensures Valid() && b.Length == BUFFER_SIZE && b !in free
      ensures fresh(b) || b in old(free)
      ensures free <= old(free)
    {
      if free == {} {
        b := new byte[BUFFER_SIZE];
      } else {
        b :| b in free;
        free := free - {b};
      }
    }

    /** The runtime may also drop the buffer. */
    method Put(b: array<byte>)
      requires Valid() && b.Length == BUFFER_SIZE
      modifies this
      ensures Valid()
      ensures old(free) <= free <= old(free) + {b}
    {
      if * {
        free := free + {b};
      }
    }
  }

  // ---- padding ----

  const DECOYS: seq<string> := [
    "User-Agent: ", "GET / HTTP/1.1", "POST / HTTP/1.1", "Host: ", "Accept: */*",
    "Content-Type: application/octet-stream", "Connection: keep-alive", "Cache-Control: no-cache"]

  predicate PaddingInRange(obfs: Obfs, length: int) {
    if obfs.maxPadding > obfs.minPadding then obfs.minPadding <= length < obfs.maxPadding else length == obfs.minPadding
  }

  /** A decoy string somewhere inside the padding area buf[lo:hi]. */
  method InjectDecoy(buf: array<byte>, lo: nat, hi: nat)
    requires lo <= hi <= buf.Length
    modifies buf
    ensures buf[..lo] == old(buf[..lo])
  {
    var padLen := hi - lo;
    var pick := SecureRandInt(|DECOYS|);
    var decoy := AsciiBytes(DECOYS[pick]);
    if |decoy| < padLen {
      var offset := SecureRandInt(padLen - |decoy| + 1);
      CopyInto(buf, lo + offset, decoy);
      assert buf[..lo] == buf[..lo + offset][..lo];
    }
  }

  /** addPaddingBuf: into `buf`, or into a new array when the pooled buffer is too small. */
  method AddPaddingBuf(data: array<byte>, obfs: Obfs, buf: array<byte>)
      returns (out: array<byte>, length: nat, ghost padding: seq<byte>)
    requires data != buf && obfs.minPadding >= 0
    modifies buf
    ensures out == buf || fresh(out)
    ensures length <= out.Length
    ensures PaddingInRange(obfs, |padding|)
    ensures out[..length] == AddPadding(data[..], padding)
  {
    var padLen: nat := obfs.minPadding;
    var diff := obfs.maxPadding - obfs.minPadding;
    if diff > 0 {
      var draw := SecureRandInt(diff);
      padLen := padLen + draw;
    }
    var start := 2 + data.Length;
    length := start + padLen;
    if length > buf.Length {
      out := new byte[length](_ => 0);
    } else {
      out := buf;
    }
    CopyInto(out, 0, PutU16(data.Length));
    CopyInto(out, 2, data[..]);
    ghost var head := PutU16(data.Length) + data[..];
    assert out[..start] == head;
    if out == buf && padLen > 0 {
      FillRandom(out, start, length);
      if padLen > 12 {
        InjectDecoy(out, start, length);
      }
    }
    padding := out[start..length];
    assert out[..length] == out[..start] + out[start..length];
  }

  // ---- the connection ----

  class EncryptedConn {
    const conn: BufferedConn
    const pool: BufferPool
    const gcm: Option<Aead>
    const obfs: Option<Obfs>
    var readBuf: array<byte>   // leftover from the previous Read: readBuf[readOff..]
    var readOff: nat

    ghost function Codec(): Codec {
      RecordFormat.Codec(gcm, Padded())
    }

    predicate Padded() {
      Pads(obfs)
    }

    ghost predicate Valid()
      reads this, conn, pool
    {
      && conn.Valid() && pool.Valid() && Codec().Lawful()
      && PaddingAllowed(obfs)
      && readOff <= readBuf.Length
      && readBuf !in pool.free && conn.buf !in pool.free && readBuf != conn.buf
    }

    ghost function Leftover(): seq<byte>
      reads this, readBuf
      requires readOff <= readBuf.Length
    {
      readBuf[readOff..]
    }

    constructor (conn: BufferedConn, pool: BufferPool, gcm: Option<Aead>, obfs: Option<Obfs>)
      requires conn.Valid() && pool.Valid() && conn.buf !in pool.free
      requires gcm.Some? ==> gcm.value.Lawful()
      requires PaddingAllowed(obfs)
      ensures Valid() && this.conn == conn && this.pool == pool && this.gcm == gcm && this.obfs == obfs
      ensures Leftover() == [] && fresh(readBuf)
    {
      this.conn, this.pool, this.gcm, this.obfs := conn, pool, gcm, obfs;
      readBuf, readOff := new byte[0], 0;
    }

    /** The encrypting half of BuildPacket: nonce and ciphertext behind the length. */
    method SealPacket(buf: array<byte>, payload: seq<byte>) returns (length: nat, ghost nonce: seq<byte>)
      requires Valid() && gcm.Some? && buf.Length == BUFFER_SIZE
      modifies buf
      ensures |nonce| == NONCE_SIZE
      ensures length == |Packet(Body(Codec(), nonce, payload))| == 4 + Codec().Overhead() + |payload|
      ensures length <= buf.Length ==> buf[..length] == Packet(Body(Codec(), nonce, payload))
    {
      var nonceBuf := new byte[NONCE_SIZE];
      FillRandom(nonceBuf, 0, NONCE_SIZE);
      var drawn := nonceBuf[..];
      nonce := drawn;
      CopyInto(buf, 4, drawn);
      var sealed := gcm.value.seal(drawn, payload);
      var pktLen := |drawn| + |sealed|;
      length := 4 + pktLen;
      ghost var body := drawn + sealed;
      assert Body(Codec(), nonce, payload) == body;
      ghost var front := buf[..4 + NONCE_SIZE];
      assert front[4..] == buf[4..4 + |drawn|] == drawn;
      if length <= buf.Length {
        CopyInto(buf, 4 + NONCE_SIZE, sealed);
        assert buf[4..4 + NONCE_SIZE] == buf[..4 + NONCE_SIZE][4..] == drawn;
        assert buf[4 + NONCE_SIZE..4 + NONCE_SIZE + |sealed|] == sealed;
        assert buf[4..length] == buf[4..4 + NONCE_SIZE] + buf[4 + NONCE_SIZE..length];
      }
      PutLength(buf, body, pktLen);
    }

    /** The length goes in front of a body that is in place already. */
    method PutLength(buf: array<byte>, ghost body: seq<byte>, pktLen: nat)
      requires pktLen == |body| && buf.Length == BUFFER_SIZE
      requires 4 + |body| <= buf.Length ==> buf[4..4 + |body|] == body
      modifies buf
      ensures 4 + |body| <= buf.Length ==> buf[..4 + |body|] == Packet(body)
    {
      ghost var rest := buf[4..];
      CopyInto(buf, 0, PutU32(pktLen));
      assert buf[4..] == rest;
      if 4 + |body| <= buf.Length {
        assert buf[4..4 + |body|] == rest[..|body|] == body;
        assert buf[..4 + |body|] == buf[0..0 + 4] + buf[4..4 + |body|];
      }
    }

    /** Lay the packet out in `buf`; what does not fit is cut, and the length says so. */
    method BuildPacket(buf: array<byte>, src: array<byte>, n: nat) returns (length: nat, ghost nonce: seq<byte>)
      requires Valid() && buf != src && buf.Length == BUFFER_SIZE && n <= src.Length
      modifies buf
      ensures |nonce| == NONCE_SIZE
      ensures length == |Packet(Body(Codec(), nonce, old(src[..n])))| == 4 + Codec().Overhead() + n
      ensures length <= buf.Length ==> buf[..length] == Packet(Body(Codec(), nonce, old(src[..n])))
    {
      if gcm.Some? {
        length, nonce := SealPacket(buf, src[..n]);
      } else {
        nonce := seq(NONCE_SIZE, _ => 0);
        length := 4 + n;
        CopyInto(buf, 0, PutU32(n));
        CopyInto(buf, 4, src[..Min(n, buf.Length - 4)]);
      }
      assert length <= buf.Length ==> buf[..length] == buf[..4] + buf[4..length];
    }

    /** Steps 2 and on of Write: the packet of payload src[..n], built in a second buffer and written at once. */
    method Transmit(src: array<byte>, n: nat) returns (res: IoResult, ghost nonce: seq<byte>)
      requires Valid() && n <= src.Length && src !in pool.free
      modifies pool, pool.free, conn.conn`firstWrite
      modifies conn.conn.conn`outbox, conn.conn.conn`segments, conn.conn.conn`broken
      ensures Valid() && fresh(pool.free - old(pool.free)) && src !in pool.free && |nonce| == NONCE_SIZE
      ensures res == Panic <==> !FitsBuffer(Codec(), n)
      ensures res == Panic ==> conn.conn.conn.outbox == old(conn.conn.conn.outbox)
      ensures res.Ok? ==>
                conn.conn.conn.outbox == old(conn.conn.conn.outbox) + Packet(Body(Codec(), nonce, old(src[..n])))
      ensures res == Err ==> conn.conn.conn.broken
      ensures old(conn.conn.conn.broken) ==> conn.conn.conn.broken
    {
      var dstBuf := pool.Get();
      var length;
      length, nonce := BuildPacket(dstBuf, src, n);
      if length > dstBuf.Length {
        res := Panic;
      } else {
        var packet := dstBuf[..length];
        var sent, ok := conn.conn.Write(packet);
        assert packet[..|packet|] == packet;
        res := if ok then Ok(sent) else Err;
      }
      pool.Put(dstBuf);
    }

    /**
     Either the whole frame is written, or the write panics exactly when the packet does not fit one pooled
     buffer and nothing is written, or the transport failed.
     */
    method Write(data: array<byte>) returns (res: IoResult, ghost nonce: seq<byte>, ghost padding: seq<byte>)
      requires Valid() && data !in pool.free && data != conn.buf
      modifies pool, pool.free, conn.conn`firstWrite
      modifies conn.conn.conn`outbox, conn.conn.conn`segments, conn.conn.conn`broken
      ensures Valid() && fresh(pool.free - old(pool.free))
      ensures |nonce| == 12
      ensures obfs.Some? && obfs.value.enabled ==> PaddingInRange(obfs.value, |padding|)
      ensures res == Panic <==>
              PayloadLength(obfs, data.Length, |padding|) > if gcm.Some? then 131040 else 131068
      ensures res == Panic ==> conn.conn.conn.outbox == old(conn.conn.conn.outbox)
      ensures res.Ok? ==> res.n == data.Length
      ensures res.Ok? ==> conn.conn.conn.outbox == old(conn.conn.conn.outbox) + Frame(Codec(), data[..], nonce, padding)
      ensures res.Ok? ==>
                OnWire(obfs, gcm, data[..], nonce, padding, conn.conn.conn.outbox[|old(conn.conn.conn.outbox)|..])
      ensures res == Err ==> conn.conn.conn.broken
      ensures old(conn.conn.conn.broken) ==> conn.conn.conn.broken
    {
      ghost var outbox := conn.conn.conn.outbox;
      res, nonce, padding := WriteFrame(data);
      FitsExactly(Codec(), |Payload(Codec(), data[..], padding)|);
      FrameOnWire(obfs, gcm, data[..], nonce, padding);
      if res.Ok? {
        assert conn.conn.conn.outbox[|outbox|..] == Frame(Codec(), data[..], nonce, padding);
      }
    }

    /** Write in terms of the packet format. */
    method WriteFrame(data: array<byte>) returns (res: IoResult, ghost nonce: seq<byte>, ghost padding: seq<byte>)
      requires Valid() && data !in pool.free && data != conn.buf
      modifies pool, pool.free, conn.conn`firstWrite
      modifies conn.conn.conn`outbox, conn.conn.conn`segments, conn.conn.conn`broken
      ensures Valid() && fresh(pool.free - old(pool.free))
      ensures |nonce| == NONCE_SIZE && (Padded() ==> PaddingInRange(obfs.value, |padding|))
      ensures res == Panic <==> !FitsBuffer(Codec(), |Payload(Codec(), data[..], padding)|)
      ensures res == Panic ==> conn.conn.conn.outbox == old(conn.conn.conn.outbox)
      ensures res.Ok? ==> res.n == data.Length
      ensures res.Ok? ==> conn.conn.conn.outbox == old(conn.conn.conn.outbox) + Frame(Codec(), data[..], nonce, padding)
      ensures res == Err ==> conn.conn.conn.broken
      ensures old(conn.conn.conn.broken) ==> conn.conn.conn.broken
    {
      var srcBuf := pool.Get();
      var payload, n := data, data.Length;
      padding := [];
      if Padded() {
        payload, n, padding := AddPaddingBuf(data, obfs.value, srcBuf);
      }
      assert payload[..n] == Payload(Codec(), data[..], padding);
      res, nonce := Transmit(payload, n);
      if res.Ok? {
        res := Ok(data.Length);
      }
      pool.Put(srcBuf);
    }

    /** Decrypt and unpad the packet, hand out what fits `p` and keep a copy of the rest. */
    method Receive(pkt: array<byte>, pktLen: nat, p: array<byte>) returns (res: IoResult)
      requires Valid() && Leftover() == [] && pktLen <= pkt.Length == BUFFER_SIZE
      requires pkt !in pool.free && p !in pool.free && p != pkt
      modifies this`readBuf, this`readOff, pool, pool.free, p
      ensures Valid() && fresh(pool.free - old(pool.free))
      ensures readBuf == old(readBuf) || fresh(readBuf)
      ensures pkt !in pool.free
      ensures match OpenBody(Codec(), old(pkt[..pktLen]))
              case Rejected => res == Err
              case Crash => res == Panic
              case Plain(data) =>
                res == Ok(Min(p.Length, |data|)) && p[..res.n] == data[..res.n] && Leftover() == data[res.n..]
      ensures !res.Ok? ==> readBuf == old(readBuf) && readOff == old(readOff)
    {
      ghost var body := pkt[..pktLen];
      var plain, size := pkt, pktLen;
      if gcm.Some? {
        if pktLen < NONCE_SIZE {
          return Err;
        }
        assert body[..NONCE_SIZE] == pkt[..NONCE_SIZE] && body[NONCE_SIZE..] == pkt[NONCE_SIZE..pktLen];
        var unsealed := gcm.value.open(pkt[..NONCE_SIZE], pkt[NONCE_SIZE..pktLen]);
        if unsealed.None? {
          return Err;
        }
        plain := pool.Get();
        size := |unsealed.value|;
        CopyInto(plain, 0, unsealed.value);
        assert plain[..size] == unsealed.value;
      }
      res := Deliver(plain, size, p);
      if gcm.Some? {
        pool.Put(plain);
      }
    }

    /** removePadding as slice bounds into the array; `end` wraps at 2^16. */
    method Unpad(plain: array<byte>, size: nat) returns (lo: nat, hi: nat, status: IoResult)
      requires size <= plain.Length
      ensures match OpenPayload(Codec(), plain[..size])
              case Rejected => status == Err
              case Crash => status == Panic
              case Plain(data) => status.Ok? && lo <= hi <= size && data == plain[lo..hi]
    {
      lo, hi, status := 0, size, Ok(0);
      if Padded() {
        if size < 2 {
          return 0, 0, Err;
        }
        assert plain[..size][..2] == plain[..2];
        var origLen := U16(plain[..2]);
        if origLen + 2 > size {
          return 0, 0, Err;
        }
        lo, hi := 2, (2 + origLen) % 0x1_0000;
        if hi < lo {
          return 0, 0, Panic;
        }
        assert plain[..size][lo..hi] == plain[lo..hi];
      }
    }

    /** Unpad, copy what fits into `p`, keep a copy of the rest because the buffer goes back to the pool. */
    method Deliver(plain: array<byte>, size: nat, p: array<byte>) returns (res: IoResult)
      requires Valid() && Leftover() == [] && size <= plain.Length && plain != p && p !in pool.free
      requires plain !in pool.free
      modifies this`readBuf, this`readOff, p
      ensures Valid() && (readBuf == old(readBuf) || fresh(readBuf))
      ensures match OpenPayload(Codec(), old(plain[..size]))
              case Rejected => res == Err
              case Crash => res == Panic
              case Plain(data) =>
                res == Ok(Min(p.Length, |data|)) && p[..res.n] == data[..res.n] && Leftover() == data[res.n..]
      ensures !res.Ok? ==> readBuf == old(readBuf) && readOff == old(readOff)
    {
      var lo, hi;
      lo, hi, res := Unpad(plain, size);
      if !res.Ok? {
        return;
      }
      ghost var data := plain[lo..hi];
      var n := Min(p.Length, hi - lo);
      assert data[..n] == plain[lo..lo + n] && data[n..] == plain[lo + n..hi];
      CopyInto(p, 0, plain[lo..lo + n]);
      assert p[..n] == p[0..0 + n] == data[..n];
      if n < hi - lo {
        readBuf, readOff := new byte[hi - lo - n], 0;
        CopyInto(readBuf, 0, plain[lo + n..hi]);
        assert readBuf[0..] == readBuf[0..0 + |data[n..]|] == data[n..];
      }
      res := Ok(n);
    }

    method ReadHeader() returns (ok: bool, pktLen: nat)
      requires conn.Valid()
      modifies conn`r, conn`w, conn.buf, conn.conn.conn`inbox, conn.conn.conn`broken
      ensures conn.Valid()
      ensures ok ==> |old(conn.Incoming())| >= 4 && pktLen == U32(old(conn.Incoming())[..4])
      ensures ok ==> conn.Incoming() == old(conn.Incoming())[4..]
      ensures !ok ==> conn.conn.conn.broken || |old(conn.Incoming())| < 4
      ensures old(conn.conn.conn.broken) ==> conn.conn.conn.broken
    {
      var header := new byte[4];
      ok := conn.ReadFull(header, 0, 4);
      pktLen := U32(header[..]);
      assert header[..] == header[0..4];
    }

    /** The body of a packet of acceptable length, then Receive. */
    method ReadBody(pktLen: nat, p: array<byte>) returns (res: IoResult)
      requires Valid() && Leftover() == [] && p !in pool.free && p != conn.buf
      modifies this`readBuf, this`readOff, pool, pool.free, p
      modifies conn`r, conn`w, conn.buf, conn.conn.conn`inbox, conn.conn.conn`broken
      ensures Valid() && fresh(pool.free - old(pool.free)) && (readBuf == old(readBuf) || fresh(readBuf))
      ensures !res.Ok? ==> Leftover() == []
      ensures old(conn.conn.conn.broken) ==> conn.conn.conn.broken
      ensures pktLen > BUFFER_SIZE ==> res == Panic
      ensures pktLen <= BUFFER_SIZE && pktLen > |old(conn.Incoming())| ==> res == Err
      ensures pktLen <= BUFFER_SIZE && pktLen <= |old(conn.Incoming())| ==>
                (res == Err && conn.conn.conn.broken) || match OpenBody(Codec(), old(conn.Incoming())[..pktLen])
                case Rejected => res == Err
                case Crash => res == Panic
                case Plain(data) =>
                  && res == Ok(Min(p.Length, |data|)) && p[..res.n] == data[..res.n]
                  && Leftover() == data[res.n..] && conn.Incoming() == old(conn.Incoming())[pktLen..]
    {
      ghost var incoming := conn.Incoming();
      var pkt := pool.Get();
      if pktLen > pkt.Length {
        pool.Put(pkt);
        return Panic;
      }
      var ok := conn.ReadFull(pkt, 0, pktLen);
      if !ok {
        pool.Put(pkt);
        return Err;
      }
      assert pkt[..pktLen] == pkt[0..pktLen] == incoming[..pktLen];
      ghost var rest := incoming[pktLen..];
      assert conn.Incoming() == rest;
      res := Receive(pkt, pktLen, p);
      assert conn.Incoming() == rest;
      pool.Put(pkt);
    }

    /** A packet is due: header, sanity checks, body. */
    method ReadNextPacket(p: array<byte>) returns (res: IoResult)
      requires Valid() && Leftover() == [] && p !in pool.free && p != conn.buf
      modifies this`readBuf, this`readOff, pool, pool.free, p
      modifies conn`r, conn`w, conn.buf, conn.conn.conn`inbox, conn.conn.conn`broken
      ensures Valid() && fresh(pool.free - old(pool.free)) && (readBuf == old(readBuf) || fresh(readBuf))
      ensures !res.Ok? ==> Leftover() == []
      ensures old(conn.conn.conn.broken) ==> conn.conn.conn.broken
      ensures (res == Err && conn.conn.conn.broken) || match ReadPacket(Codec(), old(conn.Incoming()))
              case Starved => res == Err
              case Refused(_) => res == Err
              case Panics => res == Panic
              case Got(data, rest) =>
                && res == Ok(Min(p.Length, |data|)) && p[..res.n] == data[..res.n]
                && Leftover() == data[res.n..] && conn.Incoming() == rest
    {
      ghost var incoming := conn.Incoming();
      var ok, pktLen := ReadHeader();
      if !ok || pktLen == 0 || pktLen > MAX_PACKET {
        return Err;
      }
      if pktLen <= |incoming| - 4 {
        Advance(incoming, 4, pktLen);
      }
      res := ReadBody(pktLen, p);
    }

    /** All data this end will still return: the leftover, then what the stream carries. */
    ghost function Owed(): Option<seq<byte>>
      reads this, readBuf, conn, conn.buf, conn.conn.conn
      requires conn.Valid() && readOff <= readBuf.Length
    {
      match Undelivered(Codec(), conn.Incoming())
      case Some(later) => Some(Leftover() + later)
      case None => None
    }

    /**
     Read, for every slice length (0 included) and every way the transport cuts the stream: on a clean stream it
     never panics, fails only if the transport fails or ends, and what it returns is the front of what is owed.
     */
    method Read(p: array<byte>) returns (res: IoResult)
      requires Valid() && p !in pool.free && p != conn.buf && p != readBuf
      modifies this`readBuf, this`readOff, pool, pool.free, p
      modifies conn`r, conn`w, conn.buf, conn.conn.conn`inbox, conn.conn.conn`broken
      ensures Valid() && fresh(pool.free - old(pool.free)) && (readBuf == old(readBuf) || fresh(readBuf))
      ensures old(conn.conn.conn.broken) ==> conn.conn.conn.broken
      ensures res.Ok? ==> res.n <= p.Length
      ensures old(Owed()).Some? && res.Ok? ==> Owed().Some? && p[..res.n] + Owed().value == old(Owed()).value
      ensures old(Owed()).Some? && !res.Ok? ==> res == Err && (conn.conn.conn.broken || old(Owed()) == Some([]))
      ensures old(Leftover()) != [] ==>
                res == Ok(Min(p.Length, |old(Leftover())|)) && conn.Incoming() == old(conn.Incoming())
      ensures old(Leftover()) == [] && res.Ok? ==>
                var first := ReadPacket(Codec(), old(conn.Incoming()));
                && first.Got? && res.n == Min(p.Length, |first.data|)
                && p[..res.n] == first.data[..res.n] && Leftover() == first.data[res.n..]
                && conn.Incoming() == first.rest
      ensures res == Ok(0) && p.Length > 0 ==>
                old(Leftover()) == [] && ReadPacket(Codec(), old(conn.Incoming())).data == []
      ensures old(Leftover()) == [] && ReadPacket(Codec(), old(conn.Incoming())).Panics? ==>
                res == Panic || (res == Err && conn.conn.conn.broken)
    {
      ghost var left, incoming := Leftover(), conn.Incoming();
      res := ReadOnce(p);
      if res.Ok? {
        StillOwed(Codec(), left, incoming, res.n);
      } else if Undelivered(Codec(), incoming).Some? && !ReadPacket(Codec(), incoming).Got? {
        assert incoming == [];
      }
    }

    /** The leftover, or if there is none the next packet. */
    method ReadOnce(p: array<byte>) returns (res: IoResult)
      requires Valid() && p !in pool.free && p != conn.buf && p != readBuf
      modifies this`readBuf, this`readOff, pool, pool.free, p
      modifies conn`r, conn`w, conn.buf, conn.conn.conn`inbox, conn.conn.conn`broken
      ensures Valid() && fresh(pool.free - old(pool.free)) && (readBuf == old(readBuf) || fresh(readBuf))
      ensures old(conn.conn.conn.broken) ==> conn.conn.conn.broken
      ensures old(Leftover()) != [] ==>
                && res == Ok(Min(p.Length, |old(Leftover())|)) && p[..res.n] == old(Leftover())[..res.n]
                && Leftover() == old(Leftover())[res.n..] && conn.Incoming() == old(conn.Incoming())
      ensures !res.Ok? ==> Leftover() == []
      ensures old(Leftover()) == [] ==>
                (res == Err && conn.conn.conn.broken) || match ReadPacket(Codec(), old(conn.Incoming()))
                case Starved => res == Err
                case Refused(_) => res == Err
                case Panics => res == Panic
                case Got(data, rest) =>
                  && res == Ok(Min(p.Length, |data|)) && p[..res.n] == data[..res.n]
                  && Leftover() == data[res.n..] && conn.Incoming() == rest
    {
      if readOff < readBuf.Length {
        ghost var incoming := conn.Incoming();
        res := TakeLeftover(p);
        assert conn.Incoming() == incoming;
      } else {
        res := ReadNextPacket(p);
      }
    }

    /** The leftover first: what fits `p` of it. */
    method TakeLeftover(p: array<byte>) returns (res: IoResult)
      requires Valid() && Leftover() != [] && p != readBuf
      modifies this`readOff, p
      ensures Valid() && res == Ok(Min(p.Length, |old(Leftover())|))
      ensures p[..res.n] == old(Leftover())[..res.n] && Leftover() == old(Leftover())[res.n..]
    {
      ghost var left := Leftover();
      var n := Min(p.Length, readBuf.Length - readOff);
      var front := readBuf[readOff..readOff + n];
      assert front == left[..n] && readBuf[readOff + n..] == left[n..];
      CopyInto(p, 0, front);
      readOff := readOff + n;
      assert p[..n] == p[0..0 + n] == left[..n] && Leftover() == left[n..];
      res := Ok(n);
    }
  }

  /** What has been handed out and what is left over make up what was owed: of the leftover, or of the next packet. */
  lemma StillOwed(codec: RecordFormat.Codec, left: seq<byte>, incoming: seq<byte>, n: nat)
    ensures left != [] && n <= |left| && Undelivered(codec, incoming).Some? ==>
              left[..n] + (left[n..] + Undelivered(codec, incoming).value) == left + Undelivered(codec, incoming).value
    ensures var first := ReadPacket(codec, incoming);
            Undelivered(codec, incoming).Some? && first.Got? && n <= |first.data| ==>
              && Undelivered(codec, first.rest).Some?
              && first.data[..n] + (first.data[n..] + Undelivered(codec, first.rest).value)
                 == Undelivered(codec, incoming).value
  {
    if left != [] && n <= |left| && Undelivered(codec, incoming).Some? {
      SplitOwed(left, n, Undelivered(codec, incoming).value);
    }
    var first := ReadPacket(codec, incoming);
    if first.Got? && Undelivered(codec, incoming).Some? {
      UndeliveredCons(codec, incoming, first.data, first.rest);
      if n <= |first.data| {
        SplitOwed(first.data, n, Undelivered(codec, first.rest).value);
      }
    }
  }

  lemma SplitOwed(data: seq<byte>, n: nat, later: seq<byte>)
    requires n <= |data|
    ensures data[..n] + (data[n..] + later) == data + later
  {
  }


  // ---- many connections, one pool ----

  /** Connections that share nothing but the pool. */
  ghost predicate Separate(a: EncryptedConn, b: EncryptedConn)
    reads a, b
  {
    && a != b && a.readBuf != b.readBuf && a.conn != b.conn && a.conn.buf != b.conn.buf
    && a.readBuf != b.conn.buf && b.readBuf != a.conn.buf
    && a.conn.conn != b.conn.conn && a.conn.conn.conn != b.conn.conn.conn
  }

  /**
   A read on one connection changes nothing another connection still has to deliver, nor any buffer that a call
   blocked on another connection holds. Steps of interleaved calls are in BufferOwnership.
   */
  method ReadBeside(a: EncryptedConn, p: array<byte>, ghost others: set<EncryptedConn>, ghost held: set<array<byte>>)
      returns (res: IoResult)
    requires a.Valid() && p !in a.pool.free && p != a.conn.buf && p != a.readBuf
    requires forall b :: b in others ==> b.Valid() && b.pool == a.pool && Separate(a, b)
    requires forall b :: b in others ==> p != b.readBuf && p != b.conn.buf
    requires held !! a.pool.free && p !in held && a.conn.buf !in held
    modifies a`readBuf, a`readOff, a.pool, a.pool.free, p
    modifies a.conn`r, a.conn`w, a.conn.buf, a.conn.conn.conn`inbox, a.conn.conn.conn`broken
    ensures a.Valid()
    ensures forall b :: b in others ==> b.Valid() && Separate(a, b) && b.Owed() == old(b.Owed())
    ensures held !! a.pool.free && forall b :: b in held ==> b[..] == old(b[..])
  {
    res := a.Read(p);
  }

  /** The same for a write. */
  method WriteBeside(a: EncryptedConn, data: array<byte>, ghost others: set<EncryptedConn>,
                     ghost held: set<array<byte>>)
      returns (res: IoResult)
    requires a.Valid() && data !in a.pool.free && data != a.conn.buf && held !! a.pool.free
    requires forall b :: b in others ==> b.Valid() && b.pool == a.pool && Separate(a, b)
    modifies a.pool, a.pool.free, a.conn.conn`firstWrite
    modifies a.conn.conn.conn`outbox, a.conn.conn.conn`segments, a.conn.conn.conn`broken
    ensures a.Valid() && data[..] == old(data[..]) && a.Leftover() == old(a.Leftover())
    ensures forall b :: b in others ==> b.Valid() && Separate(a, b) && b.Owed() == old(b.Owed())
    ensures held !! a.pool.free && forall b :: b in held ==> b[..] == old(b[..])
  {
    ghost var nonce, padding;
    res, nonce, padding := a.Write(data);
  }

  // ---- from one end to the other ----

  /** The bytes one socket has written since `from` become readable at another. */
  method Carry(sender: Socket, from: nat, receiver: Socket)
    requires sender != receiver && from <= |sender.outbox|
    modifies receiver`inbox
    ensures receiver.inbox == old(receiver.inbox) + sender.outbox[from..]
  {
    receiver.inbox := receiver.inbox + sender.outbox[from..];
  }

  /**
   A write that succeeds, once its bytes have been carried over, adds exactly its data behind what the peer is
   still owed; with Read's contract the peer therefore reads the written data in order and unchanged.
   */
  method WriteAcross(a: EncryptedConn, data: array<byte>, b: EncryptedConn) returns (res: IoResult)
    requires a.Valid() && b.Valid() && a.pool == b.pool && Separate(a, b) && a.Codec() == b.Codec()
    requires data !in a.pool.free && data != a.conn.buf && data != b.readBuf && data != b.conn.buf
    requires b.Owed().Some?
    modifies a.pool, a.pool.free, a.conn.conn`firstWrite
    modifies a.conn.conn.conn`outbox, a.conn.conn.conn`segments, a.conn.conn.conn`broken
    modifies b.conn.conn.conn`inbox
    ensures a.Valid() && b.Valid() && Separate(a, b)
    ensures res.Ok? && Readable(a.Codec(), old(data[..])) ==> b.Owed() == Some(old(b.Owed()).value + old(data[..]))
    ensures !res.Ok? ==> b.Owed() == old(b.Owed())
  {
    ghost var written, incoming, left, owed := data[..], b.conn.Incoming(), b.Leftover(), b.Owed();
    var from := |a.conn.conn.conn.outbox|;
    ghost var nonce, padding;
    res, nonce, padding := a.WriteFrame(data);
    assert b.Leftover() == left && b.conn.Incoming() == incoming;
    if res.Ok? {
      ghost var frame := Frame(a.Codec(), written, nonce, padding);
      Carry(a.conn.conn.conn, from, b.conn.conn.conn);
      assert b.conn.Incoming() == incoming + frame;
      assert b.Leftover() == left;
      if Readable(a.Codec(), written) {
        UndeliveredWrite(a.Codec(), incoming, written, nonce, padding);
        ConcatAssociative(left, Undelivered(a.Codec(), incoming).value, written);
      }
    }
  }
}
