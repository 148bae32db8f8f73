/**
 The connections under the record layer: the socket, the ClientHello-splitting FragmentedConn,
 and bufferedConn, which reads through the bufio.Reader that already read the HTTP response.
 */
module Transport {
  import opened Bytes

  /**
   One end of a TCP connection. `inbox` holds every byte still to be read, whenever it arrives;
   a read returns any non-empty piece of it. `broken` is an I/O error and may happen at any call.
   */
  class Socket {
    var inbox: seq<byte>
    var outbox: seq<byte>          // every byte written
    var segments: seq<seq<byte>>   // the pieces in which it was written
    var broken: bool

    constructor (incoming: seq<byte>)
      ensures inbox == incoming && outbox == [] && segments == [] && !broken
    {
      inbox, outbox, segments, broken := incoming, [], [], false;
    }

    method Read(p: array<byte>, lo: nat, hi: nat) returns (n: nat, ok: bool)
      requires lo < hi <= p.Length
      modifies this`inbox, this`broken, p
      ensures n <= hi - lo && n <= |old(inbox)|
      ensures if ok then n > 0 else n == 0 && (broken || old(inbox) == [])
      ensures p[..lo] == old(p[..lo]) && p[lo..lo + n] == old(inbox)[..n] && p[lo + n..] == old(p[lo + n..])
      ensures inbox == old(inbox)[n..]
      ensures old(broken) ==> broken
    {
      n, ok := 0, false;
      if * {
        broken := true;
      }
      if !broken && inbox != [] {
        n :| 0 < n <= hi - lo && n <= |inbox|;
        ok := true;
        forall i | 0 <= i < n {
          p[lo + i] := inbox[i];
        }
        inbox := inbox[n..];
      }
    }

    method Write(b: seq<byte>) returns (n: nat, ok: bool)
      modifies this`outbox, this`segments, this`broken
      ensures n <= |b|
      ensures if ok then n == |b| else broken
      ensures outbox == old(outbox) + b[..n]
      ensures segments == old(segments) + [b[..n]]
      ensures old(broken) ==> broken
    {
      if * {
        broken := true;
      }
      n, ok := |b|, !broken;
      if broken {
        n :| 0 <= n <= |b|;
      }
      outbox, segments := outbox + b[..n], segments + [b[..n]];
    }
  }

  // ---- FragmentedConn ----

  function Flatten(pieces: seq<seq<byte>>): seq<byte> {
    if pieces == [] then [] else pieces[0] + Flatten(pieces[1..])
  }

  /** The transport writes one call makes when it succeeds. */
  function Pieces(firstWrite: bool, fragmentSize: nat, b: seq<byte>): seq<seq<byte>> {
    if firstWrite || |b| <= fragmentSize then [b] else [b[..fragmentSize], b[fragmentSize..]]
  }

  /** The transport writes a sequence of successful calls makes, starting from `firstWrite`. */
  function AllPieces(firstWrite: bool, fragmentSize: nat, calls: seq<seq<byte>>): seq<seq<byte>>
    decreases |calls|
  {
    if calls == [] then [] else Pieces(firstWrite, fragmentSize, calls[0]) + AllPieces(true, fragmentSize, calls[1..])
  }

  lemma {:induction false} AfterFirstWrite(fragmentSize: nat, calls: seq<seq<byte>>)
    ensures AllPieces(true, fragmentSize, calls) == calls
  {
    if calls != [] {
      AfterFirstWrite(fragmentSize, calls[1..]);
      assert calls == [calls[0]] + calls[1..];
    }
  }

  /**
   Fragmentation changes no byte and no order: only the first call ever made can be split, exactly when it is
   longer than the fragment size, into two non-empty pieces; a short first call already switches splitting off.
   */
  lemma FragmentationTransparent(fragmentSize: nat, calls: seq<seq<byte>>)
    requires fragmentSize > 0 && calls != []
    ensures Flatten(AllPieces(false, fragmentSize, calls)) == Flatten(calls)
    ensures if |calls[0]| <= fragmentSize then AllPieces(false, fragmentSize, calls) == calls
            else exists head, tail :: head != [] && tail != [] && head + tail == calls[0] && |head| == fragmentSize
                   && AllPieces(false, fragmentSize, calls) == [head, tail] + calls[1..]
  {
    AfterFirstWrite(fragmentSize, calls[1..]);
    if |calls[0]| <= fragmentSize {
      assert calls == [calls[0]] + calls[1..];
    } else {
      var head, tail := calls[0][..fragmentSize], calls[0][fragmentSize..];
      var pieces := [head, tail] + calls[1..];
      assert head + tail == calls[0];
      assert pieces[1..] == [tail] + calls[1..];
      assert pieces[1..][1..] == calls[1..];
      ConcatAssociative(head, tail, Flatten(calls[1..]));
    }
  }

  /** DialFragmented's choice of the fragment size: never below 1, and within the configured range. */
  method ChooseFragmentSize(minSize: int, maxSize: int) returns (size: nat)
    ensures size >= 1
    ensures minSize > 0 ==> size >= minSize
    ensures 0 < minSize <= maxSize ==> size <= maxSize
    ensures minSize <= 0 && maxSize <= 0 ==> 64 <= size <= 191
    ensures 0 < maxSize < minSize ==> size == minSize
    ensures minSize <= 0 < maxSize ==> if maxSize >= 64 then 64 <= size <= maxSize else size == 64
    ensures maxSize <= 0 < minSize ==> if minSize <= 191 then size <= 191 else size == minSize
  {
    var lo := if minSize <= 0 then 64 else minSize;
    var hi := if maxSize <= 0 then 191 else maxSize;
    size := lo;
    var diff := hi - lo;
    if diff > 0 {
      var draw := SecureRandInt(diff + 1);
      size := size + draw;
    }
  }

  method SecureRandInt(n: int) returns (r: nat)
    ensures if n <= 0 then r == 0 else r < n
  {
    r := 0;
    if n > 0 {
      r :| 0 <= r < n;
    }
  }

  class FragmentedConn {
    const conn: Socket
    const fragmentSize: nat
    var firstWrite: bool

    ghost predicate Valid() {
      fragmentSize > 0
    }

    constructor (conn: Socket, minSize: int, maxSize: int)
      ensures Valid() && this.conn == conn && !firstWrite
    {
      var size := ChooseFragmentSize(minSize, maxSize);
      this.conn, fragmentSize, firstWrite := conn, size, false;
    }

    /** Reports exactly how many bytes reached the transport, also when it fails half way. */
    method Write(b: seq<byte>) returns (n: nat, ok: bool)
      requires Valid()
      modifies this`firstWrite, conn`outbox, conn`segments, conn`broken
      ensures firstWrite
      ensures n <= |b|
      ensures if ok then n == |b| else conn.broken
      ensures conn.outbox == old(conn.outbox) + b[..n]
      ensures ok ==> conn.segments == old(conn.segments) + Pieces(old(firstWrite), fragmentSize, b)
      ensures old(conn.broken) ==> conn.broken
    {
      if firstWrite || |b| <= fragmentSize {
        firstWrite := true;
        n, ok := conn.Write(b);
        assert b[..|b|] == b;
        return;
      }
      firstWrite := true;
      var frag1, frag2 := b[..fragmentSize], b[fragmentSize..];
      var n1, n2;
      n1, ok := conn.Write(frag1);
      assert frag1[..n1] == b[..n1];
      if !ok {
        return n1, false;
      }
      assert frag1[..|frag1|] == frag1 && frag2[..|frag2|] == frag2;
      n2, ok := conn.Write(frag2);
      n := n1 + n2;
      assert ok ==> conn.segments == old(conn.segments) + [frag1, frag2];
      assert b[..n] == frag1 + frag2[..n2];
    }
  }

  // ---- bufferedConn ----

  /**
   A connection read through a bufio.Reader. A connection that is not wrapped (the server's) is
   the same thing with a buffer of length 0: every read then goes straight to the socket.
   */
  class BufferedConn {
    const conn: FragmentedConn
    const buf: array<byte>
    var r: nat
    var w: nat

    ghost predicate Valid()
      reads this
    {
      r <= w <= buf.Length && conn.Valid()
    }

    /** Everything still to be read: first what was read ahead, then the socket. */
    ghost function Incoming(): seq<byte>
      reads this, buf, conn.conn
      requires Valid()
    {
      buf[r..w] + conn.conn.inbox
    }

    constructor (conn: FragmentedConn, size: nat)
      requires conn.Valid()
      ensures Valid() && this.conn == conn && fresh(buf) && buf.Length == size
      ensures Incoming() == conn.conn.inbox
    {
      this.conn, buf, r, w := conn, new byte[size], 0, 0;
    }

    /** One transport read into the empty buffer. */
    method Fill() returns (ok: bool)
      requires Valid() && r == w && buf.Length > 0
      modifies this`r, this`w, buf, conn.conn`inbox, conn.conn`broken
      ensures Valid() && Incoming() == old(Incoming())
      ensures if ok then r < w else r == w && (conn.conn.broken || old(Incoming()) == [])
      ensures old(conn.conn.broken) ==> conn.conn.broken
    {
      r, w := 0, 0;
      var k;
      k, ok := conn.conn.Read(buf, 0, buf.Length);
      w := k;
    }

    /** Copy from the non-empty buffer. */
    method Take(p: array<byte>, lo: nat, hi: nat) returns (n: nat)
      requires Valid() && p != buf && r < w && lo < hi <= p.Length
      modifies this`r, p
      ensures Valid() && 0 < n <= hi - lo && n <= |old(Incoming())| && n == Min(hi - lo, old(w - r))
      ensures p[..lo] == old(p[..lo]) && p[lo..lo + n] == old(Incoming())[..n] && p[lo + n..] == old(p[lo + n..])
      ensures Incoming() == old(Incoming())[n..]
    {
      ghost var held, was := buf[r..w], p[..];
      n := Min(hi - lo, w - r);
      TakeFront(held, conn.conn.inbox, n);
      forall i | 0 <= i < n {
        p[lo + i] := buf[r + i];
      }
      assert p[lo..lo + n] == buf[r..r + n] == held[..n];
      assert p[..lo] == was[..lo] && p[lo + n..] == was[lo + n..];
      r := r + n;
      assert buf[r..w] == held[n..];
    }

    method Read(p: array<byte>, lo: nat, hi: nat) returns (n: nat, ok: bool)
      requires Valid() && p != buf && lo < hi <= p.Length
      modifies this`r, this`w, buf, conn.conn`inbox, conn.conn`broken, p
      ensures Valid()
      ensures n <= hi - lo && n <= |old(Incoming())|
      ensures old(r < w) ==> ok && n == Min(hi - lo, old(w - r))
      ensures if ok then n > 0 else n == 0 && (conn.conn.broken || old(Incoming()) == [])
      ensures p[..lo] == old(p[..lo]) && p[lo..lo + n] == old(Incoming())[..n] && p[lo + n..] == old(p[lo + n..])
      ensures Incoming() == old(Incoming())[n..]
      ensures old(conn.conn.broken) ==> conn.conn.broken
    {
      if r == w && hi - lo >= buf.Length {
        assert buf[r..w] == [];
        n, ok := conn.conn.Read(p, lo, hi);
        return;
      }
      if r == w {
        ok := Fill();
        if !ok {
          return 0, false;
        }
      }
      n := Take(p, lo, hi);
      ok := true;
    }

    /** io.ReadFull: however the transport cuts the stream, the result is the next hi-lo bytes or a failure. */
    method ReadFull(p: array<byte>, lo: nat, hi: nat) returns (ok: bool)
      requires Valid() && p != buf && lo <= hi <= p.Length
      modifies this`r, this`w, buf, conn.conn`inbox, conn.conn`broken, p
      ensures Valid()
      ensures ok ==> |old(Incoming())| >= hi - lo
      ensures ok ==> p[lo..hi] == old(Incoming())[..hi - lo]
      ensures ok ==> p[..lo] == old(p[..lo]) && p[hi..] == old(p[hi..])
      ensures ok ==> Incoming() == old(Incoming())[hi - lo..]
      ensures !ok ==> conn.conn.broken || |old(Incoming())| < hi - lo
      ensures old(conn.conn.broken) ==> conn.conn.broken
    {
      ghost var incoming, before := Incoming(), p[..];
      var got := 0;
      while lo + got < hi
        invariant lo + got <= hi && Valid()
        invariant got <= |incoming| && Incoming() == incoming[got..]
        invariant Filled(before, p[..], incoming, lo, got)
        invariant old(conn.conn.broken) ==> conn.conn.broken
      {
        ghost var now := p[..];
        var at := lo + got;
        var n;
        n, ok := this.Read(p, at, hi);
        if !ok {
          return;
        }
        Advance(incoming, got, n);
        assert Incoming() == incoming[got + n..];
        FillMore(before, now, p[..], incoming, lo, got, n);
        got := got + n;
      }
      ok := true;
    }
  }

  /** The slice `now` is `before` with `got` bytes from lo on taken from the stream. */
  ghost predicate Filled(before: seq<byte>, now: seq<byte>, stream: seq<byte>, lo: nat, got: nat) {
    && lo + got <= |before| == |now| && got <= |stream|
    && now[..lo] == before[..lo] && now[lo..lo + got] == stream[..got] && now[lo + got..] == before[lo + got..]
  }

  lemma FillMore(before: seq<byte>, now: seq<byte>, next: seq<byte>, stream: seq<byte>, lo: nat, got: nat, n: nat)
    requires Filled(before, now, stream, lo, got) && lo + got + n <= |now| == |next| && got + n <= |stream|
    requires next[..lo + got] == now[..lo + got] && next[lo + got + n..] == now[lo + got + n..]
    requires next[lo + got..lo + got + n] == stream[got..got + n]
    ensures Filled(before, next, stream, lo, got + n)
  {
    Advance(stream, got, n);
    assert next[..lo] == next[..lo + got][..lo] == now[..lo];
    assert next[lo..lo + got + n] == next[..lo + got][lo..] + next[lo + got..lo + got + n];
    assert now[lo..lo + got] == now[..lo + got][lo..];
    assert next[lo + got + n..] == now[lo + got..][n..] == before[lo + got..][n..] == before[lo + got + n..];
  }

  lemma TakeFront(held: seq<byte>, behind: seq<byte>, n: nat)
    requires n <= |held|
    ensures (held + behind)[..n] == held[..n] && (held + behind)[n..] == held[n..] + behind
  {
  }

  lemma Advance(stream: seq<byte>, at: nat, n: nat)
    requires at + n <= |stream|
    ensures stream[at..][..n] == stream[at..at + n]
    ensures stream[at..][n..] == stream[at + n..]
    ensures stream[..at] + stream[at..at + n] == stream[..at + n]
  {
  }
}
