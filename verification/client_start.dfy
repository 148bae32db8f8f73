/** How a client connection starts: the handshake, then the record layer on the same buffered connection. */
module ClientStart {
  import opened Bytes
  import opened RecordFormat
  import opened Transport
  import opened RecordLayer
  import Handshake

  /**
   When the server answers with a head and writes the packets of `writes` behind it, the record layer on the
   connection that the handshake returns owes its readers exactly their data, however much of them the handshake's
   reader has taken in already. Without an error a head with status 101 suffices.
   */
  method Connect(conn: BufferedConn, request: seq<byte>, pool: BufferPool, gcm: Option<Aead>, obfs: Option<Obfs>,
                 ghost head: seq<seq<byte>>, ghost writes: seq<Sent>)
      returns (ok: bool, ec: EncryptedConn?)
    requires conn.Valid() && pool.Valid() && conn.buf !in pool.free
    requires gcm.Some? ==> gcm.value.Lawful()
    requires PaddingAllowed(obfs)
    requires Handshake.GoodRequest(head)
    requires var codec := Codec(gcm, Pads(obfs));
             && (forall i :: 0 <= i < |writes| ==> Carries(codec, writes[i]))
             && conn.Incoming() == Handshake.Head(head) + Stream(codec, writes)
    modifies conn`r, conn`w, conn.buf, conn.conn`firstWrite, conn.conn.conn
    ensures ok ==> ec != null && fresh(ec) && ec.Valid() && ec.conn == conn && ec.Owed() == Some(DataOf(writes))
    ensures !ok ==> conn.conn.conn.broken || !Handshake.Is101(Handshake.Head(head))
    ensures head == Handshake.SwitchLines() ==> ok || conn.conn.conn.broken
  {
    ghost var codec := Codec(gcm, Pads(obfs));
    ghost var incoming := conn.Incoming();
    Handshake.HeadParses(head, Stream(codec, writes));
    assert incoming[..|Handshake.Head(head)|] == Handshake.Head(head);
    ec := null;
    ok := Handshake.ClientHandshake(conn, request);
    if ok {
      assert conn.Incoming() == Stream(codec, writes);
      StreamCarries(codec, writes);
      ec := new EncryptedConn(conn, pool, gcm, obfs);
      assert [] + DataOf(writes) == DataOf(writes);
    }
  }
}
