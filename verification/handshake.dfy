/**
 The mimicry handshake: HTTP message heads (section 2.1 of RFC 9112), the client's reader of the 101 head,
 and the two-party protocol with read-ahead on both sides.
 */
module Handshake {
  import opened Bytes
  import opened Transport

  const LF := 10
  const CR := 13

  // ---- message heads ----

  datatype LineState = Fresh | OnlyCR | Text // what the current line holds so far

  function Seen(line: LineState, c: byte): LineState {
    if c == LF then Fresh else if line.Fresh? && c == CR then OnlyCR else Text
  }

  predicate EndsHead(line: LineState, c: byte) {
    c == LF && !line.Text?
  }

  /** Index behind the first blank line (LF or CR LF), for a scan that starts in the middle of a line. */
  function Scan(s: seq<byte>, line: LineState): (end: Option<nat>)
    ensures end.Some? ==> 0 < end.value <= |s|
  {
    if s == [] then None
    else if EndsHead(line, s[0]) then Some(1)
    else match Scan(s[1..], Seen(line, s[0]))
      case Some(n) => Some(1 + n)
      case None => None
  }

  /** Index behind the blank line that ends the head. */
  function HeadEnd(s: seq<byte>): Option<nat> {
    Scan(s, Fresh)
  }

  /** The byte in front of n ends a blank line: LF at the start or behind an LF, with or without a CR in between. */
  predicate BlankEnds(s: seq<byte>, n: nat) {
    && 0 < n <= |s| && s[n - 1] == 10
    && (n == 1 || s[n - 2] == 10 || (s[n - 2] == 13 && (n == 2 || s[n - 3] == 10)))
  }

  /** What the last line of `front` holds. */
  function StateBehind(front: seq<byte>): LineState {
    var n := |front|;
    if n == 0 || front[n - 1] == 10 then Fresh
    else if front[n - 1] == 13 && (n == 1 || front[n - 2] == 10) then OnlyCR
    else Text
  }

  lemma {:induction false} ScanExactly(front: seq<byte>, rest: seq<byte>)
    ensures match Scan(rest, StateBehind(front))
            case Some(n) =>
              && BlankEnds(front + rest, |front| + n)
              && forall m :: |front| < m < |front| + n ==> !BlankEnds(front + rest, m)
            case None => forall m :: |front| < m ==> !BlankEnds(front + rest, m)
    decreases |rest|
  {
    if rest != [] {
      var s, line := front + rest, StateBehind(front);
      assert s == front + [rest[0]] + rest[1..];
      assert EndsHead(line, rest[0]) <==> BlankEnds(s, |front| + 1);
      if !EndsHead(line, rest[0]) {
        assert Seen(line, rest[0]) == StateBehind(front + [rest[0]]);
        ScanExactly(front + [rest[0]], rest[1..]);
      }
    }
  }

  /** A head ends behind its first blank line, in any bytes whatever. */
  lemma HeadEndExactly(s: seq<byte>)
    ensures match HeadEnd(s)
            case Some(n) => BlankEnds(s, n) && forall m: nat :: m < n ==> !BlankEnds(s, m)
            case None => forall m: nat :: !BlankEnds(s, m)
  {
    ScanExactly([], s);
    assert [] + s == s;
  }

  /** Later bytes do not move the end of a head. */
  lemma {:induction false} ScanStable(s: seq<byte>, line: LineState, more: seq<byte>)
    requires Scan(s, line).Some?
    ensures Scan(s + more, line) == Scan(s, line)
  {
    assert (s + more)[1..] == s[1..] + more;
    if !EndsHead(line, s[0]) {
      ScanStable(s[1..], Seen(line, s[0]), more);
    }
  }

  predicate HeadLine(line: seq<byte>) {
    LF !in line && line != [] && line != [CR]
  }

  /** Start line and field lines, each ended by CRLF, then the blank line. */
  function Head(lines: seq<seq<byte>>): seq<byte> {
    if lines == [] then [CR, LF] else lines[0] + ([CR, LF] + Head(lines[1..]))
  }

  function SeenAll(line: LineState, s: seq<byte>): LineState
    decreases |s|
  {
    if s == [] then line else SeenAll(Seen(line, s[0]), s[1..])
  }

  lemma {:induction false} HeadLineIsText(line: LineState, s: seq<byte>)
    requires LF !in s
    requires line.Text? || (line.OnlyCR? && s != []) || (line.Fresh? && HeadLine(s))
    ensures SeenAll(line, s) == Text
    decreases |s|
  {
    if s != [] {
      assert s[0] in s;
      assert s == [s[0]] + s[1..];
      HeadLineIsText(Seen(line, s[0]), s[1..]);
    }
  }

  /** The line feed that ends a line with text does not end the head. */
  lemma {:induction false} ScanLine(line: LineState, s: seq<byte>, rest: seq<byte>)
    requires LF !in s && SeenAll(line, s) == Text
    ensures Scan(s + ([CR, LF] + rest), line)
         == match Scan(rest, Fresh) case Some(n) => Some(|s| + 2 + n) case None => None
    decreases |s|
  {
    var all := s + ([CR, LF] + rest);
    if s == [] {
      assert all[1..] == [LF] + rest && all[1..][1..] == rest;
    } else {
      assert s[0] in s;
      assert all[1..] == s[1..] + ([CR, LF] + rest);
      ScanLine(Seen(line, s[0]), s[1..], rest);
    }
  }

  lemma {:induction false} HeadEndOfHead(lines: seq<seq<byte>>, rest: seq<byte>)
    requires forall i :: 0 <= i < |lines| ==> HeadLine(lines[i])
    ensures HeadEnd(Head(lines) + rest) == Some(|Head(lines)|)
    decreases |lines|
  {
    var s := Head(lines) + rest;
    if lines == [] {
      assert s[1..] == [LF] + rest;
      assert Scan(s[1..], OnlyCR) == Some(1);
    } else {
      HeadEndOfHead(lines[1..], rest);
      assert s == lines[0] + ([CR, LF] + (Head(lines[1..]) + rest));
      HeadLineIsText(Fresh, lines[0]);
      ScanLine(Fresh, lines[0], Head(lines[1..]) + rest);
    }
  }

  /** A reader that has seen only part of `Head(lines) + rest` finds the end of the head there or not at all. */
  lemma HeadEndOfPrefix(lines: seq<seq<byte>>, rest: seq<byte>, seen: seq<byte>, unseen: seq<byte>)
    requires forall i :: 0 <= i < |lines| ==> HeadLine(lines[i])
    requires seen + unseen == Head(lines) + rest && HeadEnd(seen).Some?
    ensures HeadEnd(seen) == Some(|Head(lines)|)
    ensures seen[..|Head(lines)|] == Head(lines)
    ensures seen[|Head(lines)|..] + unseen == rest
  {
    ScanStable(seen, Fresh, unseen);
    HeadEndOfHead(lines, rest);
    var n := |Head(lines)|;
    assert (seen + unseen)[..n] == seen[..n] && (seen + unseen)[n..] == seen[n..] + unseen;
    assert (Head(lines) + rest)[..n] == Head(lines) && (Head(lines) + rest)[n..] == rest;
  }

  // ---- the client's reader ----

  /** `head` has been read without reaching the end of the head, `left` is still to come. */
  ghost predicate InHead(incoming: seq<byte>, head: seq<byte>, left: seq<byte>, line: LineState) {
    && incoming == head + left
    && HeadEnd(incoming) == match Scan(left, line)
                            case Some(n) => Some(|head| + n)
                            case None => None
  }

  lemma ReadOne(incoming: seq<byte>, head: seq<byte>, left: seq<byte>, line: LineState)
    requires InHead(incoming, head, left, line) && left != []
    ensures incoming == head + [left[0]] + left[1..]
    ensures if EndsHead(line, left[0]) then HeadEnd(incoming) == Some(|head| + 1)
            else InHead(incoming, head + [left[0]], left[1..], Seen(line, left[0]))
  {
    MoveFront(head, left, 1);
    assert left[..1] == [left[0]];
  }

  /** http.ReadResponse as far as it moves the reader: consumes the head and leaves the rest to be read. */
  method ReadHead(conn: BufferedConn) returns (ok: bool, head: seq<byte>)
    requires conn.Valid()
    modifies conn`r, conn`w, conn.buf, conn.conn.conn`inbox, conn.conn.conn`broken
    ensures conn.Valid()
    ensures ok ==> HeadEnd(old(conn.Incoming())) == Some(|head|)
    ensures ok ==> old(conn.Incoming()) == head + conn.Incoming()
    ensures !ok ==> conn.conn.conn.broken || HeadEnd(old(conn.Incoming())).None?
  {
    ghost var incoming := conn.Incoming();
    var one := new byte[1];
    var line := Fresh;
    head := [];
    while true
      invariant conn.Valid() && InHead(incoming, head, conn.Incoming(), line)
      decreases |conn.Incoming()|
    {
      ghost var left := conn.Incoming();
      var n;
      n, ok := conn.Read(one, 0, 1);
      if !ok {
        return;
      }
      assert one[0] == one[0..1][0] == left[0];
      ReadOne(incoming, head, left, line);
      head := head + [one[0]];
      if EndsHead(line, one[0]) {
        return;
      }
      line := Seen(line, one[0]);
    }
  }

  const STATUS_101: seq<byte> := [32, 49, 48, 49] // " 101"

  /** The status code behind the version is 101: no fourth digit follows. */
  predicate Is101(head: seq<byte>) {
    |head| >= 13 && head[8..12] == STATUS_101 && !(48 <= head[12] <= 57)
  }

  /**
   ClientHandshake: send the request, read the 101 head. The connection it returns yields exactly the
   bytes behind the head, whether the reader had already buffered them or not.
   */
  method ClientHandshake(conn: BufferedConn, request: seq<byte>) returns (ok: bool)
    requires conn.Valid()
    modifies conn`r, conn`w, conn.buf, conn.conn`firstWrite, conn.conn.conn
    ensures conn.Valid()
    ensures ok ==> conn.conn.conn.outbox == old(conn.conn.conn.outbox) + request
    ensures ok ==> exists n :: HeadEnd(old(conn.Incoming())) == Some(n)
                     && Is101(old(conn.Incoming())[..n]) && conn.Incoming() == old(conn.Incoming())[n..]
    ensures !ok ==> conn.conn.conn.broken || match HeadEnd(old(conn.Incoming()))
                                             case Some(n) => !Is101(old(conn.Incoming())[..n])
                                             case None => true
    ensures forall rest :: old(conn.Incoming()) == Head(SwitchLines()) + rest ==>
              conn.conn.conn.broken || (ok && conn.Incoming() == rest)
  {
    ghost var incoming := conn.Incoming();
    var sent;
    sent, ok := conn.conn.Write(request);
    if !ok {
      return;
    }
    assert request[..|request|] == request;
    assert conn.Incoming() == incoming;
    var head;
    ok, head := ReadHead(conn);
    if ok {
      assert incoming[..|head|] == head && incoming[|head|..] == conn.Incoming();
      ok := Is101(head);
    }
    forall rest | incoming == Head(SwitchLines()) + rest
      ensures conn.conn.conn.broken || (ok && conn.Incoming() == rest)
    {
      AnswerIsTaken(rest);
    }
  }

  // ---- both parties ----

  const SWITCH_LINES: seq<string> := [
    "HTTP/1.1 101 Switching Protocols", "Upgrade: websocket", "Connection: Upgrade",
    "Sec-WebSocket-Accept: " + "s3pPLMBiTxaQ9kYGzzhZRbK+xOo="]

  function SwitchLines(): seq<seq<byte>> {
    seq(|SWITCH_LINES|, i requires 0 <= i < |SWITCH_LINES| => AsciiBytes(SWITCH_LINES[i]))
  }

  datatype ServerPhase = ReadingRequest | Handling | Hijacked | Upgraded
  datatype ClientPhase = Awaiting | Tunnel

  datatype State = State(
    toServer: seq<byte>, serverBuf: seq<byte>, server: ServerPhase,
    toClient: seq<byte>, clientBuf: seq<byte>, client: ClientPhase,
    discarded: seq<byte>,                              // what the server's reader held at Hijack
    clientSent: seq<byte>, serverGot: seq<byte>,       // tunnel bytes, client to server
    serverSent: seq<byte>, clientGot: seq<byte>)       // tunnel bytes, server to client

  datatype Event =
    | ServerFill(k: nat)     // the HTTP server's reader reads ahead
    | ServerParse            // the request head is complete
    | Hijack                 // the reader is dropped, the raw connection kept
    | Send101
    | ServerSend(data: seq<byte>)
    | ServerRecv(k: nat)     // from the raw connection
    | ClientFill(k: nat)     // the client's bufio.Reader reads ahead
    | ClientParse            // http.ReadResponse returns
    | ClientSend(data: seq<byte>)
    | ClientRecv(k: nat)     // through bufferedConn

  function Initial(request: seq<seq<byte>>): State {
    State(Head(request), [], ReadingRequest, [], [], Awaiting, [], [], [], [], [])
  }

  predicate Enabled(s: State, e: Event) {
    match e
    case ServerFill(k) => (s.server.ReadingRequest? || s.server.Handling?) && 0 < k <= |s.toServer|
    case ServerParse => s.server.ReadingRequest? && HeadEnd(s.serverBuf).Some?
    case Hijack => s.server.Handling?
    case Send101 => s.server.Hijacked?
    case ServerSend(_) => s.server.Upgraded?
    case ServerRecv(k) => s.server.Upgraded? && 0 < k <= |s.toServer|
    case ClientFill(k) => 0 < k <= |s.toClient|
    case ClientParse => s.client.Awaiting? && HeadEnd(s.clientBuf).Some?
    case ClientSend(_) => s.client.Tunnel?
    case ClientRecv(k) => s.client.Tunnel? && 0 < k <= (if s.clientBuf != [] then |s.clientBuf| else |s.toClient|)
  }

  function Step(s: State, e: Event): State
    requires Enabled(s, e)
  {
    match e
    case ServerFill(k) => s.(toServer := s.toServer[k..], serverBuf := s.serverBuf + s.toServer[..k])
    case ServerParse => s.(server := Handling, serverBuf := s.serverBuf[HeadEnd(s.serverBuf).value..])
    case Hijack => s.(server := Hijacked, discarded := s.serverBuf, serverBuf := [])
    case Send101 => s.(server := Upgraded, toClient := s.toClient + Head(SwitchLines()))
    case ServerSend(data) => s.(toClient := s.toClient + data, serverSent := s.serverSent + data)
    case ServerRecv(k) => s.(toServer := s.toServer[k..], serverGot := s.serverGot + s.toServer[..k])
    case ClientFill(k) => s.(toClient := s.toClient[k..], clientBuf := s.clientBuf + s.toClient[..k])
    case ClientParse => s.(client := Tunnel, clientBuf := s.clientBuf[HeadEnd(s.clientBuf).value..])
    case ClientSend(data) => s.(toServer := s.toServer + data, clientSent := s.clientSent + data)
    case ClientRecv(k) =>
      if s.clientBuf != [] then s.(clientBuf := s.clientBuf[k..], clientGot := s.clientGot + s.clientBuf[..k])
      else s.(toClient := s.toClient[k..], clientGot := s.clientGot + s.toClient[..k])
  }

  ghost predicate IsRun(states: seq<State>, events: seq<Event>) {
    && |states| == |events| + 1
    && (forall i :: 0 <= i < |events| ==> Enabled(states[i], events[i]) && states[i + 1] == Step(states[i], events[i]))
  }

  predicate GoodRequest(request: seq<seq<byte>>) {
    forall i :: 0 <= i < |request| ==> HeadLine(request[i])
  }

  predicate Quiet(s: State) {
    s.clientSent == [] && s.serverGot == [] && s.serverSent == [] && s.clientGot == []
  }

  ghost predicate Inv(request: seq<seq<byte>>, s: State) {
    && s.discarded == []
    && (s.client.Tunnel? ==> s.server.Upgraded?)
    && (match s.server
        case ReadingRequest => s.serverBuf + s.toServer == Head(request)
        case _ => s.serverBuf == [] && s.serverGot + s.toServer == s.clientSent)
    && (!s.server.Upgraded? ==> Quiet(s) && s.toClient == [] && s.clientBuf == [])
    && (s.server.Upgraded? && s.client.Awaiting? ==>
          && s.clientSent == [] && s.clientGot == []
          && s.clientBuf + s.toClient == Head(SwitchLines()) + s.serverSent)
    && (s.client.Tunnel? ==> s.clientGot + s.clientBuf + s.toClient == s.serverSent)
  }

  predicate Printable(s: string) {
    s != [] && forall c :: c in s ==> ' ' <= c <= '~'
  }

  lemma PrintableIsHeadLine(s: string)
    requires Printable(s)
    ensures HeadLine(AsciiBytes(s))
  {
    var b := AsciiBytes(s);
    forall i | 0 <= i < |b| ensures b[i] >= 32 {
      assert s[i] in s;
    }
    assert b[0] != CR;
  }

  lemma AcceptLinePrintable()
    ensures Printable(SWITCH_LINES[3])
  {
    var name, value := "Sec-WebSocket-Accept: ", "s3pPLMBiTxaQ9kYGzzhZRbK+xOo=";
    assert Printable(name);
    assert Printable(value);
    assert forall c :: c in name + value ==> c in name || c in value;
  }

  lemma OtherLinesPrintable()
    ensures Printable(SWITCH_LINES[0]) && Printable(SWITCH_LINES[1]) && Printable(SWITCH_LINES[2])
  {
  }

  lemma PrintableHead(lines: seq<string>)
    requires forall i :: 0 <= i < |lines| ==> Printable(lines[i])
    ensures GoodRequest(seq(|lines|, i requires 0 <= i < |lines| => AsciiBytes(lines[i])))
  {
    forall i | 0 <= i < |lines| ensures HeadLine(AsciiBytes(lines[i])) {
      PrintableIsHeadLine(lines[i]);
    }
  }

  lemma SwitchLinesWellFormed()
    ensures GoodRequest(SwitchLines())
  {
    OtherLinesPrintable();
    AcceptLinePrintable();
    PrintableHead(SWITCH_LINES);
  }

  // ---- the status line ----

  /** For a status line "HTTP/1.1 ddd reason" the three digits decide, whatever the rest of the head. */
  lemma StatusDecides(lines: seq<seq<byte>>, code: seq<byte>, reason: seq<byte>)
    requires lines != [] && |code| == 3
    requires lines[0] == [72, 84, 84, 80, 47, 49, 46, 49, 32] + code + [32] + reason
    ensures Is101(Head(lines)) <==> code == [49, 48, 49]
  {
    var line, head := lines[0], Head(lines);
    assert head == line + ([CR, LF] + Head(lines[1..]));
    assert |line| >= 13 && line[8] == 32 && line[9] == code[0] && line[10] == code[1] && line[11] == code[2];
    assert head[8..12] == [line[8], line[9], line[10], line[11]];
    assert code == [code[0], code[1], code[2]];
    assert head[8..12] == [32] + code;
    assert head[12] == line[12] == 32;
    assert code == ([32] + code)[1..] && [49, 48, 49] == STATUS_101[1..];
  }

  /** The server's own answer has status 101. */
  lemma AnswerIs101()
    ensures Is101(Head(SwitchLines()))
  {
    var line := SWITCH_LINES[0];
    var reason := AsciiBytes(line)[13..];
    assert SwitchLines()[0] == AsciiBytes(line);
    var start := "HTTP/1.1 101 ";
    assert line[..13] == start;
    forall i | 0 <= i < 13 ensures AsciiBytes(line)[i] == AsciiBytes(start)[i] {
      assert line[i] == start[i];
    }
    assert AsciiBytes(line) == [72, 84, 84, 80, 47, 49, 46, 49, 32] + [49, 48, 49] + [32] + reason;
    StatusDecides(SwitchLines(), [49, 48, 49], reason);
  }

  /** So the client takes it, whatever follows; a decoy page's 404 it does not take. */
  lemma AnswerIsTaken(rest: seq<byte>)
    ensures HeadEnd(Head(SwitchLines()) + rest) == Some(|Head(SwitchLines())|)
    ensures Is101((Head(SwitchLines()) + rest)[..|Head(SwitchLines())|])
    ensures (Head(SwitchLines()) + rest)[|Head(SwitchLines())|..] == rest
  {
    SwitchLinesWellFormed();
    HeadParses(SwitchLines(), rest);
    AnswerIs101();
    assert (Head(SwitchLines()) + rest)[..|Head(SwitchLines())|] == Head(SwitchLines());
  }

  /** The answer byte by byte: the four lines, each ended by CR LF, and a blank line. */
  lemma AnswerText()
    ensures Head(SwitchLines()) ==
              AsciiBytes("HTTP/1.1 101 Switching Protocols") + ([13, 10] +
              (AsciiBytes("Upgrade: websocket") + ([13, 10] +
              (AsciiBytes("Connection: Upgrade") + ([13, 10] +
              (AsciiBytes("Sec-WebSocket-Accept: " + "s3pPLMBiTxaQ9kYGzzhZRbK+xOo=") + ([13, 10] + [13, 10])))))))
  {
    var lines := SwitchLines();
    assert lines[1..][0] == lines[1] && lines[1..][1..] == lines[2..];
    assert lines[2..][0] == lines[2] && lines[2..][1..] == lines[3..];
    assert lines[3..] == [lines[3]];
  }

  lemma InitialInv(request: seq<seq<byte>>)
    ensures Inv(request, Initial(request))
  {
  }

  /** The server's reader ends exactly at the request head: nothing else can have been sent yet. */
  lemma ServerParsePreserves(request: seq<seq<byte>>, s: State)
    requires GoodRequest(request) && Inv(request, s) && Enabled(s, ServerParse)
    ensures Inv(request, Step(s, ServerParse))
  {
    assert Head(request) + [] == Head(request);
    HeadEndOfPrefix(request, [], s.serverBuf, s.toServer);
  }

  lemma ClientParsePreserves(request: seq<seq<byte>>, s: State)
    requires Inv(request, s) && Enabled(s, ClientParse)
    ensures Inv(request, Step(s, ClientParse))
    ensures s.server.Upgraded?
  {
    assert Scan([], Fresh) == None;
    SwitchLinesWellFormed();
    HeadEndOfPrefix(SwitchLines(), s.serverSent, s.clientBuf, s.toClient);
    assert [] + Step(s, ClientParse).clientBuf == Step(s, ClientParse).clientBuf;
  }

  lemma ServerTakesPreserves(request: seq<seq<byte>>, s: State, e: Event)
    requires Inv(request, s) && Enabled(s, e) && (e.ServerFill? || e.ServerRecv?)
    ensures Inv(request, Step(s, e))
  {
    MoveFront(s.serverBuf, s.toServer, e.k);
    MoveFront(s.serverGot, s.toServer, e.k);
  }

  lemma ClientFillPreserves(request: seq<seq<byte>>, s: State, k: nat)
    requires Inv(request, s) && Enabled(s, ClientFill(k))
    ensures Inv(request, Step(s, ClientFill(k)))
  {
    MoveFront(s.clientBuf, s.toClient, k);
    ConcatAssociative(s.clientGot, s.clientBuf, s.toClient);
    var t := Step(s, ClientFill(k));
    ConcatAssociative(s.clientGot, t.clientBuf, t.toClient);
  }

  lemma ClientRecvPreserves(request: seq<seq<byte>>, s: State, k: nat)
    requires Inv(request, s) && Enabled(s, ClientRecv(k))
    ensures Inv(request, Step(s, ClientRecv(k)))
  {
    MoveFront(s.clientGot, if s.clientBuf != [] then s.clientBuf else s.toClient, k);
    assert s.clientBuf == [] ==> s.clientGot + s.clientBuf == s.clientGot;
    var t := Step(s, ClientRecv(k));
    assert s.clientBuf == [] ==> t.clientGot + t.clientBuf == t.clientGot;
  }

  lemma ServerSendPreserves(request: seq<seq<byte>>, s: State, data: seq<byte>)
    requires Inv(request, s) && Enabled(s, ServerSend(data))
    ensures Inv(request, Step(s, ServerSend(data)))
  {
    ConcatAssociative(s.clientBuf, s.toClient, data);
    ConcatAssociative(s.clientGot + s.clientBuf, s.toClient, data);
    ConcatAssociative(Head(SwitchLines()), s.serverSent, data);
  }

  lemma ClientSendPreserves(request: seq<seq<byte>>, s: State, data: seq<byte>)
    requires Inv(request, s) && Enabled(s, ClientSend(data))
    ensures Inv(request, Step(s, ClientSend(data)))
  {
    ConcatAssociative(s.serverGot, s.toServer, data);
  }

  lemma UpgradePreserves(request: seq<seq<byte>>, s: State, e: Event)
    requires Inv(request, s) && Enabled(s, e) && (e.Hijack? || e.Send101?)
    ensures Inv(request, Step(s, e))
  {
    var head := Head(SwitchLines());
    assert [] + ([] + head) == head == head + [];
  }

  lemma StepPreserves(request: seq<seq<byte>>, s: State, e: Event)
    requires GoodRequest(request) && Inv(request, s) && Enabled(s, e)
    ensures Inv(request, Step(s, e))
  {
    match e
    case ServerParse => ServerParsePreserves(request, s);
    case ClientParse => ClientParsePreserves(request, s);
    case ServerSend(data) => ServerSendPreserves(request, s, data);
    case ClientSend(data) => ClientSendPreserves(request, s, data);
    case ClientFill(k) => ClientFillPreserves(request, s, k);
    case ClientRecv(k) => ClientRecvPreserves(request, s, k);
    case ServerFill(_) => ServerTakesPreserves(request, s, e);
    case ServerRecv(_) => ServerTakesPreserves(request, s, e);
    case _ => UpgradePreserves(request, s, e);
  }

  lemma {:induction false} RunInv(request: seq<seq<byte>>, states: seq<State>, events: seq<Event>, i: nat)
    requires GoodRequest(request) && IsRun(states, events) && states[0] == Initial(request) && i < |states|
    ensures Inv(request, states[i])
  {
    if i == 0 {
      InitialInv(request);
    } else {
      RunInv(request, states, events, i - 1);
      StepPreserves(request, states[i - 1], events[i - 1]);
    }
  }

  /**
   In every interleaving and for every segmentation: the reader dropped at Hijack holds no byte, no tunnel byte
   is sent by the client before the server has upgraded, and both tunnel streams are received in order from
   their first byte on.
   */
  lemma HandshakeLossless(request: seq<seq<byte>>, states: seq<State>, events: seq<Event>, i: nat)
    requires GoodRequest(request) && IsRun(states, events) && states[0] == Initial(request) && i < |states|
    ensures states[i].discarded == [] && (states[i].server.Handling? ==> states[i].serverBuf == [])
    ensures states[i].clientSent != [] ==> states[i].server.Upgraded? && states[i].client.Tunnel?
    ensures states[i].serverGot <= states[i].clientSent
    ensures states[i].clientGot <= states[i].serverSent
    ensures states[i].client.Tunnel? ==>
              states[i].clientGot + (states[i].clientBuf + states[i].toClient) == states[i].serverSent
  {
    RunInv(request, states, events, i);
    var s := states[i];
    ConcatAssociative(s.clientGot, s.clientBuf, s.toClient);
  }

  lemma HeadParses(lines: seq<seq<byte>>, rest: seq<byte>)
    requires GoodRequest(lines)
    ensures HeadEnd(Head(lines) + rest) == Some(|Head(lines)|)
    ensures (Head(lines) + rest)[|Head(lines)|..] == rest
  {
    HeadEndOfHead(lines, rest);
  }

  lemma Extend(states: seq<State>, events: seq<Event>, e: Event)
    requires IsRun(states, events) && Enabled(states[|events|], e)
    ensures IsRun(states + [Step(states[|events|], e)], events + [e])
  {
  }

  /** The server has answered, and the client has read nothing yet. */
  function Answered(): State {
    State([], [], Upgraded, Head(SwitchLines()), [], Awaiting, [], [], [], [], [])
  }

  lemma Upgrades(request: seq<seq<byte>>) returns (states: seq<State>, events: seq<Event>)
    requires GoodRequest(request)
    ensures IsRun(states, events) && states[0] == Initial(request) && states[|events|] == Answered()
  {
    var head := Head(request);
    HeadParses(request, []);
    assert head + [] == head && head[|head|..] == [] && [] + head[..|head|] == head;
    var s0 := Initial(request);
    var s1 := s0.(toServer := [], serverBuf := head);
    var s2 := s1.(server := Handling, serverBuf := []);
    var s3 := s2.(server := Hijacked);
    states, events := [s0, s1, s2, s3, Answered()], [ServerFill(|head|), ServerParse, Hijack, Send101];
  }

  /**
   Why the client must keep its reader: tunnel bytes sent right behind the 101 head can be in it when the
   handshake returns, so the raw connection alone would start with a hole.
   */
  lemma ReadAheadHappens(request: seq<seq<byte>>, data: seq<byte>)
    requires GoodRequest(request) && data != []
    ensures exists states: seq<State>, events :: IsRun(states, events) && states[0] == Initial(request)
              && states[|events|].client.Tunnel? && states[|events|].clientBuf == data == states[|events|].serverSent
  {
    var head := Head(SwitchLines());
    SwitchLinesWellFormed();
    HeadParses(SwitchLines(), data);
    var m := |head + data|;
    assert (head + data)[m..] == [] && [] + (head + data)[..m] == head + data;
    var states, events := Upgrades(request);
    var sent := Step(Answered(), ServerSend(data));
    Extend(states, events, ServerSend(data));
    var filled := Step(sent, ClientFill(m));
    Extend(states + [sent], events + [ServerSend(data)], ClientFill(m));
    Extend(states + [sent] + [filled], events + [ServerSend(data)] + [ClientFill(m)], ClientParse);
    assert Step(filled, ClientParse).clientBuf == data;
  }
}
