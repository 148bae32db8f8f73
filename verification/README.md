# A verified model of TunnelR's tunnel core

TunnelR (`httpmux`) is a reverse tunnel: a client behind a firewall keeps a few long-lived connections to a
server, disguised as WebSocket upgrades; each carries length-framed, padded and encrypted packets, and over those
a stream multiplexer. This project models the stateful core in Dafny and proves what that core is meant to
guarantee. `dafny verify dfyconfig.toml` checks everything.

## How the model is built

Code that changes objects in place is modelled by classes with the same fields and methods with the same
branches; goroutines that interleave are modelled as transition systems whose steps are the code's atomic actions,
and the main theorems quantify over every run. A method and the machine it takes part in share one specification
function (for example `SessionPool.KeepOpen` for the cleanup tick).

| File | What it holds |
|---|---|
| `bytes.dfy` | bytes, the optional value, big-endian fields |
| `record_format.dfy` | the packet format: writer and reader functions, and when they are inverse |
| `record_link.dfy` | one direction of a connection with arbitrary chunking and blocking reads, as a transition system |
| `transport.dfy` | socket, `FragmentedConn`, `bufferedConn` over its `bufio.Reader` |
| `record_layer.dfy` | `EncryptedConn` on arrays with the shared buffer pool |
| `buffer_ownership.dfy` | any number of connections on one pool, step by step, as a transition system that refines `record_link.dfy` |
| `client_start.dfy` | the record layer on the connection that the handshake returns |
| `handshake.dfy` | the HTTP head scanner, `ClientHandshake`, and both parties of the upgrade as a transition system |
| `session_pool.dfy`, `client_pool.dfy` | the client's session list as a value; workers, standby channel, cleanup, death and cancellation as a transition system |
| `smux.dfy`, `round_robin.dfy`, `client_sessions.dfy` | sessions, the round-robin counter, and `Client.sessions` as a slice over a backing array |
| `frame_level.dfy` | the compare-and-swap loop of `adjustFrameLevel` with any number of callers |
| `failover.dfy` | `poolWorker`'s path and failure counter, `bestPath` |
| `server_registry.dfy`, `server_sessions.dfy` | the server's two maps and the counter: as a transition system with pending counter updates, and as a class |
| `relay.dfy` | any number of `relay` calls with their copy steps and what the connections under them do |
| `targets.dfy` | configured maps, `SplitMap`, the target header, `splitTarget` |
| `mimic_path.dfy` | the disguise path on both sides |
| `dns_cache.dfy` | the DNS cache and its query handler |
| `config.dfy` | the four normalisation passes |

## What the proofs found

Where the code and its comments disagree, the model follows the code.

- `removePadding` slices with a `uint16` upper bound that wraps. Padded data comes back exactly when it is at most
  65533 bytes; 65534 and 65535 bytes crash the reader, longer data is cut modulo 65536.
- `Write` panics exactly when header, nonce, tag and payload exceed one 131072-byte buffer. `Read` panics on
  header lengths above 131072 and up to the 2 MiB sanity limit, which the limit's comment does not suggest.
- An empty write without PSK and padding emits a packet that the peer refuses.
- "The first large write" is split only when it is the very first write: a short first write switches splitting off.
- "All paths tried": with unchanged latencies a worker only ever visits the best path and its successor, so it
  cycles through all of them exactly when there are at most two. With a single path `failCount` grows without bound.
- The standby manager keeps "one" warm session; two can exist, one in the channel and one held by the blocked sender.
- Round-robin indexes with `int(counter) % n`; from 2^63 on this can panic, exactly for pools of two or more sessions.
- One draw of another caller in the middle of an `OpenStream` call makes that call miss the session at the index
  drawn; it can answer "all sessions exhausted" while that session accepts. A call is sure to probe the whole pool
  exactly when no other caller draws meanwhile or there is only one session.
- The end of one relay direction does not by itself end the other: a loop in a write to a connection that is open
  and does not accept stays there, `relay` does not return and `ActiveConns` stays raised until the write goes
  through or fails. In every other case the loop ends within four steps.
- `ActiveSessions` can be negative for a moment; it is exact whenever no `setSession` call is in flight.
- A map's target reaches the peer exactly when it has at most 4090 bytes (and neither part is empty or contains "->").
- Normalisation is stable exactly when the HTTP-mimic path is not a non-empty string of white space. Such a path
  becomes empty, and then no request of the client is taken for the tunnel.
- A plain fake path works on client and server exactly when it is clean, starts with "/", has more than "/" before
  its first "{", and has no "{" or its first one right behind a "/". For instance "/s{rand}" is routed to the decoy
  page and "/{rand}" makes the server panic at start.

## Model

| member | source | states |
|---|---|---|
| RecordFormat.RemovePaddingOfPadded | encrypted_conn.go:238-283 | what `removePadding` returns on any output of `addPaddingBuf`: the data modulo 65536, or a crash for the two wrapping lengths |
| RecordFormat.PaddingRoundTrip | encrypted_conn.go:238-283 | the padding round trip holds if and only if the data has at most 65533 bytes |
| RecordFormat.ReadBackPacket | encrypted_conn.go:119-136 | every packet that fits a buffer passes the reader's length and slice checks and gives back its body, except the empty body |
| RecordFormat.OpenBodyOfBody | encrypted_conn.go:100-117 | opening a sealed (or bare) body gives what removing the padding of its payload gives |
| RecordFormat.FrameRoundTrip | encrypted_conn.go:81-217 | reading the frame of a write that does not panic gives its data and leaves what follows, if and only if the data is readable |
| RecordFormat.ReadPacketStable | encrypted_conn.go:158-217 | bytes that arrive later never change a packet already decided |
| RecordFormat.UndeliveredAppend | encrypted_conn.go:148-217 | a packet behind a clean stream adds its data behind the data already owed |
| RecordFormat.UndeliveredWrite | encrypted_conn.go:81-217 | the same for the frame of any in-bound write |
| RecordLink.StepPreserves | encrypted_conn.go:81-217 | every write, arrival, transport read, start and end of a Read keeps "returned + leftover + in flight = written" |
| RecordLink.RunInv | encrypted_conn.go:81-217 | the invariant holds in every state of every run |
| RecordLink.LosslessFifo | encrypted_conn.go:81-217 | for all write sizes, read sizes (0 included) and transport cuts no read fails and the bytes returned are a prefix of the bytes written |
| RecordLink.DrainingWorks | encrypted_conn.go:148-217 | every step but a write or an empty read brings a measure of outstanding work down |
| RecordLink.StuckMeansDelivered | encrypted_conn.go:148-217 | when nothing more can happen, everything written has been returned |
| RecordLink.DrainsCompletely | encrypted_conn.go:148-217 | after the last write a bounded number of arrivals and non-empty reads delivers everything |
| Transport.FragmentedConn.Write | tls_fragment.go:63-98 | exactly the reported bytes reach the transport, also on failure, in one piece or in the two pieces of a split first write |
| Transport.FragmentationTransparent | tls_fragment.go:63-98 | over any calls the stream is the concatenation of the inputs; only the first call can be split, into two non-empty pieces |
| Transport.AfterFirstWrite | tls_fragment.go:67-71 | after the first call, short or long, every call is one piece |
| Transport.ChooseFragmentSize | tls_fragment.go:115-138 | the fragment size is positive and within the configured range |
| Transport.BufferedConn.Read | mimic.go:36-43 | a read through the buffered reader returns the next bytes of read-ahead plus socket and changes nothing else in the caller's slice |
| Transport.BufferedConn.ReadFull | encrypted_conn.go:158-175 | `io.ReadFull`: the exact next bytes whatever the cuts, or a failure because the stream is broken or too short |
| RecordLayer.BufferPool.Get | encrypted_conn.go:49-54 | the buffer handed out leaves the pool, is no buffer held elsewhere, and is 131072 bytes long |
| RecordLayer.BufferPool.Put | encrypted_conn.go:49-54 | only the given buffer comes back |
| RecordLayer.AddPaddingBuf | encrypted_conn.go:238-272 | the result is length field, data and a padding within the configured range, in the pooled buffer or in a new array |
| RecordLayer.EncryptedConn.SealPacket | encrypted_conn.go:101-119 | the pooled buffer holds exactly the sealed packet when it fits |
| RecordLayer.EncryptedConn.BuildPacket | encrypted_conn.go:100-133 | the pooled buffer holds exactly the packet, sealed or bare, when it fits; its exact length |
| RecordLayer.EncryptedConn.Transmit | encrypted_conn.go:107-136 | the packet goes out whole in one write, or panics exactly when it does not fit |
| RecordLayer.EncryptedConn.Write | encrypted_conn.go:81-144 | a successful write appends exactly the bytes of one frame, spelled out with and without padding and encryption; panics exactly for payloads above 131040 or 131068 bytes, writing nothing; no buffer in use is in the pool |
| RecordLayer.EncryptedConn.WriteFrame | encrypted_conn.go:81-136 | the same in terms of the packet format |
| RecordLayer.EncryptedConn.Unpad | encrypted_conn.go:274-283 | the slice bounds into the buffer give what the format's `RemovePadding` gives |
| RecordLayer.EncryptedConn.Deliver | encrypted_conn.go:201-216 | what fits the caller's slice plus the leftover is the packet's data; the leftover is a fresh array |
| RecordLayer.EncryptedConn.Receive | encrypted_conn.go:177-216 | decrypting into a second buffer gives the format's `OpenBody`, for every outcome |
| RecordLayer.EncryptedConn.ReadBody | encrypted_conn.go:167-216 | panics exactly above one buffer; else the body is read, opened and delivered |
| RecordLayer.EncryptedConn.ReadNextPacket | encrypted_conn.go:158-216 | the outcome is the format's `ReadPacket` on the incoming stream |
| RecordLayer.EncryptedConn.Read | encrypted_conn.go:148-217 | returns as much of the leftover, else of the next packet, as the slice takes, and keeps the rest; on a clean stream never panics and fails only when the transport does or nothing is owed; a non-empty Read returns nothing only for an empty packet |
| RecordLayer.EncryptedConn.ReadOnce | encrypted_conn.go:152-216 | the leftover, or if there is none the next packet, for every outcome |
| RecordLayer.ReadBeside | encrypted_conn.go:209-215 | a whole Read changes nothing that any other connection on the pool still has to deliver, nor any buffer held by a call blocked elsewhere; interleaved steps are in `BufferOwnership` |
| RecordLayer.WriteBeside | encrypted_conn.go:85-136 | nor does a whole Write, which also leaves its data and its own leftover alone |
| RecordLayer.WriteAcross | encrypted_conn.go:81-217 | a successful write whose bytes are carried over adds exactly its data to what the peer's Read owes |
| RecordFormat.StreamCarries | encrypted_conn.go:81-217 | the frames of any in-bound writes carry exactly their data, in order |
| RecordFormat.FrameOnWire | encrypted_conn.go:91-133 | a frame byte by byte: big-endian length, nonce and sealed payload or the bare payload, and the padding format exactly when padding is enabled |
| RecordFormat.FitsExactly | encrypted_conn.go:112-133 | a payload fits a buffer up to 131040 bytes with encryption, 131068 without |
| RecordFormat.OnWireReadsBack | encrypted_conn.go:148-217 | such bytes give back the data and what follows, if and only if the data is at most 65533 bytes (padding) or the packet is not empty |
| RecordFormat.HeaderDecides | encrypted_conn.go:158-175 | what the four length bytes decide: 0 and above 2 MiB refused, above 131072 a panic, else the body is read |
| Bytes.U32Digits | encrypted_conn.go:119 | the length field is big-endian |
| BufferOwnership.BuildRefines | encrypted_conn.go:100-133 | building the packet in the second buffer out of the first is RecordLink's write |
| BufferOwnership.PullBodyRefines | encrypted_conn.go:169-175 | a partial `io.ReadFull` into the pooled buffer is RecordLink's pull |
| BufferOwnership.FinishRefines | encrypted_conn.go:201-216 | delivering out of the pooled buffers is RecordLink's end of a Read |
| BufferOwnership.NeverFails | encrypted_conn.go:158-207 | on in-bound writes no check of Read ever fails |
| BufferOwnership.StepRefines | encrypted_conn.go:81-217 | every step of a link, whatever a buffer from the pool holds, is invisible without buffers or one RecordLink step |
| BufferOwnership.OwnershipAfter | encrypted_conn.go:49-54 | Get, Put and filling keep every buffer in the pool, with one holder, or dropped |
| BufferOwnership.StepIsLocal | encrypted_conn.go:49-54 | a step changes the acting link by its own buffers and no other link's buffers |
| BufferOwnership.StepPreserves | encrypted_conn.go:81-217 | every step of any call of any connection keeps ownership and every link's invariant |
| BufferOwnership.RunInv | encrypted_conn.go:81-217 | they hold in every state of every run |
| BufferOwnership.BuffersExclusive | encrypted_conn.go:85-136 | in every interleaving no held buffer is in the pool and none has two holders, within a call or between calls |
| BufferOwnership.OnlyHolderWrites | encrypted_conn.go:167-193 | a buffer's contents change only by a step of a call that holds it |
| BufferOwnership.StepSimulates | encrypted_conn.go:81-217 | each step is at most one RecordLink step for its link and none for any other |
| BufferOwnership.EveryLinkLossless | encrypted_conn.go:81-217 | with calls blocked anywhere, for each direction returned + leftover + carried in flight = written, and no Read fails |
| BufferOwnership.ReadyAct | encrypted_conn.go:148-217 | a reader that does not wait for bytes has a step |
| BufferOwnership.StuckMeansDelivered | encrypted_conn.go:81-217 | in every run a direction with a silent writer and no step left has returned everything written, whatever other connections do |
| ClientStart.Connect | client.go:369-376 | on the server's answer the record layer starts, unless the transport breaks, and owes exactly the data of the packets behind the head, read ahead or not |
| Handshake.ScanStable | mimic.go:135-138 | later bytes never move the end of a head that was found |
| Handshake.HeadEndOfHead | mimic.go:135-138 | the scanner ends exactly behind the head, for every well-formed head and whatever follows |
| Handshake.HeadEndOfPrefix | mimic.go:135-138 | a reader that has seen only part of the stream finds that end or none |
| Handshake.HeadEndExactly | mimic.go:135-138 | in any bytes whatever a head ends behind its first blank line |
| Handshake.ReadHead | mimic.go:132-142 | the response reader takes exactly the head and leaves the rest |
| Handshake.ClientHandshake | mimic.go:122-159 | the connection returned yields exactly the bytes behind the 101 head, buffered already or not; the server's own answer is taken unless the transport breaks |
| Handshake.StatusDecides | mimic.go:152-156 | for a status line with a three-digit code the head counts as 101 exactly for the digits 1, 0, 1, so a decoy's 404 does not |
| Handshake.AnswerIsTaken | server.go:208-212 | the server's answer has status 101, whatever follows it |
| Handshake.AnswerText | server.go:208-212 | the answer line by line |
| Handshake.SwitchLinesWellFormed | server.go:208-212 | the server's literal response is a well-formed head |
| Handshake.StepPreserves | server.go:182-224 | every step of either party keeps the handshake invariant |
| Handshake.RunInv | server.go:182-224 | the invariant holds in every state of every run |
| Handshake.HandshakeLossless | mimic.go:130-159 | in every interleaving the server's reader is empty before and when Hijack drops it, no tunnel byte precedes the upgrade, and both tunnel streams arrive in order from their first byte |
| Handshake.ReadAheadHappens | mimic.go:19-28 | there is a run in which all the server's data sits in the client's reader when the handshake returns |
| SessionPool.RemoveKeeps | client.go:300-309 | removing a session leaves exactly the others, still distinct |
| SessionPool.KeepOpenKeeps | client.go:735-748 | the cleanup filter keeps exactly the entries found open |
| ClientPool.StepPreserves | client.go:178-227 | every step of any goroutine keeps single ownership and the served list |
| ClientPool.RunInv | client.go:178-227 | the invariant holds in every state of every run |
| ClientPool.PoolSafety | client.go:293-309 | no duplicates, one serving worker per listed session, no open served session dropped, never more entries than workers |
| ClientPool.CleanupRemoves | client.go:735-748 | a tick takes away all entries of sessions it found closed, and no others |
| ClientPool.StandbyIsOpen | client.go:199-202 | a standby session is listed only if it was found open |
| ClientPool.OpenSessionsBound | client.go:507-544 | no session leaks: at most two open ones exist beyond the workers' own |
| ClientPool.TwoWarmSessions | client.go:528-536 | two warm sessions can exist |
| ClientSessions.RemoveAt | client.go:302-307 | cutting out the first match by index is the list function `Remove` |
| ClientSessions.CompactOne | client.go:739-746 | one turn of the in-place compaction extends the filtered part and leaves the unread part alone |
| ClientSessions.SessionList.AddSession | client.go:293-297 | appends, in place or into a larger array; keeps every snapshot |
| ClientSessions.SessionList.RemoveSession | client.go:300-309 | the list becomes `Remove` of the old one; keeps every snapshot |
| ClientSessions.SessionList.CleanupTick | client.go:735-748 | compaction over the same backing array equals the order-preserving filter of open sessions; keeps every snapshot |
| ClientSessions.SessionList.PickExpired | client.go:757-771 | the oldest open session above the age limit, or none if there is none |
| ClientSessions.SessionList.RecycleTick | client.go:753-780 | closes at most that one session |
| ClientSessions.SessionList.Snapshot | client.go:693-696 | a fresh array with the list's elements |
| ClientSessions.SessionList.ApplyUpdates | client.go:735-748 | any adds, removals and cleanup ticks in between keep every snapshot |
| ClientSessions.SessionList.ProbeOnce | client.go:704-717 | one turn: foreign draws, session changes, own draw; the stream opens exactly when the session drawn can serve then |
| ClientSessions.SessionList.Probe | client.go:702-719 | with any draws of other callers and any deaths or refusals between probes, tries its own slots in order and stops at the first that opens a stream |
| ClientSessions.SessionList.OpenStream | client.go:692-720 | whatever others do to list, counter and sessions meanwhile, the outcome is that of probing the list as copied, each session as it is at its probe |
| ClientSessions.OpensExactly | client.go:702-719 | below 2^63 a call succeeds if and only if one of its own probes falls on a session that can serve at that moment |
| ClientSessions.AloneFindsAny | client.go:702-719 | without draws of other callers: if and only if some session can serve when its turn comes |
| ClientSessions.OneDrawExhausts | client.go:702-719 | one foreign draw amid the call makes it fail when all sessions but the one at the index drawn refuse |
| ClientSessions.MissAccepting | client.go:719 | such a call returns "all sessions exhausted" while that session accepts all the time |
| ClientSessions.OpenMany | client.go:692-720 | over m calls on n distinct healthy sessions each serves between m/n and m/n rounded up of the streams |
| RoundRobin.CycleIndex | client.go:704 | within a cycle the index walks up and wraps once |
| RoundRobin.CoversOnce | client.go:702-719 | n uninterrupted probes hit every index exactly once |
| RoundRobin.Balanced | client.go:702-719 | of m counter values in a row each of n indices gets floor(m/n) or ceil(m/n) |
| RoundRobin.CounterPanics | client.go:704-705 | some counter value panics if and only if the pool has at least two sessions |
| RoundRobin.PanicsExactly | client.go:704-705 | which values panic: from 2^63 on, unless the distance to 2^64 is a multiple of the pool size |
| RoundRobin.IndexInRange | client.go:704 | below 2^63 the index is the counter modulo the pool size |
| RoundRobin.OneDrawMisses | client.go:702-719 | one foreign draw behind any own probe but the last makes all own probes miss the index drawn |
| RoundRobin.CoversPoolIff | client.go:702-719 | however g foreign draws fall, a call reaches all n sessions, if and only if g = 0 or n = 1 |
| FrameLevel.FinishComplete | client.go:436-443 | a call that takes effect enters the order once, behind all that had ended |
| FrameLevel.RunInv | client.go:426-445 | the invariants hold in every state of every run |
| FrameLevel.Linearizable | client.go:426-445 | in an order of the completed calls that respects real time each call moves the level by its delta, cut off at 0 and 4, from the first level to the current one |
| FrameLevel.FoldAdjusts | client.go:429-435 | each call of the order adjusts what the calls before it have left |
| FrameLevel.SwapMoves | client.go:439 | a successful swap moves the level towards the sign of its delta, by at most as much |
| FrameLevel.SwapFailsOnlyOnProgress | client.go:439 | a swap fails only if another succeeded since the load; every table lookup is in range |
| FrameLevel.AloneSucceeds | client.go:427-443 | without interference a call ends at v + delta when that is 0 to 4, at 0 below, at 4 above, by one swap or none |
| Failover.BestPath | client.go:598-612 | the first of the lowest measured latencies, or path 0 |
| Failover.BestUnique | client.go:598-612 | that specification determines the result |
| Failover.PoolWorker.Work | client.go:182-289 | the worker's loop over any outcomes is a run of the failover machine, with `bestPath`'s answers where it is asked |
| Failover.PoolWorker.AfterFailure | client.go:237-273 | a failed attempt steps the failover machine |
| Failover.LoopHead | client.go:178-290 | at every loop head the path is valid and `failCount` is the failure streak modulo three |
| Failover.SwitchesExactly | client.go:248-257 | the path changes exactly at every third short failure in a row, always to a different one |
| Failover.SinglePathCountsOn | client.go:249 | with one path the count is the whole streak |
| Failover.OnlyTwoPaths | client.go:252-256 | with fixed latencies only the best path and its successor are visited |
| Failover.CyclesThroughAllIff | client.go:248-262 | all paths can be visited then if and only if there are at most two |
| Failover.OneAdjustment | client.go:241-246 | an attempt lowers the level by one within 30 s, else raises it by one after a session of more than 2 min, else leaves it |
| ServerRegistry.RegisterUncounts | server.go:307-312 | replacing a session makes exactly the replaced one owe an un-count |
| ServerRegistry.StepPreserves | server.go:307-328 | every atomic step of any handler keeps the ledger of counts |
| ServerRegistry.RunInv | server.go:307-391 | the ledger holds in every state of every run |
| ServerRegistry.CounterConserved | server.go:307-391 | same keys in both maps; counter plus pending deltas is the number of registered sessions |
| ServerRegistry.CountedOnce | server.go:241-252 | each session is counted and un-counted at most once, and never un-counted while registered |
| ServerRegistry.OnlyOwnGoes | server.go:320-328 | a registration goes only by its own session's clear, a replacement, or a cleanup that found it closed or a zombie |
| ServerRegistry.ReplacingRunsOn | server.go:313-317 | a replacing call adds one, takes one and closes the old session |
| ServerRegistry.QuietCounterExact | server.go:313-316 | with no call in flight the counter is exact |
| ServerRegistry.CounterCanBeNegative | server.go:312-316 | a run in which it is -1 |
| ServerSessions.SweptStep | server.go:366-390 | one key of the tick, in any order: removed if doomed, else untouched |
| ServerSessions.SessionMap.SetSession | server.go:307-318 | the new session is registered, a replaced one closed, counter and size move together |
| ServerSessions.SessionMap.ClearSession | server.go:320-328 | only the same session is removed, never a newer one under its key |
| ServerSessions.SessionMap.CleanupTick | server.go:365-391 | removes exactly the closed sessions and those without streams and older than 180 s, and lowers the counter by as many |
| ServerSessions.SessionMap.OpenStream | server.go:330-354 | in every map order the stream comes from an open session with at most 200 streams; on failure each was closed, overloaded, or tried and then closed |
| Relay.StepKeepsRelays | server.go:717-736 | every step of any relay keeps every relay's direction invariants |
| Relay.OtherKeepsBalance | server.go:705-711 | every step of a running relay keeps the global counters balanced |
| Relay.RunInv | server.go:705-736 | both hold in every state of every run |
| Relay.RelaysCorrect | server.go:705-736 | written is a prefix of read, at most one buffer behind; a returned relay has closed both sides; byte counters and `ActiveConns` are exact |
| Relay.CanGoOn | server.go:723-735 | a loop whose source is closed has a step if and only if it has not finished and is not blocked in a write |
| Relay.EndsWithin | server.go:723-735 | in every run such a loop takes at most its remaining steps, whatever else happens |
| Relay.EndPropagates | server.go:723-735 | once one side is closed the other direction takes at most four steps, and has none left exactly when it has closed its destination or is blocked |
| Relay.BlockedHolds | server.go:727-735 | a blocked loop stays blocked and its relay running until the destination accepts or fails |
| Relay.RelayCanHang | server.go:717-736 | such a relay can arise |
| Relay.FullWriteDelivers | server.go:727 | a write that the destination accepts delivers everything read so far |
| Targets.TrimSpaceTrims | utils.go:14-15 | trimming leaves no white space at the ends and is idempotent |
| Targets.SpaceCharForms | utils.go:14-15 | the byte patterns looked for are the UTF-8 forms of the Unicode White_Space code points |
| Targets.TrimmedExactly | utils.go:14-15 | trimmed means: no white-space character at either end |
| Targets.TrimSpaceOf | utils.go:14-15 | trimming removes the white space around a text and nothing else |
| Targets.TrimSpaceExactly | utils.go:14-15 | the result is the one trimmed part of the text with only white space around it |
| Targets.SplitJoined | utils.go:10-13 | splitting "a->b" gives a and b if and only if neither contains the arrow |
| Targets.AppendEntries | config.go:377-388 | the loop builds the two specified lists |
| Targets.MapDaggerToLegacy | config.go:375-390 | maps are used only when both forward lists are empty |
| Targets.ForwardsExactly | config.go:377-388 | a list holds exactly the entries of the maps that want its network |
| Targets.SplitMapOfEntry | utils.go:9-24 | what `SplitMap` makes of a generated entry, accepted or not |
| Targets.HasArrowExactly | utils.go:10 | what counts as an arrow |
| Targets.SplitMapSpaced | utils.go:9-24 | `SplitMap` of "bind -> target" with any white space around both parts: the parts themselves, "0.0.0.0:" in front of a bind without a colon |
| Targets.KindDecides | config.go:379-387 | which lists a map goes to, for its type in any case and with any white space around |
| Targets.SendTarget | server.go:687-696 | a successful send wrote exactly two big-endian length bytes and the target |
| Targets.ReadTarget | client.go:658-669 | however the stream is cut, the target is read and the stream stands behind it, or the read fails for a stated reason |
| Targets.ParseTargetExactly | client.go:658-669 | what the two length bytes decide: 0 and above 4096 are refused |
| Targets.TargetRoundTrip | server.go:687-696 | the header round trip holds if and only if the target has 1 to 4096 bytes |
| Targets.SchemesParse | server.go:680-685 | `splitTarget` gives back network and address for "tcp://" and "udp://", and takes anything else for tcp |
| Targets.TargetReceived | client.go:658-674 | network and target arrive, and the stream stands at the payload, if and only if the target has at most 4090 bytes |
| Targets.MapRoundTrip | config.go:375-390 | a configured map reaches the peer's dialer unchanged if and only if it is deliverable |
| Targets.SpacedMapRoundTrip | config.go:375-390 | the same for bind and target with any white space around them |
| MimicPath.ReplaceKeepsPrefix | mimic.go:170-173 | replacing "{rand}" keeps the text before the first brace |
| MimicPath.ReplaceOne | mimic.go:170-173 | replacing goes from front to back and replaces each "{rand}" |
| MimicPath.NoRandLeft | mimic.go:170-173 | none is left or newly formed |
| MimicPath.PathBehindHost | mimic.go:90-94 | without "{rand}" the client asks for what stands from the first slash on |
| MimicPath.CleanExactly | server.go:98-108 | clean means: no segment is "." or "..", and none but the last is empty |
| MimicPath.CleanReplaced | mimic.go:170-173 | replacing "{rand}" by any token neither makes a path clean nor unclean |
| MimicPath.PrefixServes | server.go:599-606 | for a path with a leading slash the client's path has the prefix that `validate` checks |
| MimicPath.NoSlashNoPrefix | server.go:599-606 | without the slash `validate` refuses every request |
| MimicPath.SlashPathRouted | server.go:98-108 | when the router hands such a request to the tunnel handler |
| MimicPath.ClientMeetsServer | server.go:98-108 | a client and a server with the same plain path meet, for every token, if and only if the path satisfies `Meets` |
| MimicPath.RandAmidSegment | server.go:98-108 | with "{rand}" in the middle of a segment they do not |
| MimicPath.RandAtRoot | server.go:103-107 | with "{rand}" right behind the leading slash the server panics at start |
| DnsCache.LookupIsLatest | dns.go:160-190 | with a monotone clock a lookup is the latest answer for the key if at most 60 s old |
| DnsCache.CleanupInvisible | dns.go:180-190 | erasing all cleanups from a run changes no lookup |
| DnsCache.CleanupVisibleIfClockGoesBack | dns.go:180-190 | only that the clock hypothesis is needed: a clock going back, which Go's monotonic readings exclude, makes a cleanup visible |
| DnsCache.HitsNeverPanic | dns.go:92-94 | if all stored answers have at least two bytes, no hit panics |
| DnsCache.DnsProxyCache.Get | dns.go:160-168 | the lookup, handing out the stored buffer itself |
| DnsCache.DnsProxyCache.CleanupTick | dns.go:181-190 | deleting while iterating, in any order, removes exactly the expired entries |
| DnsCache.DnsProxyCache.HandleQuery | dns.go:82-138 | a hit is the stored answer under the asker's transaction ID and changes no stored buffer; a miss stores and forwards the upstream answer; only packets shorter than an ID panic |
| Config.Config.ApplyBaseDefaults | config.go:133-221 | the in-place pass computes `BaseDefaults` |
| Config.Config.ApplyProfile | config.go:223-337 | the in-place pass, with its loop over the path array, computes `WithProfile` |
| Config.Config.UpdatePaths | config.go:260-271 | the loop rewrites every path element by the profile's rule |
| Config.Config.SyncAliases | config.go:339-373 | the in-place pass computes `Synced` |
| Config.Config.Normalise | config.go:418-421 | the four passes in order compute `Normalised`, on the same path array |
| Config.NormalizePathExactly | config.go:122-131 | white space around a path goes and a missing slash is put in front |
| Config.TruncateExactly | config.go:371 | the conversion to int drops the fraction, towards zero |
| Config.OverTlsExactly | config.go:217-220 | which transports fragment by default, in any case |
| Config.AggressiveMeans | config.go:225-272 | bounds every setting has under "aggressive" |
| Config.StableMeans | config.go:274-303 | bounds under "stable" |
| Config.LatencyMeans | config.go:305-325 | bounds under "latency" |
| Config.GivenIsKept | config.go:327-336 | every other profile keeps each setting that was given |
| Config.MimicPathStable | config.go:167-170 | the default path is filled in differently the second time exactly for a blank path |
| Config.NormalisedTwice | config.go:133-390 | running all passes twice equals running them once if and only if the HTTP-mimic path is not blank |
| Config.NormalisedServes | config.go:349-370 | the effective padding bounds are positive whatever the user gave and meet what the record layer's constructor demands |
| Config.MimicPathServes | config.go:339-346 | a derived mimic path starts with "/" and is missing exactly for a blank HTTP-mimic path |
| Config.TunnelReachable | config.go:339-346 | the tunnel is reached if and only if the effective path, when plain, satisfies `Meets`; with no path given it is, with a blank one never |

## Left out

- Cryptography: AES-GCM is an abstract pair with `open(seal(x)) = x` and 16 bytes of overhead; key derivation and
  the quality of random bytes are not modelled, and random sources do not fail.
- Snappy, smux, uTLS, yaml and net/http internals: smux sessions are objects or identifiers that are open or closed,
  count streams and may refuse; the HTTP side is a head scanner (section 2.1 of RFC 9112) that takes nothing beyond
  the blank line.
- Responses with status 200, which the client also accepts: what net/http drains of their body is not visible.
- Failed handshakes in `connectAndServe` and `dialSession`, which close a nil connection: dialing and its errors are one failing step.
- Deadlines, jitter, delays, dialing, TCP options and real time: time is a parameter, outcomes are nondeterministic.
- Record-layer behaviour after an error in the middle of a packet, and the sessions left in the standby channel at shutdown.
- `startReverseUDP`'s peer table: it relays raw datagrams without framing, so no stream property holds of it.
- `io.CopyBuffer`'s ReaderFrom and WriterTo shortcuts: every relay copies through its buffer.
- The server's unwrapped connection is the buffered one with a buffer of length 0, and its writes are never split.
- Locks inside one connection: at most one Write and one Read of a connection run at a time, as its mutexes ensure.
  Calls of different connections interleave in `BufferOwnership`, whose writes are in bounds and whose transport does
  not fail; the classes in `record_layer.dfy` show each call without interruption.
- A relay's write is one step, taken when the destination accepts it; how much of a blocked write is already through is not modelled.
- `OpenStream` takes what other goroutines do meanwhile (list updates, counter draws, sessions dying or refusing) as
  arguments; each of its probes is one step, and other callers' streams on the same sessions are not counted.
- Status lines other than one version, one space and the code, and malformed header fields, which net/http may refuse.
- `validate`'s method, host and header checks, and paths with a query, fragment or escapes: only plain paths are modelled.
- The HTTP router is modelled by its documented rules for plain patterns: a pattern matches itself or, if it ends in
  "/", everything below it; unclean paths are redirected; registering a pattern twice panics.
- `strings.ToLower` is exact on ASCII only; no other letter becomes one of the compared words.
- Rounding of `BurstChance * 1000`: the product is taken over the reals, then truncated.
- Configuration fields that no pass reads or writes, file reading and `Validate`.
- Dashboard, log streaming, statistics formatting, setup scripts and `main.go`.
- ServerSessions.SessionMap.SetSession: runs without interruption; the interleaved form is `ServerRegistry`.
- Targets.ReadTarget: may also fail when the connection breaks, whatever the stream holds.
