# Reliable socket server: the session and delivery state machine

This project models the per-session reliable-delivery engine of `ReliableServer`
(lib/index.js) and proves properties of the model in Dafny.

`ReliableServer` sits between an application and a socket transport. It has two kinds of state:

- `temp_sessions` maps a temporary id, given to each attached socket, to the writes the application made before a session existed.
- `sessions` maps a session id to a record `{socket, packetCount, writeBuffer}`. The write buffer holds every `[id, data]` entry sent but not yet acknowledged.

The server installs a write wrapper on every attached socket. It then handles four control packets:

- `open` creates a session, flushes the queued writes and announces the session id.
- `ack` removes one acknowledged entry from the buffer.
- `recon` moves a session to a new socket. It closes the old socket, resends what the client missed and drains the new socket's queue.
- `close` closes the socket.

The model is purely functional. `Server.State` holds:

- the pending queues;
- the sessions;
- a record per attached socket with its `_tid`, its `_sid`, whether its `send`/`write` were replaced by no-ops (`neutralised`), and whether it was closed;
- one global trace of events: a packet sent on a socket, a socket neutralised, a socket closed.

Each handler is a function from state to state, or to `Result<State, Error>` where the JavaScript throws. The global trace makes the ordering across sockets stateable, in particular during the reconnect handover.

Files:

- `wrappers.dfy`: `Option` and `Result`.
- `packets.dfy`: buffer entries, the decoded packets the server sends, and trace events.
- `sessions.dfy`: one session and its write buffer.
  - `buildPacket`, and the same run over a list of payloads.
  - The ack splice, with a reference filter and the source's loop.
  - The selection of entries replayed on reconnect.
  - The buffer invariant (ids strictly increasing, each in 1..packetCount).
- `server.dfy`: the server state and its invariant `Valid`, each handler, and `Step`, which dispatches one input and preserves `Valid`.
- `properties.dfy`: properties that relate several calls:
  - runs of writes;
  - open after queued writes;
  - the reconnect ordering and replay;
  - the algebra of acks.
- `recon_as_written.dfy`: `onRecon` exactly as written (see Findings).

Modelling choices:

- Ids from `base64id` are parameters. Their freshness is a precondition (`Enabled` in `Server.Step`).
- `parseInt` results are `Option<int>`, with `None` standing for NaN.
- Packets are already decoded values:
  - `Sid(id)`;
  - `Message(entries)`: a single write is a message of one entry, and onOpen's batch is a message of all migrated entries (the wire shapes differ; see Left out);
  - `Missed(entry)`.
- Where the intended design and the code differ, the model follows the code:
  - Ids start at 1 (`packetCount++` comes before use), not 0.
  - A pending queue is never deleted: onOpen and onRecon read it but leave it in place.
  - Reconnect replay sends one `missed` packet per entry, not one batch. The drain at the end of onRecon sends each queued payload as its own message, not one batch.
  - onMessage has an empty body, so there is no inbound de-duplication and no inbound ack.
  - An ack for a socket without a session, or a recon for an unknown session, throws (`this.sessions[...]` is undefined). It does not return a silent no-op. The model returns `Failure(UnknownSession)` and changes nothing, because the throw happens before any mutation.
- Two further behaviours of the code are reproduced as written:
  - A recon sent on the socket the session is already bound to neutralises that socket, so later writes on it are dropped (`Properties.ReconSilencesPrevious`). The code has no guard here, and no intended alternative is evident.
  - onOpen on a socket that already has a session is not guarded. The socket is rebound to the new session, while the old session's `socket` still points at it (`Server.OnOpen` changes only the new session and the socket's `_sid`). The intended design treats this as a protocol violation.
- The corrected drain has a consequence of its own, because the pending queue is never deleted (lib/index.js:66 reads it and leaves it in place). A socket that opened one session and then sends a recon for another has its already-migrated queue sequenced again into that other session, so the payloads would be sent twice under two sessions (`Properties.OpenThenReconRedrains`, about `Server.OnRecon`). As written this never happens. The queue is non-empty in exactly the case where it matters, and then the drain throws on its first payload (`ReconAsWritten.QueuedWritesLostOnRecon`), so nothing is sent a second time. The intended design discards the queue when the session is established, which would remove the double send as well.

## Model

| member | source | states |
|---|---|---|
| Server.Init | lib/index.js:20-24 | A new server has no pending queues, no sessions and no sockets, and it satisfies the invariant. |
| Server.AddSocket | lib/index.js:40-49 | Attaching a socket with a fresh temporary id gives it an empty pending queue and no session. No session and no traffic changes, and the invariant is kept. |
| Server.Write | lib/index.js:153-165 | The write wrapper has three cases. A neutralised socket changes nothing. When `!sid` holds (no session id, or the empty string), the payload is appended to that socket's pending queue and nothing is sent or sequenced. Otherwise the session gets entry (packetCount+1, data) at the end of its buffer, and exactly that entry is sent as one message on this socket. |
| Sessions.BuildPacket | lib/index.js:241-251 | The new entry has id packetCount+1 and the given data. The counter becomes that id. The buffer is the old buffer plus exactly this entry at the end. The buffer invariant is kept, and the new id exceeds every buffered id. |
| Sessions.BuildAll | lib/index.js:66-69 | Sequencing payloads d1..dn in order yields entries (c+1,d1)..(c+n,dn), appended in that order. The counter rises by n and the invariant is kept. |
| Properties.WritesBeforeSession | lib/index.js:155-159 | Any run of writes on a socket without a session appends the payloads, in order, to its pending queue. It sends nothing and leaves every session unchanged. |
| Properties.WritesOnSession | lib/index.js:161-163 | Any run of writes on a session's socket gives ids c+1, c+2, … in call order. The entries are appended after the untouched old buffer, each one is sent as its own message in the same order, and the pending queues and other sessions do not change. |
| Server.OnOpen | lib/index.js:52-73 | The new session is bound to the socket. The socket gets the session id. The session's counter is the queue length q and its buffer is [(1,w1)..(q,wq)] in queue order. The trace gains exactly `sid` and then one message with those entries. No other session changes. |
| Properties.OpenAfterQueuedWrites | lib/index.js:56-72 | Attaching a socket, writing w1..wn and then opening yields the buffer [(1,w1)..(n,wn)] with counter n. The only traffic is `sid` followed by one message carrying exactly those entries. |
| Server.OnAck | lib/index.js:80-100 | The ack fails exactly when the socket has no session. A NaN id changes nothing. An id k removes the entries with id k, which on a valid buffer is at most one entry; the buffer shrinks by at most one. The invariant holds, and nothing outside that buffer changes. |
| Sessions.Acknowledge | lib/index.js:90-97 | The result loses at most one entry. It equals the input when no entry has id k, and it contains only entries of the input. |
| Sessions.AcknowledgeScan | lib/index.js:90-97 | The loop of onAck computes exactly the splice of the first entry with id k. |
| Sessions.AcknowledgeIsWithoutId | lib/index.js:90-97 | On a buffer with strictly increasing ids, removing the first match equals filtering out every entry with id k. The remaining entries keep their relative order. |
| Sessions.AcknowledgePreservesWellFormed | lib/index.js:90-97 | An ack keeps the buffer invariant, and afterwards no entry has the acknowledged id. |
| Properties.WithoutIdIdempotent | lib/index.js:90-97 | Acknowledging the same id twice leaves the same buffer as acknowledging it once. |
| Properties.WithoutIdCommutes | lib/index.js:90-97 | Acknowledging j then k leaves the same buffer as acknowledging k then j. |
| Properties.AcksCommute | lib/index.js:80-100 | Two acks on one socket give the same server state in either order, and a repeated ack leaves the state as it was. |
| Sessions.MissedAfter | lib/index.js:117-122 | An entry is replayed exactly when it is in the buffer and its id exceeds a parsed `last`. A NaN `last` replays nothing. |
| Sessions.MissedIsSuffix | lib/index.js:117-122 | On an increasing buffer, the replayed entries are the buffer's suffix from the first id above `last`, in buffer order. |
| Server.Handover | lib/index.js:112-126 | The old socket is neutralised and closed. Then each buffered entry with id above `last` goes out as a `missed` packet on the new socket. Then the session and the new socket are bound to each other. The socket records are exactly the old ones, with the old socket flagged and the new socket given the session id (`Rebound`); nothing else about any socket changes. The buffer and the pending queues are untouched, and the invariant holds. |
| Server.DrainPending | lib/index.js:127-130 | The new socket's queued payloads get the next ids in queue order. They are appended to the buffer and each is sent as its own message, in that order. |
| Server.OnRecon | lib/index.js:102-131 | The recon fails exactly when the session is unknown. Otherwise, in this order: the old socket is neutralised and then closed; the missed entries are sent; the drained entries are sent. The session ends bound to the new socket with buffer = old buffer + drained entries. The socket records are exactly `Rebound`: only the old socket's flags and the new socket's session id change. The invariant holds and other sessions are unchanged. |
| Properties.ReconHandoverOrder | lib/index.js:112-126 | The trace after a reconnect extends the old one with "neutralise old socket" and then "close old socket". Every later event is a send on the new socket. |
| Properties.ReconSilencesPrevious | lib/index.js:112-126 | After a reconnect, the session and the new socket point at each other. A write on the old socket changes nothing. This includes a recon sent on the socket the session is already bound to, after which every write on that socket is dropped. |
| Properties.ReconThenWrite | lib/index.js:113-126 | When the new socket is not the old one and was not neutralised before, it stays usable after a reconnect. The next write on it gets the id after all drained entries, joins the buffer and is sent on it. |
| Properties.OpenThenReconRedrains | lib/index.js:66-69 | The pending queue outlives onOpen. Under the corrected drain, a socket that opened one session and then sends a recon for another session has the same queued payloads sequenced again, with the other session's next ids. As written, that recon throws instead. |
| Properties.ReconReplaysExactly | lib/index.js:117-122 | Right after the handover events, the trace holds one `missed` packet per replayed entry on the new socket, in buffer order. No `missed` packet follows them. |
| Properties.ReconKeepsBuffer | lib/index.js:110-130 | A reconnect removes nothing: the old buffer is a prefix of the new one. A NaN `last` replays nothing. A parsed `last` replays the buffer's suffix from the first id above it. |
| Server.OnClose | lib/index.js:75-78 | Closing marks the socket closed and records the close. Sessions, queues and the other sockets are unchanged. |
| Server.Step | lib/index.js:40-136 | Any enabled input keeps the invariant. Only an ack or a recon can fail. A successful step only extends the trace, keeps every session and never lowers a counter; onMessage changes nothing. |
| Server.ReconGrows | lib/index.js:102-131 | A recon on a known session succeeds, extends the trace and keeps every session and counter. |
| ReconAsWritten.OnReconAsWritten | lib/index.js:102-131 | With the code as written, the recon fails exactly when the session is unknown. Otherwise it throws exactly when the new socket's queue is non-empty, and it throws after the handover. The session is rebound with its buffer unchanged, the socket records are `Rebound`, and the trace gains only the handover and missed events. The pending queues and every other session are unchanged. |
| ReconAsWritten.QueuedWritesLostOnRecon | lib/index.js:127-128 | With a non-empty queue, the code as written throws and leaves the buffer and counter as they were. The intended drain appends all q payloads with the next ids and sends them. With an empty queue, the two give the same state. |
| ReconAsWritten.QueuedWriteLostExample | lib/index.js:127-128 | A concrete run: a session opened on one socket, a second socket that writes "x" and then reconnects to it. As written, the recon throws and the buffer stays empty. The intended drain buffers (1,"x"). |

## Left out

- `overrideOnData` (lib/index.js:179-229) is not modelled. It re-wraps the socket's data listeners and dispatches by `'on' + type`, which is plumbing around the event emitter. As written it cannot run. `newFN` is out of scope at its `return` (line 228), so every addSocket throws there, after lines 44-47 have taken effect. If `data` listeners were already attached, it throws earlier, at line 188, because the replacement-handler builder returns nothing and `addListener` is given `undefined`. So as written no packet handler is ever reached through a data event. `Server.AddSocket` returns the state as it stands when that throw happens. The packet inputs of `Server.Step` model the handlers as if dispatch worked.
- The packet codec (`encodePacket`/`decodePacket`), `JSON.stringify` and `querystring` parsing are not modelled. They are calls into other libraries; packets and recon fields are structured values here. The decoded packets flatten three different wire shapes. A single write sends one encoded `[id, data]` pair (line 249). onOpen's batch is a list of already-encoded message packets (lines 67-71); the model turns both into `Message(entries)`. A `missed` packet is the type prefix concatenated with the `[id, data]` array (line 120), which JavaScript renders as `"id,data"`; the model keeps it as `Missed(entry)`.
- `base64id` id generation is replaced by fresh ids passed as parameters.
- Closing the transport (`socket.close()`) is modelled as a `closed` flag plus a trace event. Actual transport effects are out of scope.
- `debug` logging is not modelled: it has no effect on state.
- Sessions.BuildPacket: `packetCount` is an unbounded natural. The JavaScript number loses integer precision above 2^53, which the model does not represent.
- Server.AddSocket: attaching the same socket twice is excluded by precondition. The model tracks one record per socket and does not cover a socket that is re-registered.
- Server.OnAck: states the result through the reference filter (`WithoutId`). The first-match splice itself is `Sessions.Acknowledge`, linked to it by `Sessions.AcknowledgeIsWithoutId` on valid buffers.
- Properties.ReconSilencesPrevious: only says that writes on the old socket are dropped. The socket's own `_send` proxy, which the code leaves in place, is not modelled.
- Server.Write: the wrapper's `callback` argument (lines 154, 163) is not modelled. On the queued path it is dropped and never fires, even after onOpen migrates the payload. The wrapper's return values (`this` at line 159, the proxy's result at line 163, `undefined` from the no-op at line 113) are not modelled either. `data` can be any JavaScript value; the model narrows it to a string.
- The implicit global `lastSeen` in onRecon is not modelled. The `var` list ends at line 109, so line 110 assigns a global, which in sloppy mode behaves like a local here.

## Findings

| source | as written | input that shows it | evidently intended | confidence | as-written member | corrected member |
|---|---|---|---|---|---|---|
| lib/index.js:127-128 | The drain callback in onRecon calls `self.buildPacket`, but onRecon never declares `self` (only addSocket, onOpen and the overrides bind it), so the callback throws on its first queued payload, after the old socket was closed and the session rebound. | A socket that wrote one payload before its `recon` packet was handled, so its pending queue is non-empty: the payload is never sequenced, buffered or sent. | Bind `self = this` as onOpen does, so that each queued payload gets the next id, is appended to the buffer and is sent on the new socket. | high, not executed | ReconAsWritten.QueuedWritesLostOnRecon | Server.OnRecon |
