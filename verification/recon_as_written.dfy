/**
 * onRecon exactly as lib/index.js writes it. The drain callback at lines 127-130 calls
 * `self.buildPacket`, but onRecon never binds `self` (only addSocket, onOpen,
 * overrideSend and overrideOnData declare their own), so the first queued payload
 * makes the callback throw. By then the handover has already happened; the queued
 * payloads are never sequenced, buffered or sent.
 */
module ReconAsWritten {
  import opened Wrappers
  import opened Packets
  import opened Sessions
  import opened Server

  /** What a handler leaves behind, and whether it ended by throwing. */
  datatype Outcome = Outcome(state: State, threw: bool)

  /** onRecon as written: the handover, then a drain that throws as soon as the queue
      has an element, leaving the state as the handover made it. */
  function OnReconAsWritten(st: State, sock: SocketRef, sid: Id, last: Option<int>): (r: Result<Outcome, Error>)
    requires Valid(st) && Attached(st, sock)
    ensures r.Failure? <==> sid !in st.sessions
    ensures r.Success? ==>
      var s := st.sessions[sid];
      var q := st.pending[st.sockets[sock].tid];
      && (r.value.threw <==> |q| > 0)
      && r.value.state.sessions == st.sessions[sid := s.(socket := sock)]
      && r.value.state.pending == st.pending
      && s.socket in st.sockets
      && r.value.state.sockets == Rebound(st.sockets, s.socket, sock, sid)
      && r.value.state.trace == st.trace + [Neutralised(s.socket), Closed(s.socket)]
                                + MissedEvents(sock, MissedAfter(s.writeBuffer, last))
  {
    if sid !in st.sessions then Failure(UnknownSession)
    else
      ValidMeans(st, sock, sid);
      var h := Handover(st, sock, sid, last);
      var q := h.pending[h.sockets[sock].tid];
      Success(Outcome(h, |q| > 0))
  }

  /** The discrepancy for every input: when writes were queued on the new socket before
      the reconnect, the code as written throws, and those payloads get no id, are not
      buffered and are not sent, whereas the intended drain gives each of them the next
      id, appends it to the buffer and sends it. With an empty queue the two agree. */
  lemma QueuedWritesLostOnRecon(st: State, sock: SocketRef, sid: Id, last: Option<int>)
    requires Valid(st) && Attached(st, sock) && sid in st.sessions
    ensures
      var s := st.sessions[sid];
      var q := st.pending[st.sockets[sock].tid];
      var written := OnReconAsWritten(st, sock, sid, last).value;
      var intended := OnRecon(st, sock, sid, last).value;
      && (|q| > 0 ==>
            && written.threw
            && written.state.sessions[sid].writeBuffer == s.writeBuffer
            && written.state.sessions[sid].packetCount == s.packetCount
            && intended.sessions[sid].writeBuffer == s.writeBuffer + Numbered(s.packetCount, q)
            && intended.sessions[sid].packetCount == s.packetCount + |q|
            && |intended.trace| == |written.state.trace| + |q|)
      && (|q| == 0 ==> !written.threw && written.state == intended)
  {
    var s := st.sessions[sid];
    var q := st.pending[st.sockets[sock].tid];
    ValidMeans(st, sock, sid);
    var h := Handover(st, sock, sid, last);
    assert OnReconAsWritten(st, sock, sid, last).value.state == h;
    assert OnRecon(st, sock, sid, last).value == DrainPending(h, sock, sid);
    if |q| == 0 {
      assert Numbered(s.packetCount, q) == [];
      assert DrainPending(h, sock, sid).sessions == h.sessions;
      assert DrainPending(h, sock, sid).trace == h.trace;
    }
  }

  /** The state of the concrete run below just before the recon arrives. */
  function ExampleBeforeRecon(): (st: State)
    ensures Valid(st) && Attached(st, 1) && "s" in st.sessions
    ensures st.sockets[1].tid == "b" && st.pending["b"] == ["x"]
    ensures st.sessions["s"] == Session(0, 0, [])
  {
    var st0 := AddSocket(Init(), 0, "a");
    var st1 := OnOpen(st0, 0, "s");
    assert st1.sessions["s"] == Session(0, 0, []);
    var st2 := AddSocket(st1, 1, "b");
    Write(st2, 1, "x")
  }

  /** A concrete run: socket 0 opens session "s" with nothing queued; socket 1 is
      attached and its application writes "x" before the recon for "s" arrives. As
      written, the recon throws and "x" is lost; the intended drain sends it as (1,"x"). */
  lemma QueuedWriteLostExample()
    ensures
      var st := ExampleBeforeRecon();
      var written := OnReconAsWritten(st, 1, "s", Some(0));
      var intended := OnRecon(st, 1, "s", Some(0));
      && written.Success? && written.value.threw
      && written.value.state.sessions["s"].writeBuffer == []
      && intended.Success? && intended.value.sessions["s"].writeBuffer == [Entry(1, "x")]
  {
    var st := ExampleBeforeRecon();
    assert Numbered(0, ["x"]) == [Entry(1, "x")];
    QueuedWritesLostOnRecon(st, 1, "s", Some(0));
  }
}
