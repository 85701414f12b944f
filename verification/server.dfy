/**
 * The per-server state of ReliableServer and its transitions: attaching a socket,
 * the intercepted send/write, and the `open`, `ack`, `recon`, `message` and `close`
 * handlers. Every transition is a pure function from the old state to the new one;
 * what goes out on the wire is appended to an event trace.
 */
module Server {
  import opened Wrappers
  import opened Packets
  import opened Sessions

  /** What the server records on a socket object: its pending id `_tid`, its session id
      `_sid` once it has one, whether its send/write were replaced by no-ops, and
      whether it was closed. */
  datatype Socket = Socket(tid: Id, sid: Option<Id>, neutralised: bool, closed: bool)

  /** `temp_sessions` (pending queues by pending id), `sessions`, the attached sockets,
      and everything sent or done to a socket so far. */
  datatype State = State(
    pending: map<Id, seq<Payload>>,
    sessions: map<Id, Session>,
    sockets: map<SocketRef, Socket>,
    trace: seq<Event>)

  /** `this.sessions[...]` was undefined: the handler throws before changing anything. */
  datatype Error = UnknownSession

  /** An attached socket has a pending queue and, once it has a session id, that
      session exists. */
  ghost predicate SocketOk(st: State, r: SocketRef)
  {
    r in st.sockets ==>
      && st.sockets[r].tid in st.pending
      && (st.sockets[r].sid.Some? ==> st.sockets[r].sid.value in st.sessions)
  }

  /** A session's socket is attached and its buffer is well formed. */
  ghost predicate SessionOk(st: State, x: Id)
  {
    x in st.sessions ==> st.sessions[x].socket in st.sockets && WellFormed(st.sessions[x])
  }

  /** What every reachable state satisfies. The two quantifiers are instantiated only
      where a proof names a particular socket or session. */
  ghost predicate Valid(st: State)
  {
    && (forall r :: SocketOk(st, r))
    && (forall x :: SessionOk(st, x))
  }

  /** `sock` went through addSocket; in a valid state that is all it takes. */
  ghost predicate Attached(st: State, sock: SocketRef)
  {
    sock in st.sockets && SocketOk(st, sock)
  }

  /** Session `sid` exists; in a valid state that is all it takes. */
  ghost predicate Live(st: State, sid: Id)
  {
    sid in st.sessions && SessionOk(st, sid)
  }

  /** In a valid state every known socket is attached and every known session live. */
  lemma ValidMeans(st: State, sock: SocketRef, sid: Id)
    requires Valid(st)
    ensures sock in st.sockets <==> Attached(st, sock)
    ensures sid in st.sessions <==> Live(st, sid)
  {
    assert SocketOk(st, sock) && SessionOk(st, sid);
  }

  /** Replacing (or adding) one pending queue keeps the invariant. */
  lemma ValidAfterQueue(st: State, t: Id, q: seq<Payload>)
    requires Valid(st)
    ensures Valid(st.(pending := st.pending[t := q]))
  {
    var r := st.(pending := st.pending[t := q]);
    forall x ensures SocketOk(r, x) { assert SocketOk(st, x); }
    forall x ensures SessionOk(r, x) { assert SessionOk(st, x); }
  }

  /** Replacing (or adding) a session bound to an attached socket, with a well-formed
      buffer, keeps the invariant. */
  lemma ValidAfterSession(st: State, sid: Id, s: Session)
    requires Valid(st) && s.socket in st.sockets && WellFormed(s)
    ensures Valid(st.(sessions := st.sessions[sid := s]))
  {
    var r := st.(sessions := st.sessions[sid := s]);
    forall x ensures SocketOk(r, x) { assert SocketOk(st, x); }
    forall x ensures SessionOk(r, x) { assert SessionOk(st, x); }
  }

  /** Replacing (or adding) a socket record whose ids are backed keeps the invariant. */
  lemma ValidAfterSocket(st: State, sock: SocketRef, so: Socket)
    requires Valid(st) && so.tid in st.pending
    requires so.sid.Some? ==> so.sid.value in st.sessions
    ensures Valid(st.(sockets := st.sockets[sock := so]))
  {
    var r := st.(sockets := st.sockets[sock := so]);
    forall x ensures SocketOk(r, x) { assert SocketOk(st, x); }
    forall x ensures SessionOk(r, x) { assert SessionOk(st, x); }
  }

  /** The trace plays no part in the invariant. */
  lemma ValidAfterTrace(st: State, t: seq<Event>)
    requires Valid(st)
    ensures Valid(st.(trace := t))
  {
    var r := st.(trace := t);
    forall x ensures SocketOk(r, x) { assert SocketOk(st, x); }
    forall x ensures SessionOk(r, x) { assert SessionOk(st, x); }
  }

  /** A new server: no sessions, no pending queues, no sockets attached yet. */
  function Init(): (st: State)
    ensures Valid(st)
    ensures st.sessions == map[] && st.pending == map[] && st.sockets == map[] && st.trace == []
  {
    State(map[], map[], map[], [])
  }

  /** addSocket: records a fresh pending id on the socket with an empty queue. The id
      generator is outside the model, so the id is a parameter that must be fresh. */
  function AddSocket(st: State, sock: SocketRef, tid: Id): (r: State)
    requires Valid(st)
    requires sock !in st.sockets && tid !in st.pending
    ensures Valid(r) && Attached(r, sock)
    ensures r.pending.Keys == st.pending.Keys + {tid} && r.pending[tid] == []
    ensures forall t :: t in st.pending ==> r.pending[t] == st.pending[t]
    ensures r.sockets.Keys == st.sockets.Keys + {sock}
    ensures r.sockets[sock] == Socket(tid, None, false, false)
    ensures forall x :: x in st.sockets ==> r.sockets[x] == st.sockets[x]
    ensures r.sessions == st.sessions && r.trace == st.trace
  {
    var st1 := st.(pending := st.pending[tid := []]);
    ValidAfterQueue(st, tid, []);
    ValidAfterSocket(st1, sock, Socket(tid, None, false, false));
    st1.(sockets := st.sockets[sock := Socket(tid, None, false, false)])
  }

  /** The wrapper's `!sid` test: no session id, or the empty string, which JavaScript
      also treats as false. */
  predicate NoSid(so: Socket)
  {
    so.sid.None? || so.sid.value == ""
  }

  /** The send/write installed by overrideSend. Without a session the payload is queued
      and nothing is transmitted; with one it is sequenced by BuildPacket and sent as a
      one-entry message. A neutralised socket ignores the call. */
  function Write(st: State, sock: SocketRef, data: Payload): (r: State)
    requires Valid(st) && Attached(st, sock)
    ensures Valid(r) && Attached(r, sock)
    ensures r.sockets == st.sockets
    ensures st.sockets[sock].neutralised ==> r == st
    ensures !st.sockets[sock].neutralised && NoSid(st.sockets[sock]) ==>
      var t := st.sockets[sock].tid;
      && r.pending.Keys == st.pending.Keys
      && r.pending[t] == st.pending[t] + [data]
      && (forall u :: u in st.pending && u != t ==> r.pending[u] == st.pending[u])
      && r.sessions == st.sessions
      && r.trace == st.trace
    ensures !st.sockets[sock].neutralised && !NoSid(st.sockets[sock]) ==>
      var sid := st.sockets[sock].sid.value;
      var s := st.sessions[sid];
      var e := Entry(s.packetCount + 1, data);
      && r.pending == st.pending
      && r.sessions.Keys == st.sessions.Keys
      && r.sessions[sid] == Session(s.socket, s.packetCount + 1, s.writeBuffer + [e])
      && (forall x :: x in st.sessions && x != sid ==> r.sessions[x] == st.sessions[x])
      && r.trace == st.trace + [Sent(sock, Message([e]))]
  {
    var so := st.sockets[sock];
    if so.neutralised then st
    else if NoSid(so) then
      ValidAfterQueue(st, so.tid, st.pending[so.tid] + [data]);
      st.(pending := st.pending[so.tid := st.pending[so.tid] + [data]])
    else
      var sid := so.sid.value;
      assert SessionOk(st, sid);
      var (s, e) := BuildPacket(st.sessions[sid], data);
      var st1 := st.(sessions := st.sessions[sid := s]);
      ValidAfterSession(st, sid, s);
      ValidAfterTrace(st1, st.trace + [Sent(sock, Message([e]))]);
      st1.(trace := st.trace + [Sent(sock, Message([e]))])
  }

  /** onOpen: creates session `sid` bound to the socket, sends `sid`, migrates the
      socket's pending queue through BuildPacket in order and sends the built entries as
      one message batch (empty when nothing was queued). The queue itself is left in
      place. */
  function OnOpen(st: State, sock: SocketRef, sid: Id): (r: State)
    requires Valid(st) && Attached(st, sock) && sid !in st.sessions
    ensures Valid(r) && Attached(r, sock) && Live(r, sid)
    ensures
      var q := st.pending[st.sockets[sock].tid];
      && r.sessions[sid] == Session(sock, |q|, Numbered(0, q))
      && r.trace == st.trace + [Sent(sock, Sid(sid)), Sent(sock, Message(Numbered(0, q)))]
    ensures r.sockets == st.sockets[sock := st.sockets[sock].(sid := Some(sid))]
    ensures r.pending == st.pending
    ensures r.sessions.Keys == st.sessions.Keys + {sid}
    ensures forall x :: x in st.sessions ==> r.sessions[x] == st.sessions[x]
  {
    var q := st.pending[st.sockets[sock].tid];
    var blank := Session(sock, 0, []);
    assert WellFormed(blank);
    var (s, built) := BuildAll(blank, q);
    assert built == Numbered(0, q);
    assert s == Session(sock, |q|, built) by {
      assert blank.writeBuffer + built == built;
    }
    var st1 := st.(sessions := st.sessions[sid := s]);
    ValidAfterSession(st, sid, s);
    var st2 := st1.(sockets := st.sockets[sock := st.sockets[sock].(sid := Some(sid))]);
    ValidAfterSocket(st1, sock, st.sockets[sock].(sid := Some(sid)));
    ValidAfterTrace(st2, st.trace + [Sent(sock, Sid(sid)), Sent(sock, Message(built))]);
    ValidMeans(st2, sock, sid);
    st2.(trace := st.trace + [Sent(sock, Sid(sid)), Sent(sock, Message(built))])
  }

  /** onAck: the socket's session must exist; a payload that did not parse changes
      nothing; a parsed id `k` prunes the entries with id `k` from the buffer, which on a
      well-formed buffer is at most the one entry the scan finds first. */
  function OnAck(st: State, sock: SocketRef, parsed: Option<int>): (r: Result<State, Error>)
    requires Valid(st) && Attached(st, sock)
    ensures r.Failure? <==> st.sockets[sock].sid.None?
    ensures r.Success? ==> Valid(r.value)
    ensures r.Success? && parsed.None? ==> r.value == st
    ensures r.Success? && parsed.Some? ==>
      var sid := st.sockets[sock].sid.value;
      var s := st.sessions[sid];
      && r.value.pending == st.pending && r.value.sockets == st.sockets && r.value.trace == st.trace
      && r.value.sessions.Keys == st.sessions.Keys
      && (forall x :: x in st.sessions && x != sid ==> r.value.sessions[x] == st.sessions[x])
      && r.value.sessions[sid].socket == s.socket
      && r.value.sessions[sid].packetCount == s.packetCount
      && r.value.sessions[sid].writeBuffer == WithoutId(s.writeBuffer, parsed.value)
      && |s.writeBuffer| - 1 <= |r.value.sessions[sid].writeBuffer| <= |s.writeBuffer|
  {
    var so := st.sockets[sock];
    if so.sid.None? || so.sid.value !in st.sessions then Failure(UnknownSession)
    else if parsed.None? then Success(st)
    else
      var sid := so.sid.value;
      var s := st.sessions[sid];
      assert SessionOk(st, sid);
      AcknowledgeIsWithoutId(s.writeBuffer, parsed.value);
      AcknowledgePreservesWellFormed(s, parsed.value);
      var s1 := s.(writeBuffer := Acknowledge(s.writeBuffer, parsed.value));
      ValidAfterSession(st, sid, s1);
      Success(st.(sessions := st.sessions[sid := s1]))
  }

  /** The events that replay `es` on `sock`, one missed packet per entry. */
  function MissedEvents(sock: SocketRef, es: seq<Entry>): (r: seq<Event>)
  {
    seq(|es|, i requires 0 <= i < |es| => Sent(sock, Missed(es[i])))
  }

  /** The events that send `es` on `sock`, one single-entry message per entry. */
  function MessageEvents(sock: SocketRef, es: seq<Entry>): (r: seq<Event>)
  {
    seq(|es|, i requires 0 <= i < |es| => Sent(sock, Message([es[i]])))
  }

  /** Sending one list after another is sending their concatenation. */
  lemma MessageEventsAppend(sock: SocketRef, a: seq<Entry>, b: seq<Entry>)
    ensures MessageEvents(sock, a + b) == MessageEvents(sock, a) + MessageEvents(sock, b)
  {
    var l := MessageEvents(sock, a + b);
    var rr := MessageEvents(sock, a) + MessageEvents(sock, b);
    assert |l| == |rr|;
    forall i | 0 <= i < |l|
      ensures l[i] == rr[i]
    {
      if i >= |a| {
        assert rr[i] == MessageEvents(sock, b)[i - |a|];
      }
    }
  }

  /** The socket records after a handover: the old socket's send/write are no-ops and it
      is closed, then the new socket takes the session id; no other record changes. When
      the old and the new socket are the same record, it ends neutralised, closed and
      bound. */
  function Rebound(sockets: map<SocketRef, Socket>, prev: SocketRef, sock: SocketRef, sid: Id): (r: map<SocketRef, Socket>)
    requires prev in sockets && sock in sockets
    ensures r.Keys == sockets.Keys
    ensures r[sock].sid == Some(sid) && r[sock].tid == sockets[sock].tid
    ensures r[prev].neutralised && r[prev].closed
    ensures sock != prev ==>
      && r[sock] == sockets[sock].(sid := Some(sid))
      && r[prev] == sockets[prev].(neutralised := true, closed := true)
    ensures forall x :: x in sockets && x != sock && x != prev ==> r[x] == sockets[x]
  {
    var c := sockets[prev := sockets[prev].(neutralised := true, closed := true)];
    c[sock := c[sock].(sid := Some(sid))]
  }

  /** The handover part of onRecon: the old socket's send/write become no-ops and it is
      closed, every buffered entry with id above `last` is replayed on the new socket,
      then the new socket takes the session. The buffer loses nothing. */
  function Handover(st: State, sock: SocketRef, sid: Id, last: Option<int>): (r: State)
    requires Valid(st) && Attached(st, sock) && Live(st, sid)
    ensures Valid(r) && Attached(r, sock) && Live(r, sid)
    ensures
      var s := st.sessions[sid];
      var prev := s.socket;
      && r.trace == st.trace + [Neutralised(prev), Closed(prev)]
                    + MissedEvents(sock, MissedAfter(s.writeBuffer, last))
      && r.sessions == st.sessions[sid := s.(socket := sock)]
      && r.sockets == Rebound(st.sockets, prev, sock, sid)
    ensures r.pending == st.pending
  {
    var s := st.sessions[sid];
    var prev := s.socket;
    var closedSo := st.sockets[prev].(neutralised := true, closed := true);
    assert SocketOk(st, prev);
    var st1 := st.(sockets := st.sockets[prev := closedSo]);
    ValidAfterSocket(st, prev, closedSo);
    assert SocketOk(st1, sock);
    var boundSo := st1.sockets[sock].(sid := Some(sid));
    var st2 := st1.(sockets := st1.sockets[sock := boundSo]);
    ValidAfterSocket(st1, sock, boundSo);
    var st3 := st2.(sessions := st.sessions[sid := s.(socket := sock)]);
    ValidAfterSession(st2, sid, s.(socket := sock));
    var t := st.trace + [Neutralised(prev), Closed(prev)] + MissedEvents(sock, MissedAfter(s.writeBuffer, last));
    ValidAfterTrace(st3, t);
    ValidMeans(st3.(trace := t), sock, sid);
    st3.(trace := t)
  }

  /** The drain at the end of onRecon, as intended: each payload queued on the new
      socket is sequenced by BuildPacket and sent as its own message, in queue order. */
  function DrainPending(st: State, sock: SocketRef, sid: Id): (r: State)
    requires Valid(st) && Attached(st, sock) && Live(st, sid)
    ensures Valid(r) && Attached(r, sock) && Live(r, sid)
    ensures
      var q := st.pending[st.sockets[sock].tid];
      var s := st.sessions[sid];
      var drained := Numbered(s.packetCount, q);
      && r.sessions.Keys == st.sessions.Keys
      && r.sessions[sid] == Session(s.socket, s.packetCount + |q|, s.writeBuffer + drained)
      && r.trace == st.trace + MessageEvents(sock, drained)
      && (forall x :: x in st.sessions && x != sid ==> r.sessions[x] == st.sessions[x])
    ensures r.pending == st.pending && r.sockets == st.sockets
  {
    var q := st.pending[st.sockets[sock].tid];
    var (s, built) := BuildAll(st.sessions[sid], q);
    var st1 := st.(sessions := st.sessions[sid := s]);
    ValidAfterSession(st, sid, s);
    var t := st.trace + MessageEvents(sock, built);
    ValidAfterTrace(st1, t);
    ValidMeans(st1.(trace := t), sock, sid);
    st1.(trace := t)
  }

  /** onRecon: fails when the session is unknown, changing nothing; otherwise the
      handover followed by the drain of the new socket's pending queue. */
  function OnRecon(st: State, sock: SocketRef, sid: Id, last: Option<int>): (r: Result<State, Error>)
    requires Valid(st) && Attached(st, sock)
    ensures r.Failure? <==> sid !in st.sessions
    ensures r.Success? ==>
      var s := st.sessions[sid];
      var q := st.pending[st.sockets[sock].tid];
      var drained := Numbered(s.packetCount, q);
      && Valid(r.value)
      && r.value.sessions.Keys == st.sessions.Keys
      && r.value.sessions[sid] == Session(sock, s.packetCount + |q|, s.writeBuffer + drained)
      && (forall x :: x in st.sessions && x != sid ==> r.value.sessions[x] == st.sessions[x])
      && s.socket in st.sockets
      && r.value.sockets == Rebound(st.sockets, s.socket, sock, sid)
      && r.value.trace == st.trace + [Neutralised(s.socket), Closed(s.socket)]
                          + MissedEvents(sock, MissedAfter(s.writeBuffer, last))
                          + MessageEvents(sock, drained)
      && r.value.pending == st.pending
  {
    if sid !in st.sessions then Failure(UnknownSession)
    else
      ValidMeans(st, sock, sid);
      var h := Handover(st, sock, sid, last);
      Success(DrainPending(h, sock, sid))
  }

  /** onClose closes the socket; nothing else changes. */
  function OnClose(st: State, sock: SocketRef): (r: State)
    requires Valid(st) && Attached(st, sock)
    ensures Valid(r)
    ensures r.sockets.Keys == st.sockets.Keys && r.sockets[sock].closed
    ensures r.sockets[sock] == st.sockets[sock].(closed := true)
    ensures forall x :: x in st.sockets && x != sock ==> r.sockets[x] == st.sockets[x]
    ensures r.trace == st.trace + [Closed(sock)]
    ensures r.sessions == st.sessions && r.pending == st.pending
  {
    var so := st.sockets[sock].(closed := true);
    var st1 := st.(sockets := st.sockets[sock := so]);
    ValidAfterSocket(st, sock, so);
    ValidAfterTrace(st1, st.trace + [Closed(sock)]);
    st1.(trace := st.trace + [Closed(sock)])
  }

  /** Everything that can happen to the server: a socket is attached, the application
      writes, or a decoded packet of one of the handled types arrives (onMessage has an
      empty body, so a message packet changes nothing). */
  datatype Input =
    | Attach(socket: SocketRef, tid: Id)
    | AppWrite(socket: SocketRef, data: Payload)
    | OpenPacket(socket: SocketRef, sid: Id)
    | AckPacket(socket: SocketRef, parsed: Option<int>)
    | ReconPacket(socket: SocketRef, sid: Id, last: Option<int>)
    | MessagePacket(socket: SocketRef)
    | ClosePacket(socket: SocketRef)

  /** An input can be delivered: packets and writes come from attached sockets, and the
      generated ids are fresh. */
  ghost predicate Enabled(st: State, inp: Input)
  {
    match inp
    case Attach(sock, tid) => sock !in st.sockets && tid !in st.pending
    case OpenPacket(sock, sid) => sock in st.sockets && sid !in st.sessions
    case _ => inp.socket in st.sockets
  }

  /** How any successful transition relates the new state to the old: the trace only
      grows at its end, no session disappears and no counter goes down. */
  ghost predicate Grows(st: State, r: State)
  {
    && |st.trace| <= |r.trace| && r.trace[..|st.trace|] == st.trace
    && st.sessions.Keys <= r.sessions.Keys
    && forall x :: x in st.sessions ==> r.sessions[x].packetCount >= st.sessions[x].packetCount
  }

  /** Growth composes. */
  lemma GrowsTransitive(a: State, b: State, c: State)
    requires Grows(a, b) && Grows(b, c)
    ensures Grows(a, c)
  {
    assert c.trace[..|a.trace|] == c.trace[..|b.trace|][..|a.trace|];
  }

  /** A successful reconnect only adds to the trace and keeps every session. */
  lemma ReconGrows(st: State, sock: SocketRef, sid: Id, last: Option<int>)
    requires Valid(st) && Attached(st, sock) && sid in st.sessions
    ensures OnRecon(st, sock, sid, last).Success?
    ensures Grows(st, OnRecon(st, sock, sid, last).value)
  {
    ValidMeans(st, sock, sid);
    var h := Handover(st, sock, sid, last);
    assert h.trace[..|st.trace|] == st.trace;
    assert Grows(st, h);
    var d := DrainPending(h, sock, sid);
    assert d.trace[..|h.trace|] == h.trace;
    assert Grows(h, d);
    GrowsTransitive(st, h, d);
  }

  /** One transition, by input kind. It keeps the invariant, only an ack or a recon can
      fail, and a successful step only adds to the trace and the sessions. */
  function Step(st: State, inp: Input): (r: Result<State, Error>)
    requires Valid(st) && Enabled(st, inp)
    ensures r.Success? ==> Valid(r.value) && Grows(st, r.value)
    ensures r.Failure? ==> inp.AckPacket? || inp.ReconPacket?
    ensures inp.MessagePacket? ==> r == Success(st)
  {
    ValidMeans(st, inp.socket, "");
    match inp
    case Attach(sock, tid) =>
      var r := AddSocket(st, sock, tid);
      assert Grows(st, r);
      Success(r)
    case AppWrite(sock, data) =>
      var r := Write(st, sock, data);
      assert Grows(st, r);
      Success(r)
    case OpenPacket(sock, sid) =>
      var r := OnOpen(st, sock, sid);
      assert Grows(st, r);
      Success(r)
    case AckPacket(sock, parsed) =>
      var r := OnAck(st, sock, parsed);
      assert r.Success? ==> Grows(st, r.value);
      r
    case ReconPacket(sock, sid, last) =>
      if sid in st.sessions then
        ReconGrows(st, sock, sid, last);
        OnRecon(st, sock, sid, last)
      else
        OnRecon(st, sock, sid, last)
    case MessagePacket(sock) => Success(st)
    case ClosePacket(sock) =>
      var r := OnClose(st, sock);
      assert Grows(st, r);
      Success(r)
  }
}
