/**
 * Properties that relate several transitions of the reliable server: the numbering of
 * successive writes, the migration of writes queued before `open`, the order of the
 * reconnect handover, what a reconnect replays, and how acks combine.
 */
module Properties {
  import opened Wrappers
  import opened Packets
  import opened Sessions
  import opened Server

  /** The application writes `ds` on one socket, one call after another. */
  function Writes(st: State, sock: SocketRef, ds: seq<Payload>): (r: State)
    requires Valid(st) && Attached(st, sock)
    ensures Valid(r) && Attached(r, sock) && r.sockets == st.sockets
    decreases |ds|
  {
    if |ds| == 0 then st else Writes(Write(st, sock, ds[0]), sock, ds[1..])
  }

  /** Writes on a socket without a session are queued in call order; nothing is sent
      and no session changes. */
  lemma {:induction false} WritesBeforeSession(st: State, sock: SocketRef, ds: seq<Payload>)
    requires Valid(st) && Attached(st, sock)
    requires !st.sockets[sock].neutralised && NoSid(st.sockets[sock])
    ensures
      var r := Writes(st, sock, ds);
      var t := st.sockets[sock].tid;
      && r.pending.Keys == st.pending.Keys
      && r.pending[t] == st.pending[t] + ds
      && (forall u :: u in st.pending && u != t ==> r.pending[u] == st.pending[u])
      && r.sessions == st.sessions
      && r.trace == st.trace
    decreases |ds|
  {
    if |ds| > 0 {
      var st1 := Write(st, sock, ds[0]);
      WritesBeforeSession(st1, sock, ds[1..]);
      assert st.pending[st.sockets[sock].tid] + ds == st1.pending[st.sockets[sock].tid] + ds[1..];
    }
  }

  /** Writes on a socket bound to a session get ids packetCount+1, packetCount+2, ... in
      call order; each is appended to the buffer and sent as its own message, and the
      entries already buffered are untouched. */
  lemma {:induction false} WritesOnSession(st: State, sock: SocketRef, ds: seq<Payload>)
    requires Valid(st) && Attached(st, sock)
    requires !st.sockets[sock].neutralised && !NoSid(st.sockets[sock])
    ensures
      var r := Writes(st, sock, ds);
      var sid := st.sockets[sock].sid.value;
      var s := st.sessions[sid];
      && r.sessions.Keys == st.sessions.Keys
      && r.sessions[sid] == Session(s.socket, s.packetCount + |ds|, s.writeBuffer + Numbered(s.packetCount, ds))
      && (forall x :: x in st.sessions && x != sid ==> r.sessions[x] == st.sessions[x])
    ensures
      var r := Writes(st, sock, ds);
      var s := st.sessions[st.sockets[sock].sid.value];
      && r.trace == st.trace + MessageEvents(sock, Numbered(s.packetCount, ds))
      && r.pending == st.pending
    decreases |ds|
  {
    var sid := st.sockets[sock].sid.value;
    var s := st.sessions[sid];
    if |ds| > 0 {
      var st1 := Write(st, sock, ds[0]);
      var e := Entry(s.packetCount + 1, ds[0]);
      assert st1.sockets == st.sockets;
      assert st1.sessions[sid] == Session(s.socket, s.packetCount + 1, s.writeBuffer + [e]);
      assert st1.trace == st.trace + [Sent(sock, Message([e]))];
      WritesOnSession(st1, sock, ds[1..]);
      var r := Writes(st1, sock, ds[1..]);
      assert Writes(st, sock, ds) == r;
      WriteThenRest(sock, s.packetCount, ds, s.writeBuffer, st.trace);
      assert r.sessions[sid] == Session(s.socket, s.packetCount + |ds|, s.writeBuffer + Numbered(s.packetCount, ds));
      assert r.trace == st.trace + MessageEvents(sock, Numbered(s.packetCount, ds));
      assert r.pending == st.pending;
      assert r.sessions.Keys == st.sessions.Keys;
      assert forall x :: x in st.sessions && x != sid ==> r.sessions[x] == st.sessions[x];
    } else {
      assert Numbered(s.packetCount, ds) == [];
      assert MessageEvents(sock, []) == [];
    }
  }

  /** One sequenced write followed by the rest adds up to the whole numbered run, both
      in the buffer and in the trace. */
  lemma WriteThenRest(sock: SocketRef, c: nat, ds: seq<Payload>, buf: seq<Entry>, t: seq<Event>)
    requires |ds| > 0
    ensures
      var e := Entry(c + 1, ds[0]);
      var rest := Numbered(c + 1, ds[1..]);
      && buf + [e] + rest == buf + Numbered(c, ds)
      && t + [Sent(sock, Message([e]))] + MessageEvents(sock, rest) == t + MessageEvents(sock, Numbered(c, ds))
  {
    var e := Entry(c + 1, ds[0]);
    var rest := Numbered(c + 1, ds[1..]);
    NumberedCons(c, ds);
    MessageEventsAppend(sock, [e], rest);
    assert MessageEvents(sock, [e]) == [Sent(sock, Message([e]))];
    assert buf + [e] + rest == buf + ([e] + rest);
    assert t + [Sent(sock, Message([e]))] + MessageEvents(sock, rest)
        == t + (MessageEvents(sock, [e]) + MessageEvents(sock, rest));
  }

  /** Writes w1..wn made on a freshly attached socket before `open` end up as the new
      session's buffer [(1,w1), ..., (n,wn)], and the only traffic is `sid` followed by
      one message batch carrying exactly those entries. */
  lemma OpenAfterQueuedWrites(st: State, sock: SocketRef, tid: Id, ds: seq<Payload>, sid: Id)
    requires Valid(st) && sock !in st.sockets && tid !in st.pending && sid !in st.sessions
    ensures
      var attached := AddSocket(st, sock, tid);
      var queued := Writes(attached, sock, ds);
      sid !in queued.sessions &&
      var r := OnOpen(queued, sock, sid);
      && r.sessions[sid] == Session(sock, |ds|, Numbered(0, ds))
      && r.sockets[sock].sid == Some(sid)
      && r.trace == st.trace + [Sent(sock, Sid(sid)), Sent(sock, Message(Numbered(0, ds)))]
  {
    var attached := AddSocket(st, sock, tid);
    WritesBeforeSession(attached, sock, ds);
  }

  /** The reconnect handover order: the old socket is neutralised, then closed, and only
      after that does anything go out, all of it on the new socket. */
  lemma ReconHandoverOrder(st: State, sock: SocketRef, sid: Id, last: Option<int>)
    requires Valid(st) && Attached(st, sock) && sid in st.sessions
    ensures
      var prev := st.sessions[sid].socket;
      var r := OnRecon(st, sock, sid, last).value;
      && |r.trace| >= |st.trace| + 2
      && r.trace[..|st.trace|] == st.trace
      && r.trace[|st.trace|] == Neutralised(prev)
      && r.trace[|st.trace| + 1] == Closed(prev)
      && (forall i :: |st.trace| + 2 <= i < |r.trace| ==> r.trace[i].Sent? && r.trace[i].socket == sock)
  {
    var r := OnRecon(st, sock, sid, last).value;
    var s := st.sessions[sid];
    var replayed := MissedAfter(s.writeBuffer, last);
    var drained := Numbered(s.packetCount, st.pending[st.sockets[sock].tid]);
    var tail := MissedEvents(sock, replayed) + MessageEvents(sock, drained);
    ReplayThenDrainSentOnly(sock, replayed, drained);
    HandoverLayout(st.trace, Neutralised(s.socket), Closed(s.socket), tail, r.trace, sock);
  }

  /** The positions of a trace laid out as history, two handover events, then sends. */
  lemma HandoverLayout(h: seq<Event>, a: Event, b: Event, tail: seq<Event>, t: seq<Event>, sock: SocketRef)
    requires t == h + [a, b] + tail && SentOnly(sock, tail)
    ensures |t| >= |h| + 2 && t[..|h|] == h && t[|h|] == a && t[|h| + 1] == b
    ensures forall i :: |h| + 2 <= i < |t| ==> t[i].Sent? && t[i].socket == sock
  {
    forall i | |h| + 2 <= i < |t|
      ensures t[i].Sent? && t[i].socket == sock
    {
      assert t[i] == tail[i - |h| - 2];
    }
  }

  /** Every event of `es` sends something on `sock`. */
  ghost predicate SentOnly(sock: SocketRef, es: seq<Event>)
  {
    forall i :: 0 <= i < |es| ==> es[i].Sent? && es[i].socket == sock
  }

  /** Replayed entries followed by drained ones all go out on `sock`. */
  lemma ReplayThenDrainSentOnly(sock: SocketRef, replayed: seq<Entry>, drained: seq<Entry>)
    ensures SentOnly(sock, MissedEvents(sock, replayed) + MessageEvents(sock, drained))
  {
    var es := MissedEvents(sock, replayed) + MessageEvents(sock, drained);
    forall i | 0 <= i < |es|
      ensures es[i].Sent? && es[i].socket == sock
    {
      if i >= |replayed| {
        assert es[i] == MessageEvents(sock, drained)[i - |replayed|];
      }
    }
  }

  /** After a reconnect the session and the new socket point at each other, and a
      write on the old socket is dropped without effect. That includes a recon sent on
      the socket the session is already bound to: the socket neutralises itself, and
      every later write on it is dropped. */
  lemma ReconSilencesPrevious(st: State, sock: SocketRef, sid: Id, last: Option<int>, data: Payload)
    requires Valid(st) && Attached(st, sock) && sid in st.sessions
    ensures
      var prev := st.sessions[sid].socket;
      var r := OnRecon(st, sock, sid, last).value;
      && r.sessions[sid].socket == sock && r.sockets[sock].sid == Some(sid)
      && Attached(r, prev)
      && Write(r, prev, data) == r
  {
  }

  /** A reconnect leaves the new socket usable: when it is not the session's old socket
      and was not neutralised before, the next write on it is sequenced after everything
      the recon drained and sent on it. */
  lemma ReconThenWrite(st: State, sock: SocketRef, sid: Id, last: Option<int>, data: Payload)
    requires Valid(st) && Attached(st, sock) && sid in st.sessions && sid != ""
    requires st.sessions[sid].socket != sock && !st.sockets[sock].neutralised
    ensures
      var s := st.sessions[sid];
      var q := st.pending[st.sockets[sock].tid];
      var r := OnRecon(st, sock, sid, last).value;
      var e := Entry(s.packetCount + |q| + 1, data);
      && Attached(r, sock)
      && Write(r, sock, data).sessions[sid] == Session(sock, s.packetCount + |q| + 1, r.sessions[sid].writeBuffer + [e])
      && Write(r, sock, data).trace == r.trace + [Sent(sock, Message([e]))]
  {
    var r := OnRecon(st, sock, sid, last).value;
    assert r.sockets[sock] == st.sockets[sock].(sid := Some(sid));
    ValidMeans(r, sock, sid);
  }

  /** The pending queue outlives onOpen: under the corrected drain of OnRecon, a socket
      that opened one session and then sends a recon for another session has its
      already-migrated queue sequenced a second time, into the other session. (As
      written, a non-empty queue makes the drain throw instead.) */
  lemma OpenThenReconRedrains(st: State, sock: SocketRef, sid1: Id, sid2: Id, last: Option<int>)
    requires Valid(st) && Attached(st, sock) && sid1 !in st.sessions && sid2 in st.sessions
    ensures
      var q := st.pending[st.sockets[sock].tid];
      var s2 := st.sessions[sid2];
      var st1 := OnOpen(st, sock, sid1);
      var r := OnRecon(st1, sock, sid2, last).value;
      && st1.sessions[sid1].writeBuffer == Numbered(0, q)
      && r.sessions[sid2].writeBuffer == s2.writeBuffer + Numbered(s2.packetCount, q)
  {
    var st1 := OnOpen(st, sock, sid1);
    assert st1.sockets[sock].tid == st.sockets[sock].tid;
  }

  /** What a reconnect replays: right after the handover events, one `missed` packet
      per entry of MissedAfter(buffer, last), in buffer order (by MissedIsSuffix, on a
      valid buffer the suffix from the first id above `last`; nothing when `last` did
      not parse), and no missed packet after those. */
  lemma ReconReplaysExactly(st: State, sock: SocketRef, sid: Id, last: Option<int>)
    requires Valid(st) && Attached(st, sock) && sid in st.sessions
    ensures
      var s := st.sessions[sid];
      var r := OnRecon(st, sock, sid, last).value;
      var replayed := MissedAfter(s.writeBuffer, last);
      && |st.trace| + 2 + |replayed| <= |r.trace|
      && r.trace[|st.trace| + 2..|st.trace| + 2 + |replayed|] == MissedEvents(sock, replayed)
      && (forall i :: |st.trace| + 2 + |replayed| <= i < |r.trace| ==>
            !(r.trace[i].Sent? && r.trace[i].packet.Missed?))
  {
    var s := st.sessions[sid];
    var r := OnRecon(st, sock, sid, last).value;
    var replayed := MissedAfter(s.writeBuffer, last);
    var drained := Numbered(s.packetCount, st.pending[st.sockets[sock].tid]);
    var head := st.trace + [Neutralised(s.socket), Closed(s.socket)];
    ReplayLayout(head, sock, replayed, drained, r.trace);
  }

  /** A reconnect removes nothing from the buffer: the old buffer is a prefix of the new
      one, and on a valid buffer with a parsed `last` the replay is its suffix from the
      first id above `last`. */
  lemma ReconKeepsBuffer(st: State, sock: SocketRef, sid: Id, last: Option<int>)
    requires Valid(st) && Attached(st, sock) && sid in st.sessions
    ensures
      var s := st.sessions[sid];
      var r := OnRecon(st, sock, sid, last).value;
      && |s.writeBuffer| <= |r.sessions[sid].writeBuffer|
      && r.sessions[sid].writeBuffer[..|s.writeBuffer|] == s.writeBuffer
      && (last.None? ==> MissedAfter(s.writeBuffer, last) == [])
      && (last.Some? ==> MissedAfter(s.writeBuffer, last) == s.writeBuffer[FirstAbove(s.writeBuffer, last.value)..])
  {
    var s := st.sessions[sid];
    ValidMeans(st, sock, sid);
    if last.Some? {
      MissedIsSuffix(s.writeBuffer, last.value);
    }
  }

  /** The positions of a trace laid out as history, replayed entries, then drained ones. */
  lemma ReplayLayout(head: seq<Event>, sock: SocketRef, replayed: seq<Entry>, drained: seq<Entry>, t: seq<Event>)
    requires t == head + MissedEvents(sock, replayed) + MessageEvents(sock, drained)
    ensures |head| + |replayed| <= |t|
    ensures t[|head|..|head| + |replayed|] == MissedEvents(sock, replayed)
    ensures forall i :: |head| + |replayed| <= i < |t| ==> !(t[i].Sent? && t[i].packet.Missed?)
  {
    forall i | |head| + |replayed| <= i < |t|
      ensures !(t[i].Sent? && t[i].packet.Missed?)
    {
      assert t[i] == MessageEvents(sock, drained)[i - |head| - |replayed|];
    }
  }

  /** The filter on a buffer given as head and tail. */
  lemma WithoutIdCons(h: Entry, t: seq<Entry>, k: int)
    ensures WithoutId([h] + t, k) == if h.id == k then WithoutId(t, k) else [h] + WithoutId(t, k)
  {
    assert ([h] + t)[1..] == t;
  }

  /** Filtering out one id twice is the same as once. */
  lemma {:induction false} WithoutIdIdempotent(buf: seq<Entry>, k: int)
    ensures WithoutId(WithoutId(buf, k), k) == WithoutId(buf, k)
    decreases |buf|
  {
    if |buf| > 0 {
      var t := buf[1..];
      WithoutIdIdempotent(t, k);
      WithoutIdCons(buf[0], t, k);
      assert buf == [buf[0]] + t;
      if buf[0].id != k {
        WithoutIdCons(buf[0], WithoutId(t, k), k);
      }
    }
  }

  /** Filtering out two ids gives the same buffer in either order. */
  lemma {:induction false} WithoutIdCommutes(buf: seq<Entry>, j: int, k: int)
    ensures WithoutId(WithoutId(buf, j), k) == WithoutId(WithoutId(buf, k), j)
    decreases |buf|
  {
    if |buf| > 0 {
      var h, t := buf[0], buf[1..];
      assert buf == [h] + t;
      WithoutIdCommutes(t, j, k);
      WithoutIdCons(h, t, j);
      WithoutIdCons(h, t, k);
      WithoutIdCons(h, WithoutId(t, j), k);
      WithoutIdCons(h, WithoutId(t, k), j);
    }
  }

  /** The state after an ack of `k` on a socket with a session, in closed form. */
  lemma AckResult(st: State, sock: SocketRef, k: int)
    requires Valid(st) && Attached(st, sock) && st.sockets[sock].sid.Some?
    ensures
      var sid := st.sockets[sock].sid.value;
      var s := st.sessions[sid];
      OnAck(st, sock, Some(k)) == Success(st.(sessions := st.sessions[sid := s.(writeBuffer := WithoutId(s.writeBuffer, k))]))
  {
    var sid := st.sockets[sock].sid.value;
    var s := st.sessions[sid];
    var r := OnAck(st, sock, Some(k)).value;
    assert r.sessions == st.sessions[sid := s.(writeBuffer := WithoutId(s.writeBuffer, k))];
  }

  /** Two acks in a row, in closed form. */
  lemma TwoAcks(st: State, sock: SocketRef, j: int, k: int)
    requires Valid(st) && Attached(st, sock) && st.sockets[sock].sid.Some?
    ensures
      var sid := st.sockets[sock].sid.value;
      var s := st.sessions[sid];
      var a := OnAck(st, sock, Some(j)).value;
      && Attached(a, sock)
      && OnAck(a, sock, Some(k)) == Success(st.(sessions := st.sessions[sid := s.(writeBuffer := WithoutId(WithoutId(s.writeBuffer, j), k))]))
  {
    var sid := st.sockets[sock].sid.value;
    var s := st.sessions[sid];
    AckResult(st, sock, j);
    var a := OnAck(st, sock, Some(j)).value;
    ValidMeans(a, sock, sid);
    AckResult(a, sock, k);
    var v0 := s.(writeBuffer := WithoutId(s.writeBuffer, j));
    var v1 := s.(writeBuffer := WithoutId(WithoutId(s.writeBuffer, j), k));
    assert a.sessions[sid].(writeBuffer := WithoutId(a.sessions[sid].writeBuffer, k)) == v1;
    assert st.sessions[sid := v0][sid := v1] == st.sessions[sid := v1];
  }

  /** Acks are not cumulative but they are order-insensitive: acking `j` then `k` leaves
      the same state as acking `k` then `j`, and repeating an ack changes nothing. */
  lemma AcksCommute(st: State, sock: SocketRef, j: int, k: int)
    requires Valid(st) && Attached(st, sock) && st.sockets[sock].sid.Some?
    ensures
      var a := OnAck(st, sock, Some(j)).value;
      var b := OnAck(st, sock, Some(k)).value;
      && Attached(a, sock) && Attached(b, sock)
      && OnAck(a, sock, Some(k)) == OnAck(b, sock, Some(j))
      && OnAck(a, sock, Some(j)) == Success(a)
  {
    var sid := st.sockets[sock].sid.value;
    var s := st.sessions[sid];
    WithoutIdCommutes(s.writeBuffer, j, k);
    WithoutIdIdempotent(s.writeBuffer, j);
    TwoAcks(st, sock, j, k);
    TwoAcks(st, sock, k, j);
    TwoAcks(st, sock, j, j);
    AckResult(st, sock, j);
  }
}
