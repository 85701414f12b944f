/**
 * One established session and its outbound write buffer: sequencing a write
 * (`buildPacket`), pruning an acknowledged entry (`onAck`) and selecting the
 * entries a reconnecting client missed (`onRecon`).
 */
module Sessions {
  import opened Wrappers
  import opened Packets

  /** `sessions[sid]`: the bound socket, the counter of sequenced writes, and the
      entries not yet acknowledged, in send order. */
  datatype Session = Session(socket: SocketRef, packetCount: nat, writeBuffer: seq<Entry>)

  /** Ids strictly increase along the buffer. */
  ghost predicate Increasing(buf: seq<Entry>)
  {
    forall i, j :: 0 <= i < j < |buf| ==> buf[i].id < buf[j].id
  }

  /** The buffer invariant: increasing ids, each one already handed out (1..packetCount). */
  ghost predicate WellFormed(s: Session)
  {
    && Increasing(s.writeBuffer)
    && forall i :: 0 <= i < |s.writeBuffer| ==> 1 <= s.writeBuffer[i].id <= s.packetCount
  }

  /** Sequences one payload: the counter is bumped first, so the first id is 1, and the
      `[id, data]` entry goes to the end of the buffer. */
  function BuildPacket(s: Session, data: Payload): (r: (Session, Entry))
    ensures r.1.id == s.packetCount + 1 && r.1.data == data
    ensures r.0.packetCount == r.1.id && r.0.socket == s.socket
    ensures r.0.writeBuffer == s.writeBuffer + [r.1]
    ensures WellFormed(s) ==> WellFormed(r.0) && forall e :: e in s.writeBuffer ==> e.id < r.1.id
  {
    var e := Entry(s.packetCount + 1, data);
    (s.(packetCount := e.id, writeBuffer := s.writeBuffer + [e]), e)
  }

  /** The payloads `ds` paired with the ids that follow `count`, in order. */
  function Numbered(count: nat, ds: seq<Payload>): (r: seq<Entry>)
  {
    seq(|ds|, i requires 0 <= i < |ds| => Entry(count + i + 1, ds[i]))
  }

  /** Numbering a non-empty list: the head gets the next id, the tail continues from it. */
  lemma NumberedCons(count: nat, ds: seq<Payload>)
    requires |ds| > 0
    ensures Numbered(count, ds) == [Entry(count + 1, ds[0])] + Numbered(count + 1, ds[1..])
  {
    var a := Numbered(count, ds);
    var b := [Entry(count + 1, ds[0])] + Numbered(count + 1, ds[1..]);
    assert |a| == |b|;
    forall i | 0 <= i < |a|
      ensures a[i] == b[i]
    {
      if i > 0 {
        assert b[i] == Numbered(count + 1, ds[1..])[i - 1];
      }
    }
  }

  /** Applies BuildPacket to each payload in order (the forEach loops of onOpen and
      onRecon); returns the session and the entries built. */
  function BuildAll(s: Session, ds: seq<Payload>): (r: (Session, seq<Entry>))
    ensures r.1 == Numbered(s.packetCount, ds)
    ensures r.0 == Session(s.socket, s.packetCount + |ds|, s.writeBuffer + r.1)
    ensures WellFormed(s) ==> WellFormed(r.0)
    decreases |ds|
  {
    if |ds| == 0 then (s, [])
    else
      var (s1, e) := BuildPacket(s, ds[0]);
      var (s2, es) := BuildAll(s1, ds[1..]);
      NumberedCons(s.packetCount, ds);
      assert s2.writeBuffer == s.writeBuffer + ([e] + es);
      (s2, [e] + es)
  }

  /** The position of the first entry whose id is `k`, or |buf| when there is none. */
  function FirstIndexOf(buf: seq<Entry>, k: int): (i: nat)
    ensures i <= |buf|
    ensures i < |buf| ==> buf[i].id == k
    ensures forall j :: 0 <= j < i ==> buf[j].id != k
  {
    if |buf| == 0 then 0
    else if buf[0].id == k then 0
    else 1 + FirstIndexOf(buf[1..], k)
  }

  /** The buffer after an ack of `k`: the first entry with id `k` is spliced out and the
      others keep their order; the ack is not cumulative. */
  function Acknowledge(buf: seq<Entry>, k: int): (r: seq<Entry>)
    ensures |buf| - 1 <= |r| <= |buf|
    ensures (forall j :: 0 <= j < |buf| ==> buf[j].id != k) ==> r == buf
    ensures forall e :: e in r ==> e in buf
  {
    var i := FirstIndexOf(buf, k);
    if i < |buf| then buf[..i] + buf[i + 1..] else buf
  }

  /** Reference definition: the buffer with every entry of id `k` filtered out. */
  function WithoutId(buf: seq<Entry>, k: int): (r: seq<Entry>)
  {
    if |buf| == 0 then []
    else (if buf[0].id == k then [] else [buf[0]]) + WithoutId(buf[1..], k)
  }

  /** The entries a client that has seen up to `last` missed: those with a larger id, in
      buffer order; none at all when `last` did not parse. */
  function MissedAfter(buf: seq<Entry>, last: Option<int>): (r: seq<Entry>)
    ensures forall e :: e in r <==> e in buf && last.Some? && e.id > last.value
    ensures |r| <= |buf|
  {
    if |buf| == 0 || last.None? then []
    else (if buf[0].id > last.value then [buf[0]] else []) + MissedAfter(buf[1..], last)
  }

  /** The position of the first entry whose id exceeds `l`, or |buf|. */
  function FirstAbove(buf: seq<Entry>, l: int): (i: nat)
    ensures i <= |buf|
    ensures i < |buf| ==> buf[i].id > l
    ensures forall j :: 0 <= j < i ==> buf[j].id <= l
  {
    if |buf| == 0 then 0
    else if buf[0].id > l then 0
    else 1 + FirstAbove(buf[1..], l)
  }

  /** The loop of onAck, a scan from the front that splices out the first match and
      stops; it computes exactly Acknowledge. */
  method AcknowledgeScan(buffer: seq<Entry>, sentId: int) returns (r: seq<Entry>)
    ensures r == Acknowledge(buffer, sentId)
  {
    r := buffer;
    var i := 0;
    while i < |buffer|
      invariant 0 <= i <= |buffer|
      invariant forall j :: 0 <= j < i ==> buffer[j].id != sentId
      invariant r == buffer
    {
      if buffer[i].id == sentId {
        r := buffer[..i] + buffer[i + 1..];
        assert FirstIndexOf(buffer, sentId) == i;
        return;
      }
      i := i + 1;
    }
  }

  /** The tail of an increasing buffer is increasing, and every id in it exceeds the head's. */
  lemma IncreasingTail(buf: seq<Entry>)
    requires Increasing(buf) && |buf| > 0
    ensures Increasing(buf[1..])
    ensures forall j :: 0 <= j < |buf[1..]| ==> buf[0].id < buf[1..][j].id
  {
    var t := buf[1..];
    forall i, j | 0 <= i < j < |t|
      ensures t[i].id < t[j].id
    {
      assert t[i] == buf[i + 1] && t[j] == buf[j + 1];
    }
    forall j | 0 <= j < |t|
      ensures buf[0].id < t[j].id
    {
      assert t[j] == buf[j + 1];
    }
  }

  /** A buffer without an entry of id `k` is left alone by the filter. */
  lemma {:induction false} WithoutAbsentId(buf: seq<Entry>, k: int)
    requires forall j :: 0 <= j < |buf| ==> buf[j].id != k
    ensures WithoutId(buf, k) == buf
    decreases |buf|
  {
    if |buf| > 0 {
      WithoutAbsentId(buf[1..], k);
    }
  }

  /** Past a head whose id differs from `k`, an ack acts on the tail. */
  lemma AcknowledgeCons(buf: seq<Entry>, k: int)
    requires |buf| > 0 && buf[0].id != k
    ensures Acknowledge(buf, k) == [buf[0]] + Acknowledge(buf[1..], k)
  {
    var t := buf[1..];
    var i := FirstIndexOf(t, k);
    assert FirstIndexOf(buf, k) == i + 1;
    if i < |t| {
      calc {
        Acknowledge(buf, k);
        buf[..i + 1] + buf[i + 2..];
        { assert buf[..i + 1] == [buf[0]] + t[..i]; assert buf[i + 2..] == t[i + 1..]; }
        [buf[0]] + t[..i] + t[i + 1..];
        [buf[0]] + (t[..i] + t[i + 1..]);
        [buf[0]] + Acknowledge(t, k);
      }
    } else {
      assert buf == [buf[0]] + t;
    }
  }

  /** On an increasing buffer, removing the first match removes every match: an ack
      prunes exactly the entries with id `k` and keeps all the others, in order. */
  lemma {:induction false} AcknowledgeIsWithoutId(buf: seq<Entry>, k: int)
    requires Increasing(buf)
    ensures Acknowledge(buf, k) == WithoutId(buf, k)
    decreases |buf|
  {
    if |buf| > 0 {
      var t := buf[1..];
      IncreasingTail(buf);
      if buf[0].id == k {
        assert FirstIndexOf(buf, k) == 0;
        assert Acknowledge(buf, k) == t;
        assert WithoutId(buf, k) == WithoutId(t, k);
        WithoutAbsentId(t, k);
      } else {
        AcknowledgeIsWithoutId(t, k);
        AcknowledgeCons(buf, k);
        assert WithoutId(buf, k) == [buf[0]] + WithoutId(t, k);
      }
    }
  }

  /** Acknowledging keeps the buffer invariant and leaves no entry with the acked id. */
  lemma AcknowledgePreservesWellFormed(s: Session, k: int)
    requires WellFormed(s)
    ensures WellFormed(s.(writeBuffer := Acknowledge(s.writeBuffer, k)))
    ensures forall j :: 0 <= j < |Acknowledge(s.writeBuffer, k)| ==> Acknowledge(s.writeBuffer, k)[j].id != k
  {
    var buf := s.writeBuffer;
    var i := FirstIndexOf(buf, k);
    if i < |buf| {
      var r := buf[..i] + buf[i + 1..];
      assert |r| == |buf| - 1;
      forall p, q | 0 <= p < q < |r|
        ensures r[p].id < r[q].id
      {
        var p' := if p < i then p else p + 1;
        var q' := if q < i then q else q + 1;
        assert r[p] == buf[p'] && r[q] == buf[q'];
      }
      forall j | 0 <= j < |r|
        ensures 1 <= r[j].id <= s.packetCount && r[j].id != k
      {
        var j' := if j < i then j else j + 1;
        assert r[j] == buf[j'];
        if j' > i {
          assert buf[i].id < buf[j'].id;
        }
      }
    }
  }

  /** On an increasing buffer the replay set is a suffix: everything from the first id
      above `last` onward, and nothing before it. */
  lemma {:induction false} MissedIsSuffix(buf: seq<Entry>, last: int)
    requires Increasing(buf)
    ensures MissedAfter(buf, Some(last)) == buf[FirstAbove(buf, last)..]
    decreases |buf|
  {
    if |buf| > 0 {
      var t := buf[1..];
      IncreasingTail(buf);
      MissedIsSuffix(t, last);
      if buf[0].id > last {
        assert FirstAbove(t, last) == 0 by {
          if |t| > 0 {
            assert t[0].id > last;
          }
        }
        calc {
          MissedAfter(buf, Some(last));
          [buf[0]] + MissedAfter(t, Some(last));
          [buf[0]] + t;
          buf;
          buf[FirstAbove(buf, last)..];
        }
      } else {
        calc {
          MissedAfter(buf, Some(last));
          [] + MissedAfter(t, Some(last));
          t[FirstAbove(t, last)..];
          { assert FirstAbove(buf, last) == 1 + FirstAbove(t, last); }
          buf[FirstAbove(buf, last)..];
        }
      }
    }
  }
}
