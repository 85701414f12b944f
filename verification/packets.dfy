/**
 * The values the reliable server exchanges with its sockets, as logical shapes.
 * Encoding to bytes is done by an external packet codec and is not modelled.
 */
module Packets {

  /** Identifiers handed out by the id generator: pending (`_tid`) and session (`_sid`) ids. */
  type Id = string

  /** The identity of one transport socket object. */
  type SocketRef = nat

  /** An application payload passed to a socket's `send`/`write`. */
  type Payload = string

  /** One sequenced outbound message: the `[id, data]` pair kept in a write buffer. */
  datatype Entry = Entry(id: int, data: Payload)

  /** What the server transmits through a socket's original send function. */
  datatype Packet =
    | Sid(session: Id)             // the new session id, first thing onOpen sends
    | Message(entries: seq<Entry>) // sequenced data: one write, or onOpen's batch
    | Missed(entry: Entry)         // one entry replayed during a reconnect

  /** The observable side effects of the server, in the order they happen. */
  datatype Event =
    | Sent(socket: SocketRef, packet: Packet)
    | Neutralised(socket: SocketRef)   // the socket's send and write became no-ops
    | Closed(socket: SocketRef)
}
