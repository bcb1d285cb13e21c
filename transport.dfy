/**
 The pieces of the socket.io transport that the two managers touch: a
 client socket as the managers see it, the payload objects they pass to
 `socket.emit`, and an outbox entry recording one such call.
 */
module Transport {

  /** `null` / `undefined` results of the managers' lookups. */
  datatype Option<T> = None | Some(value: T)

  /** A client connection: the id the transport assigned to it and whether
      the connection is still open (`socket.connected`). */
  datatype Socket = Socket(id: string, connected: bool)

  /** The payload objects passed to `socket.emit`. */
  datatype Payload =
    | ConnectionInfo(roomId: string, user: string)   // { roomId, User }
    | RoomInfo(roomId: string)                        // { roomId }
    | OfferInfo(roomId: string, offer: string)        // { roomId, offer }
    | AnswerInfo(roomId: string, answer: string)      // { roomId, answer }

  /** One `socket.emit(event, payload)` call on the socket whose id is `to`. */
  datatype Emit = Emit(to: string, event: string, payload: Payload)
}
