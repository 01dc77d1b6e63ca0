/**
 * The Socket.IO events of backend/server.js, as data. Every handler is a
 * pure function from the server state and one inbound event to the new
 * state and the list of effects it performs, in the order it performs them.
 *
 * String fields use "" for a field that is absent: every id the server stores
 * is non-empty, so a missing field and an empty one take the same branch in
 * every handler.
 */
module Protocol {
  import opened Wrappers
  import opened RoomTable

  /** A chat message as posted by a client and stored by the server. */
  datatype Message = Message(id: string, sender: string, content: string, timestamp: string, kind: string)

  /** `{ roomId, userId }`, the payload of most room events. */
  datatype RoomRequest = RoomRequest(roomId: Id, userId: Id)

  /** `{ roomId, userId, targetUserId, signal | candidate }`; the signal is opaque. */
  datatype SignalRequest = SignalRequest(roomId: Id, userId: Id, targetUserId: Id, payload: string)

  /** `{ roomId, message }` of the `message` event. */
  datatype PostRequest = PostRequest(roomId: Id, message: Option<Message>)

  datatype SignalKind = Offer | Answer | IceCandidate

  /**
   * Inbound events. `None` is a payload that is `undefined` or `null`;
   * `end-room` and the relay events read their payload outside any `try`,
   * so the model gives them one always.
   */
  datatype Inbound =
    | Disconnect
    | CreateRoom(request: Option<RoomRequest>)
    | JoinRoom(request: Option<RoomRequest>)
    | EndRoom(end: RoomRequest)
    | Relay(kind: SignalKind, signal: SignalRequest)
    | JoinCollaboration(request: Option<RoomRequest>)
    | Post(post: Option<PostRequest>)
    | Typing(request: Option<RoomRequest>)
    | StoppedTyping(request: Option<RoomRequest>)

  /** One entry of `existing-participants`, and the payload of `user-joined`. */
  datatype Participant = Participant(id: Id, name: string, isHost: bool)

  /** Outbound events with their payloads. */
  datatype Outbound =
    | RoomCreated(roomId: Id)
    | RoomJoined(roomId: Id)
    | UserJoined(joiner: Participant)
    | ExistingParticipants(participants: seq<Participant>)
    | UserLeft(leaver: Id)
    | NewHost(newHostId: Id)
    | RoomEnded
    | Error(message: string)
    | Signal(kind: SignalKind, from: Id, payload: string)
    | ExistingMessages(roomId: Id, messages: seq<Message>)
    | Posted(stored: Message)
    | UserTyping(userId: Id, isTyping: bool)
    | UserStoppedTyping(userId: Id, isTyping: bool)

  /**
   * Who an emit reaches. `ToSender` is `socket.emit`; `ToChannel(c)` is
   * `io.to(c)`, every connection subscribed to channel `c`; `ToOthers(c)` is
   * `socket.to(c)`, the same set without the sending connection. A
   * connection is always subscribed to the channel named by its own id.
   */
  datatype Target = ToSender | ToChannel(channel: Id) | ToOthers(channel: Id)

  /** `socket.join(c)`, or one emit. */
  datatype Effect = Subscribe(channel: Id) | Emit(target: Target, event: Outbound)

  /** The values the handlers read from outside: the clock and `Math.random()`. */
  datatype Env = Env(millis: nat, isoNow: string, rolls: nat -> nat)

  const MissingFields := "Missing required fields"
  const RoomExists := "Room already exists"
  const NoSuchRoom := "Room does not exist"
  const CreateFailed := "Error creating room"
  const JoinFailed := "Error joining room"
  const CollaborationFailed := "Error joining collaboration"
}
