/**
 * The event handlers of backend/server.js (video rooms, signalling relay,
 * collaboration chat log, typing presence) as pure transitions.
 */
module SignalServer {
  import opened Wrappers
  import opened Strings
  import opened Members
  import opened RoomTable
  import opened Protocol

  /** The two process-wide stores: `rooms` and `chatMessages`. */
  datatype Server = Server(rooms: Table, chats: map<Id, seq<Message>>)

  /** The state after one event and the effects the handler performed, in order. */
  datatype Reply = Reply(state: Server, effects: seq<Effect>)

  /** What every handler preserves; see `ServerProperties.StepKeepsInvariant`. */
  predicate Invariant(s: Server) {
    RoomTable.Valid(s.rooms) && "" !in s.chats
  }

  /** Both fields truthy: the guard `!roomId || !userId` is false. */
  predicate Complete(q: RoomRequest) {
    q.roomId != "" && q.userId != ""
  }

  function Refuse(s: Server, message: string): (r: Reply)
    ensures r.state == s && r.effects == [Emit(ToSender, Error(message))]
  {
    Reply(s, [Emit(ToSender, Error(message))])
  }

  /** `User${Math.floor(Math.random() * 1000)}`, with the random draw as `roll`. */
  function DisplayName(roll: nat): (name: string)
    ensures 5 <= |name| <= 7 && name[..4] == "User"
    ensures forall i :: 4 <= i < |name| ==> IsDigit(name[i])
  {
    var digits := Decimal(roll % 1000);
    assert |digits| <= 3 by {
      if roll % 1000 >= 10 {
        assert Decimal(roll % 1000) == Decimal(roll % 1000 / 10) + [DigitChar(roll % 1000 % 10)];
        if roll % 1000 / 10 >= 10 {
          assert Decimal(roll % 1000 / 10) == Decimal(roll % 1000 / 10 / 10) + [DigitChar(roll % 1000 / 10 % 10)];
        }
      }
    }
    "User" + digits
  }

  /** create-room (backend/server.js:68-91). */
  function HandleCreateRoom(s: Server, request: Option<RoomRequest>): (r: Reply)
    ensures r.state.chats == s.chats
    ensures request.None? ==> r == Refuse(s, CreateFailed)
    ensures request.Some? && !Complete(request.value) ==> r == Refuse(s, MissingFields)
    ensures request.Some? && Complete(request.value) && Find(s.rooms, request.value.roomId).Some? ==>
                  r == Refuse(s, RoomExists)
    ensures request.Some? && Complete(request.value) && Find(s.rooms, request.value.roomId).None? ==>
                  var q := request.value;
                  && Find(r.state.rooms, q.roomId) == Some(Room(q.userId, [q.userId]))
                  && (forall k :: k != q.roomId ==> Find(r.state.rooms, k) == Find(s.rooms, k))
                  && Ids(r.state.rooms) == Ids(s.rooms) + [q.roomId]
                  && r.effects == [Subscribe(q.roomId), Emit(ToSender, RoomCreated(q.roomId))]
  {
    match request
    case None => Refuse(s, CreateFailed)
    case Some(q) =>
      if !Complete(q) then Refuse(s, MissingFields)
      else if Find(s.rooms, q.roomId).None? then
        PutFacts(s.rooms, q.roomId, Room(q.userId, [q.userId]));
        Reply(s.(rooms := Put(s.rooms, q.roomId, Room(q.userId, [q.userId]))),
              [Subscribe(q.roomId), Emit(ToSender, RoomCreated(q.roomId))])
      else Refuse(s, RoomExists)
  }

  /**
   * The `existing-participants` list: each id with a fresh random name
   * (draws 1, 2, ...; draw 0 named the joiner) and whether it is the host.
   */
  function Roster(ids: seq<Id>, host: Id, rolls: nat -> nat): (r: seq<Participant>)
    ensures |r| == |ids|
    ensures forall i :: 0 <= i < |r| ==> r[i].id == ids[i] && (r[i].isHost <==> ids[i] == host)
  {
    seq(|ids|, i requires 0 <= i < |ids| => Participant(ids[i], DisplayName(rolls(i + 1)), ids[i] == host))
  }

  /** The room after `user` joins it: same host, the joiner added once, at the end if new. */
  function Joined(room: Room, user: Id): (r: Room)
    ensures r.host == room.host
    ensures forall x :: x in r.participants <==> x in room.participants || x == user
    ensures |room.participants| <= |r.participants| && r.participants[..|room.participants|] == room.participants
    ensures r == room <==> user in room.participants
    ensures ValidRoom(room) && user != "" ==> ValidRoom(r)
  {
    room.(participants := Add(room.participants, user))
  }

  /** A join-room request that gets past the checks: a payload with both fields, for a live room. */
  predicate Admitted(s: Server, request: Option<RoomRequest>) {
    request.Some? && Complete(request.value) && Find(s.rooms, request.value.roomId).Some?
  }

  /** join-room (backend/server.js:93-130). */
  function HandleJoinRoom(s: Server, request: Option<RoomRequest>, rolls: nat -> nat): (r: Reply)
    ensures r.state.chats == s.chats
    ensures request.None? ==> r == Refuse(s, JoinFailed)
    ensures request.Some? && !Complete(request.value) ==> r == Refuse(s, MissingFields)
    ensures request.Some? && Complete(request.value) && Find(s.rooms, request.value.roomId).None? ==>
                  r == Refuse(s, NoSuchRoom)
    ensures Admitted(s, request) ==>
              Find(r.state.rooms, request.value.roomId) == Some(Joined(Find(s.rooms, request.value.roomId).value, request.value.userId))
    ensures Admitted(s, request) ==>
              forall k :: k != request.value.roomId ==> Find(r.state.rooms, k) == Find(s.rooms, k)
    ensures Admitted(s, request) ==> Ids(r.state.rooms) == Ids(s.rooms)
    ensures Admitted(s, request) ==> |r.effects| == 4
    ensures Admitted(s, request) ==>
              && r.effects[0] == Subscribe(request.value.roomId)
              && r.effects[1] == Emit(ToSender, RoomJoined(request.value.roomId))
    ensures Admitted(s, request) ==>
              r.effects[2] == Emit(ToOthers(request.value.roomId),
                                   UserJoined(Participant(request.value.userId, DisplayName(rolls(0)), false)))
    ensures Admitted(s, request) ==> r.effects[3].Emit? && r.effects[3].target == ToSender
    ensures Admitted(s, request) ==> r.effects[3].event.ExistingParticipants?
  {
    match request
    case None => Refuse(s, JoinFailed)
    case Some(q) =>
      if !Complete(q) then Refuse(s, MissingFields)
      else match Find(s.rooms, q.roomId)
        case None => Refuse(s, NoSuchRoom)
        case Some(room) =>
          var joined := Joined(room, q.userId);
          PutFacts(s.rooms, q.roomId, joined);
          Reply(s.(rooms := Put(s.rooms, q.roomId, joined)),
                [ Subscribe(q.roomId),
                  Emit(ToSender, RoomJoined(q.roomId)),
                  Emit(ToOthers(q.roomId), UserJoined(Participant(q.userId, DisplayName(rolls(0)), false))),
                  Emit(ToSender, ExistingParticipants(Roster(Remove(joined.participants, q.userId), room.host, rolls))) ])
  }

  /** The roster a successful join sends back: the joined room's members other than the joiner. */
  lemma JoinRoster(s: Server, q: RoomRequest, rolls: nat -> nat)
    requires Complete(q) && Find(s.rooms, q.roomId).Some?
    ensures var room := Find(s.rooms, q.roomId).value;
            HandleJoinRoom(s, Some(q), rolls).effects[3]
              == Emit(ToSender, ExistingParticipants(Roster(Remove(Joined(room, q.userId).participants, q.userId), room.host, rolls)))
  {
  }

  /** `room-ended` to the room channel, then to each participant's own channel. */
  function EndNotices(roomId: Id, participants: seq<Id>): (r: seq<Effect>)
    ensures |r| == |participants| + 1
    ensures r[0] == Emit(ToChannel(roomId), RoomEnded)
    ensures forall i :: 0 <= i < |participants| ==> r[i + 1] == Emit(ToChannel(participants[i]), RoomEnded)
  {
    [Emit(ToChannel(roomId), RoomEnded)]
      + seq(|participants|, i requires 0 <= i < |participants| => Emit(ToChannel(participants[i]), RoomEnded))
  }

  /** end-room (backend/server.js:132-145): only the host may end a room; others are ignored. */
  function HandleEndRoom(s: Server, q: RoomRequest): (r: Reply)
    ensures r.state.chats == s.chats
    ensures (Find(s.rooms, q.roomId).Some? && Find(s.rooms, q.roomId).value.host == q.userId) ==>
                  && Find(r.state.rooms, q.roomId).None?
                  && Ids(r.state.rooms) == Remove(Ids(s.rooms), q.roomId)
                  && (forall k :: k != q.roomId ==> Find(r.state.rooms, k) == Find(s.rooms, k))
                  && r.effects == EndNotices(q.roomId, Find(s.rooms, q.roomId).value.participants)
    ensures !(Find(s.rooms, q.roomId).Some? && Find(s.rooms, q.roomId).value.host == q.userId) ==>
                  r == Reply(s, [])
  {
    match Find(s.rooms, q.roomId)
    case Some(room) =>
      if room.host == q.userId then
        Reply(s.(rooms := Delete(s.rooms, q.roomId)), EndNotices(q.roomId, room.participants))
      else Reply(s, [])
    case None => Reply(s, [])
  }

  /** offer / answer / ice-candidate (backend/server.js:147-175): forwarded only while the room exists. */
  function RelaySignal(s: Server, kind: SignalKind, q: SignalRequest): (r: Reply)
    ensures r.state == s
    ensures Find(s.rooms, q.roomId).Some? ==> r.effects == [Emit(ToOthers(q.targetUserId), Signal(kind, q.userId, q.payload))]
    ensures Find(s.rooms, q.roomId).None? ==> r.effects == []
  {
    if Find(s.rooms, q.roomId).Some? then
      Reply(s, [Emit(ToOthers(q.targetUserId), Signal(kind, q.userId, q.payload))])
    else Reply(s, [])
  }

  /** join-collaboration (backend/server.js:178-200): creates the log lazily and replays it. */
  function HandleJoinCollaboration(s: Server, request: Option<RoomRequest>): (r: Reply)
    ensures r.state.rooms == s.rooms
    ensures request.None? ==> r == Refuse(s, CollaborationFailed)
    ensures request.Some? && !Complete(request.value) ==> r == Refuse(s, MissingFields)
    ensures request.Some? && Complete(request.value) ==>
              var id := request.value.roomId;
              && id in r.state.chats
              && (id in s.chats ==> r.state.chats == s.chats)
              && (id !in s.chats ==> r.state.chats == s.chats[id := []])
              && r.effects == [Subscribe(id), Emit(ToSender, ExistingMessages(id, r.state.chats[id]))]
  {
    match request
    case None => Refuse(s, CollaborationFailed)
    case Some(q) =>
      if !Complete(q) then Refuse(s, MissingFields)
      else
        var chats := if q.roomId in s.chats then s.chats else s.chats[q.roomId := []];
        Reply(s.(chats := chats), [Subscribe(q.roomId), Emit(ToSender, ExistingMessages(q.roomId, chats[q.roomId]))])
  }

  /** The stored copy of a posted message: a missing id or timestamp is filled in from the clock. */
  function Stamp(m: Message, env: Env): (r: Message)
    ensures r.sender == m.sender && r.content == m.content && r.kind == m.kind
    ensures m.id != "" ==> r.id == m.id
    ensures m.id == "" ==> r.id == Decimal(env.millis)
    ensures m.timestamp != "" ==> r.timestamp == m.timestamp
    ensures m.timestamp == "" ==> r.timestamp == env.isoNow
    ensures r.id != ""
  {
    m.(id := if m.id != "" then m.id else Decimal(env.millis),
       timestamp := if m.timestamp != "" then m.timestamp else env.isoNow)
  }

  /** The log of a room, empty before its first message. */
  function Log(chats: map<Id, seq<Message>>, id: Id): seq<Message> {
    if id in chats then chats[id] else []
  }

  /** message (backend/server.js:202-231): append exactly one entry and broadcast it to the room. */
  function PostMessage(s: Server, post: Option<PostRequest>, env: Env): (r: Reply)
    ensures r.state.rooms == s.rooms
    ensures (post.None? || post.value.roomId == "" || post.value.message.None?) ==> r == Reply(s, [])
    ensures post.Some? && post.value.roomId != "" && post.value.message.Some? ==>
              var id := post.value.roomId;
              var stored := Stamp(post.value.message.value, env);
              && id in r.state.chats
              && r.state.chats[id] == Log(s.chats, id) + [stored]
              && (forall k :: k != id ==> Log(r.state.chats, k) == Log(s.chats, k))
              && r.state.chats.Keys == s.chats.Keys + {id}
              && r.effects == [Emit(ToChannel(id), Posted(stored))]
  {
    match post
    case None => Reply(s, [])
    case Some(p) =>
      match p.message
      case None => Reply(s, [])
      case Some(m) =>
        if p.roomId == "" then Reply(s, [])
        else
          var stored := Stamp(m, env);
          Reply(s.(chats := s.chats[p.roomId := Log(s.chats, p.roomId) + [stored]]),
                [Emit(ToChannel(p.roomId), Posted(stored))])
  }

  /** typing / stopped-typing (backend/server.js:233-275): relayed to the room except the sender. */
  function Presence(s: Server, request: Option<RoomRequest>, started: bool): (r: Reply)
    ensures r.state == s
    ensures (request.None? || !Complete(request.value)) ==> r.effects == []
    ensures request.Some? && Complete(request.value) ==>
              && |r.effects| == 1
              && r.effects[0].Emit? && r.effects[0].target == ToOthers(request.value.roomId)
              && (started ==> r.effects[0].event == UserTyping(request.value.userId, true))
              && (!started ==> r.effects[0].event == UserStoppedTyping(request.value.userId, false))
  {
    match request
    case None => Reply(s, [])
    case Some(q) =>
      if !Complete(q) then Reply(s, [])
      else if started then Reply(s, [Emit(ToOthers(q.roomId), UserTyping(q.userId, true))])
      else Reply(s, [Emit(ToOthers(q.roomId), UserStoppedTyping(q.userId, false))])
  }

  /** What is left of one room after `conn` leaves it, and what is emitted. */
  datatype Departure = Departure(remaining: Option<Room>, effects: seq<Effect>)

  /**
   * One room's part of the disconnect sweep (backend/server.js:51-63), for a
   * room that holds `conn`: a host that leaves hands over to the first
   * remaining participant; the last one out deletes the room.
   */
  function Depart(roomId: Id, room: Room, conn: Id): (d: Departure)
    ensures |d.effects| >= 1 && d.effects[0] == Emit(ToChannel(roomId), UserLeft(conn))
    ensures d.remaining.None? <==> (forall x :: x in room.participants ==> x == conn)
    ensures d.remaining.Some? ==> d.remaining.value.participants == Remove(room.participants, conn)
    ensures d.remaining.Some? && room.host != conn ==> d.remaining.value.host == room.host
    ensures d.remaining.Some? && room.host == conn ==>
                  d.remaining.value.host in room.participants && d.remaining.value.host != conn
    ensures d.remaining.Some? && room.host == conn ==>
                  d.effects == [ Emit(ToChannel(roomId), UserLeft(conn)),
                                 Emit(ToChannel(d.remaining.value.host), NewHost(d.remaining.value.host)),
                                 Emit(ToChannel(roomId), NewHost(d.remaining.value.host)) ]
    ensures !(d.remaining.Some? && room.host == conn) ==> d.effects == [Emit(ToChannel(roomId), UserLeft(conn))]
    ensures ValidRoom(room) && d.remaining.Some? ==> ValidRoom(d.remaining.value)
  {
    var rest := Remove(room.participants, conn);
    var left := Emit(ToChannel(roomId), UserLeft(conn));
    if room.host == conn && |rest| > 0 then
      assert rest[0] in rest;
      Departure(Some(Room(rest[0], rest)), [left, Emit(ToChannel(rest[0]), NewHost(rest[0])), Emit(ToChannel(roomId), NewHost(rest[0]))])
    else if |rest| == 0 then
      Departure(None, [left])
    else
      assert rest[0] in rest;
      Departure(Some(room.(participants := rest)), [left])
  }

  /** A room as it stands after the sweep for `conn`. */
  function AfterLeave(found: Option<Room>, roomId: Id, conn: Id): Option<Room> {
    match found
    case None => None
    case Some(room) => if conn in room.participants then Depart(roomId, room, conn).remaining else found
  }

  datatype Sweep = Sweep(rooms: Table, effects: seq<Effect>)

  /**
   * The ids of the rooms that outlive the departure of `conn`, in table
   * order: `Map.delete` inside `forEach` keeps the other keys where they were.
   */
  function Survivors(t: Table, conn: Id): (r: seq<Id>)
    ensures |r| <= |t|
    ensures forall k :: k in r ==> k in Ids(t)
    ensures forall e :: e in t && Kept(e, conn).Some? ==> e.id in r
  {
    if t == [] then []
    else
      assert Ids(t) == [t[0].id] + Ids(t[1..]);
      assert forall e :: e in t ==> e == t[0] || e in t[1..];
      (if Kept(t[0], conn).Some? then [t[0].id] else []) + Survivors(t[1..], conn)
  }

  /** `rooms.forEach(...)` in the disconnect handler: every room, in insertion order. */
  function SweepRooms(t: Table, conn: Id): (r: Sweep)
    ensures Ids(r.rooms) == Survivors(t, conn)
    ensures forall k :: k in Ids(r.rooms) ==> k in Ids(t)
    ensures forall e :: e in t && conn !in e.room.participants ==> e in r.rooms
    ensures forall e :: e in r.rooms ==> conn !in e.room.participants
  {
    if t == [] then Sweep([], [])
    else
      var e := t[0];
      var rest := SweepRooms(t[1..], conn);
      assert Ids(t) == [e.id] + Ids(t[1..]);
      var kept := Kept(e, conn);
      if kept.None? then
        Sweep(rest.rooms, Notices(e, conn) + rest.effects)
      else
        var rooms := [Entry(e.id, kept.value)] + rest.rooms;
        assert Ids(rooms) == [e.id] + Ids(rest.rooms);
        Sweep(rooms, Notices(e, conn) + rest.effects)
  }

  /** The sweep keeps ids unique and every remaining room valid. */
  lemma {:induction false} SweepKeepsValid(t: Table, conn: Id)
    requires NoDup(Ids(t)) && forall e :: e in t ==> ValidRoom(e.room)
    ensures NoDup(Ids(SweepRooms(t, conn).rooms))
    ensures forall e :: e in SweepRooms(t, conn).rooms ==> ValidRoom(e.room)
  {
    if t != [] {
      var e := t[0];
      var rest := SweepRooms(t[1..], conn);
      assert t == [e] + t[1..];
      IdsCons(e, t[1..]);
      NoDupCons(e.id, Ids(t[1..]));
      forall x | x in t[1..] ensures ValidRoom(x.room) {
        assert x in t;
      }
      SweepKeepsValid(t[1..], conn);
      var kept := Kept(e, conn);
      if kept.Some? {
        var entry := Entry(e.id, kept.value);
        assert SweepRooms(t, conn).rooms == [entry] + rest.rooms;
        IdsCons(entry, rest.rooms);
        NoDupCons(e.id, Ids(rest.rooms));
        assert ValidRoom(e.room);
      } else {
        assert SweepRooms(t, conn).rooms == rest.rooms;
      }
    }
  }

  /** The room of entry `e` after the sweep for `conn` reaches it. */
  function Kept(e: Entry, conn: Id): (r: Option<Room>)
    ensures r == AfterLeave(Some(e.room), e.id, conn)
  {
    if conn in e.room.participants then Depart(e.id, e.room, conn).remaining else Some(e.room)
  }

  /** What the sweep emits for entry `e`: nothing unless `conn` is in that room. */
  function Notices(e: Entry, conn: Id): seq<Effect> {
    if conn in e.room.participants then Depart(e.id, e.room, conn).effects else []
  }

  /** The sweep acts on each room on its own: the table after it is the per-room outcome. */
  lemma {:induction false} SweepActsPerRoom(t: Table, conn: Id, k: Id)
    requires NoDup(Ids(t))
    ensures Find(SweepRooms(t, conn).rooms, k) == AfterLeave(Find(t, k), k, conn)
  {
    if t != [] {
      var e := t[0];
      var rest := SweepRooms(t[1..], conn);
      assert Ids(t) == [e.id] + Ids(t[1..]);
      NoDupCons(e.id, Ids(t[1..]));
      SweepActsPerRoom(t[1..], conn, k);
      var kept := Kept(e, conn);
      var rooms := SweepRooms(t, conn).rooms;
      if kept.Some? {
        assert rooms == [Entry(e.id, kept.value)] + rest.rooms;
        assert rooms[1..] == rest.rooms;
      } else {
        assert rooms == rest.rooms;
        if k == e.id {
          assert k !in Ids(t[1..]);
          assert k !in Ids(rest.rooms);
        }
      }
    }
  }

  /** The departure notices of every room in table order: what `rooms.forEach` emits, room after room. */
  function AllNotices(t: Table, conn: Id): seq<Effect> {
    if t == [] then [] else Notices(t[0], conn) + AllNotices(t[1..], conn)
  }

  /**
   * What the sweep emits: the rooms' departure notices in table order;
   * nothing exactly when no room lists `conn`; every notice comes from the
   * departure of `conn` from a room that lists it; and every notice of every
   * such departure is emitted, `user-left` first among them.
   */
  lemma {:induction false} SweepEmits(t: Table, conn: Id)
    ensures SweepRooms(t, conn).effects == AllNotices(t, conn)
    ensures SweepRooms(t, conn).effects == [] <==> forall e :: e in t ==> conn !in e.room.participants
    ensures forall f :: f in SweepRooms(t, conn).effects ==>
              exists e :: e in t && conn in e.room.participants && f in Depart(e.id, e.room, conn).effects
    ensures forall e, f :: e in t && conn in e.room.participants && f in Depart(e.id, e.room, conn).effects ==>
              f in SweepRooms(t, conn).effects
    ensures forall e :: e in t && conn in e.room.participants ==>
              Emit(ToChannel(e.id), UserLeft(conn)) in SweepRooms(t, conn).effects
  {
    if t != [] {
      var head := t[0];
      var rest := SweepRooms(t[1..], conn);
      SweepEmits(t[1..], conn);
      var effects := SweepRooms(t, conn).effects;
      assert effects == Notices(head, conn) + rest.effects;
      assert forall e :: e in t <==> e == head || e in t[1..];
      forall f | f in effects
        ensures exists e :: e in t && conn in e.room.participants && f in Depart(e.id, e.room, conn).effects
      {
        if f in Notices(head, conn) {
          assert head in t;
        }
      }
      if conn in head.room.participants {
        assert Notices(head, conn)[0] == Emit(ToChannel(head.id), UserLeft(conn));
      }
    }
  }

  lemma SweepActsOnEveryRoom(t: Table, conn: Id)
    ensures NoDup(Ids(t)) ==> forall k :: Find(SweepRooms(t, conn).rooms, k) == AfterLeave(Find(t, k), k, conn)
  {
    if NoDup(Ids(t)) {
      forall k ensures Find(SweepRooms(t, conn).rooms, k) == AfterLeave(Find(t, k), k, conn) {
        SweepActsPerRoom(t, conn, k);
      }
    }
  }

  /** disconnect (backend/server.js:46-65): the connection's id leaves every room that lists it. */
  function HandleDisconnect(s: Server, conn: Id): (r: Reply)
    ensures r.state.chats == s.chats
    ensures NoDup(Ids(s.rooms)) ==> forall k :: Find(r.state.rooms, k) == AfterLeave(Find(s.rooms, k), k, conn)
    ensures Ids(r.state.rooms) == Survivors(s.rooms, conn)
    ensures r.effects == [] <==> forall e :: e in s.rooms ==> conn !in e.room.participants
    ensures r.effects == AllNotices(s.rooms, conn)
    ensures forall f :: f in r.effects ==>
              exists e :: e in s.rooms && conn in e.room.participants && f in Depart(e.id, e.room, conn).effects
    ensures forall e :: e in s.rooms && conn in e.room.participants ==>
              Emit(ToChannel(e.id), UserLeft(conn)) in r.effects
  {
    var sweep := SweepRooms(s.rooms, conn);
    SweepActsOnEveryRoom(s.rooms, conn);
    SweepEmits(s.rooms, conn);
    Reply(s.(rooms := sweep.rooms), sweep.effects)
  }

  /** The event dispatcher: one inbound event from connection `conn`. */
  function Step(s: Server, conn: Id, event: Inbound, env: Env): Reply {
    match event
    case Disconnect => HandleDisconnect(s, conn)
    case CreateRoom(request) => HandleCreateRoom(s, request)
    case JoinRoom(request) => HandleJoinRoom(s, request, env.rolls)
    case EndRoom(q) => HandleEndRoom(s, q)
    case Relay(kind, q) => RelaySignal(s, kind, q)
    case JoinCollaboration(request) => HandleJoinCollaboration(s, request)
    case Post(post) => PostMessage(s, post, env)
    case Typing(request) => Presence(s, request, true)
    case StoppedTyping(request) => Presence(s, request, false)
  }
}
