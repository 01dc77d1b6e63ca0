/**
 * Properties of the server model that relate several calls: the store
 * invariant every event preserves, the host hand-over on disconnect, the
 * `existing-participants` snapshot, chat-log replay, the events a disconnect
 * emits, and example scenarios of create, join, leave and end.
 */
module ServerProperties {
  import opened Wrappers
  import opened Strings
  import opened Members
  import opened RoomTable
  import opened Protocol
  import opened SignalServer

  /** Every handler keeps each room non-empty with its host among its participants. */
  lemma StepKeepsInvariant(s: Server, conn: Id, event: Inbound, env: Env)
    requires Invariant(s)
    ensures Invariant(Step(s, conn, event, env).state)
  {
    match event
    case Disconnect =>
      SweepKeepsValid(s.rooms, conn);
    case CreateRoom(request) =>
      if request.Some? && Complete(request.value) && Find(s.rooms, request.value.roomId).None? {
        var q := request.value;
        PutKeepsValid(s.rooms, q.roomId, Room(q.userId, [q.userId]));
      }
    case JoinRoom(request) =>
      if request.Some? && Complete(request.value) && Find(s.rooms, request.value.roomId).Some? {
        var q := request.value;
        var room := Find(s.rooms, q.roomId).value;
        FoundRoomIsValid(s.rooms, q.roomId);
        PutKeepsValid(s.rooms, q.roomId, room.(participants := Add(room.participants, q.userId)));
      }
    case EndRoom(q) =>
      DeleteKeepsValid(s.rooms, q.roomId);
    case Relay(_, _) =>
    case JoinCollaboration(_) =>
    case Post(_) =>
    case Typing(_) =>
    case StoppedTyping(_) =>
  }

  /** One inbound event: the connection it came from, the event, and the clock and dice at that moment. */
  datatype Arrival = Arrival(conn: Id, event: Inbound, env: Env)

  /** The server after handling `arrivals` one at a time, to completion, in order. */
  function Run(s: Server, arrivals: seq<Arrival>): Server
    decreases |arrivals|
  {
    if arrivals == [] then s
    else Run(Step(s, arrivals[0].conn, arrivals[0].event, arrivals[0].env).state, arrivals[1..])
  }

  /** The invariant survives any sequence of events handled one at a time. */
  lemma {:induction false} RunKeepsInvariant(s: Server, arrivals: seq<Arrival>)
    requires Invariant(s)
    ensures Invariant(Run(s, arrivals))
    decreases |arrivals|
  {
    if arrivals != [] {
      StepKeepsInvariant(s, arrivals[0].conn, arrivals[0].event, arrivals[0].env);
      RunKeepsInvariant(Step(s, arrivals[0].conn, arrivals[0].event, arrivals[0].env).state, arrivals[1..]);
    }
  }

  /** The empty server, as the process starts. */
  const Empty := Server([], map[])

  /** The invariant holds in every state reachable from the empty server. */
  lemma ReachableStatesKeepInvariant(arrivals: seq<Arrival>)
    ensures Invariant(Run(Empty, arrivals))
  {
    assert Ids(Empty.rooms) == [];
    RunKeepsInvariant(Empty, arrivals);
  }

  /**
   * Nothing a departure announces is lost: every notice of the departure of
   * `conn` from a room that lists it, a hand-over's two `new-host` events
   * included, is among the events the disconnect emits.
   */
  lemma DisconnectEmitsEveryNotice(s: Server, conn: Id, e: Entry, f: Effect)
    requires e in s.rooms && conn in e.room.participants
    requires f in Depart(e.id, e.room, conn).effects
    ensures f in HandleDisconnect(s, conn).effects
  {
    SweepEmits(s.rooms, conn);
  }

  /** A room that does not list the leaving id is untouched by the disconnect sweep. */
  lemma DisconnectSparesOtherRooms(s: Server, conn: Id, k: Id)
    requires NoDup(Ids(s.rooms))
    requires Find(s.rooms, k).Some? && conn !in Find(s.rooms, k).value.participants
    ensures Find(HandleDisconnect(s, conn).state.rooms, k) == Find(s.rooms, k)
  {
  }

  /** A participant other than the host leaves: the room stays, with the same host. */
  lemma NonHostLeaveKeepsHost(s: Server, conn: Id, k: Id)
    requires NoDup(Ids(s.rooms))
    requires Find(s.rooms, k).Some? && ValidRoom(Find(s.rooms, k).value)
    requires conn in Find(s.rooms, k).value.participants && Find(s.rooms, k).value.host != conn
    ensures var room := Find(s.rooms, k).value;
            Find(HandleDisconnect(s, conn).state.rooms, k) == Some(Room(room.host, Remove(room.participants, conn)))
  {
  }

  /**
   * The host leaves a room with others in it: the earliest-inserted remaining
   * participant becomes host and the room keeps everyone else in order.
   */
  lemma HostLeaveHandsOver(s: Server, conn: Id, k: Id)
    requires NoDup(Ids(s.rooms))
    requires Find(s.rooms, k).Some? && ValidRoom(Find(s.rooms, k).value)
    requires Find(s.rooms, k).value.host == conn && |Find(s.rooms, k).value.participants| >= 2
    ensures var p := Find(s.rooms, k).value.participants;
            var heir := if p[0] == conn then p[1] else p[0];
            Find(HandleDisconnect(s, conn).state.rooms, k) == Some(Room(heir, Remove(p, conn)))
  {
    FirstSurvivor(Find(s.rooms, k).value.participants, conn);
  }

  /** The last participant leaves: the room is deleted. */
  lemma LastLeaveDeletesRoom(s: Server, conn: Id, k: Id)
    requires NoDup(Ids(s.rooms))
    requires Find(s.rooms, k).Some? && Find(s.rooms, k).value.participants == [conn]
    ensures Find(HandleDisconnect(s, conn).state.rooms, k).None?
  {
    var room := Find(s.rooms, k).value;
    assert Depart(k, room, conn).remaining.None?;
    assert AfterLeave(Find(s.rooms, k), k, conn).None?;
  }

  /** The host of a two-person room disconnects: `user-left`, then `new-host` to the heir and to the room. */
  lemma HostDisconnectNotices(r: Id, host: Id, other: Id)
    requires host != other
    ensures HandleDisconnect(Server([Entry(r, Room(host, [host, other]))], map[]), host).effects
              == [Emit(ToChannel(r), UserLeft(host)), Emit(ToChannel(other), NewHost(other)), Emit(ToChannel(r), NewHost(other))]
  {
    var t := [Entry(r, Room(host, [host, other]))];
    assert Remove([host, other], host) == [other] by {
      assert [host, other][1..] == [other];
      assert Remove([other], host) == [other];
    }
    var notices := [Emit(ToChannel(r), UserLeft(host)), Emit(ToChannel(other), NewHost(other)), Emit(ToChannel(r), NewHost(other))];
    assert Depart(r, t[0].room, host).effects == notices;
    assert Notices(t[0], host) == notices;
    assert t[1..] == [] && SweepRooms([], host).effects == [];
    assert SweepRooms(t, host).effects == notices + [];
  }

  /** The ids listed in an `existing-participants` reply. */
  function ListedIds(ps: seq<Participant>): (r: seq<Id>)
    ensures |r| == |ps| && forall i :: 0 <= i < |ps| ==> r[i] == ps[i].id
  {
    seq(|ps|, i requires 0 <= i < |ps| => ps[i].id)
  }

  /**
   * The `existing-participants` reply to a successful join lists the room's
   * participants other than the joiner, in join order, and flags exactly the
   * host; when the room is valid and the joiner is not the host, exactly one
   * entry is flagged.
   */
  lemma ExistingParticipantsExact(s: Server, q: RoomRequest, rolls: nat -> nat)
    requires Complete(q) && Find(s.rooms, q.roomId).Some?
    ensures var room := Find(s.rooms, q.roomId).value;
            var reply := HandleJoinRoom(s, Some(q), rolls).effects[3].event;
            && reply.ExistingParticipants?
            && ListedIds(reply.participants) == Remove(room.participants, q.userId)
            && (forall i :: 0 <= i < |reply.participants| ==>
                  (reply.participants[i].isHost <==> reply.participants[i].id == room.host))
            && (ValidRoom(room) && q.userId != room.host ==>
                  exists i :: 0 <= i < |reply.participants| && reply.participants[i].isHost
                    && forall j :: 0 <= j < |reply.participants| && j != i ==> !reply.participants[j].isHost)
  {
    var room := Find(s.rooms, q.roomId).value;
    JoinRoster(s, q, rolls);
    RemoveAfterAdd(room.participants, q.userId);
    var others := Remove(room.participants, q.userId);
    RosterLists(others, room.host, rolls);
    if ValidRoom(room) && q.userId != room.host {
      RosterFlagsOne(others, room.host, rolls);
    }
  }

  /** The roster lists exactly the given ids. */
  lemma RosterLists(ids: seq<Id>, host: Id, rolls: nat -> nat)
    ensures ListedIds(Roster(ids, host, rolls)) == ids
  {
  }

  /** When the host appears once among the ids, exactly one roster entry is flagged. */
  lemma RosterFlagsOne(ids: seq<Id>, host: Id, rolls: nat -> nat)
    requires NoDup(ids) && host in ids
    ensures var ps := Roster(ids, host, rolls);
            exists i :: 0 <= i < |ps| && ps[i].isHost && forall j :: 0 <= j < |ps| && j != i ==> !ps[j].isHost
  {
    var ps := Roster(ids, host, rolls);
    var i :| 0 <= i < |ids| && ids[i] == host;
    forall j | 0 <= j < |ps| && j != i ensures !ps[j].isHost {
      assert ids[j] != ids[i];
    }
    assert ps[i].isHost;
  }

  /** Joining a room one is already in does not list anyone twice. */
  lemma RejoinDoesNotDuplicate(s: Server, q: RoomRequest, rolls: nat -> nat)
    requires Complete(q) && Find(s.rooms, q.roomId).Some?
    requires q.userId in Find(s.rooms, q.roomId).value.participants
    ensures Find(HandleJoinRoom(s, Some(q), rolls).state.rooms, q.roomId) == Find(s.rooms, q.roomId)
  {
    var room := Find(s.rooms, q.roomId).value;
    assert Add(room.participants, q.userId) == room.participants;
    assert room.(participants := room.participants) == room;
    PutFacts(s.rooms, q.roomId, room);
  }

  /** The stored copies of messages posted with the given clocks. */
  function Stamps(ms: seq<Message>, envs: seq<Env>): (r: seq<Message>)
    requires |ms| == |envs|
    ensures |r| == |ms| && forall i :: 0 <= i < |ms| ==> r[i] == Stamp(ms[i], envs[i])
  {
    seq(|ms|, i requires 0 <= i < |ms| => Stamp(ms[i], envs[i]))
  }

  lemma StampsCons(ms: seq<Message>, envs: seq<Env>)
    requires |ms| == |envs| && ms != []
    ensures Stamps(ms, envs) == [Stamp(ms[0], envs[0])] + Stamps(ms[1..], envs[1..])
  {
    var rest := Stamps(ms[1..], envs[1..]);
    forall i | 1 <= i < |ms| ensures Stamps(ms, envs)[i] == rest[i - 1] {
      assert ms[1..][i - 1] == ms[i] && envs[1..][i - 1] == envs[i];
    }
  }

  /** One post to room `id`: its log grows by the stored copy, the other logs stay. */
  lemma PostOne(s: Server, id: Id, m: Message, env: Env, k: Id)
    requires id != ""
    ensures var s1 := PostMessage(s, Some(PostRequest(id, Some(m))), env).state;
            && Log(s1.chats, id) == Log(s.chats, id) + [Stamp(m, env)]
            && (k != id ==> Log(s1.chats, k) == Log(s.chats, k))
  {
  }

  /** Posting each message of `ms` to room `id`, one event per message. */
  function PostEach(s: Server, id: Id, ms: seq<Message>, envs: seq<Env>): Server
    requires |ms| == |envs|
    decreases |ms|
  {
    if ms == [] then s
    else PostEach(PostMessage(s, Some(PostRequest(id, Some(ms[0]))), envs[0]).state, id, ms[1..], envs[1..])
  }

  /** Posts append to the room's log in post order, each exactly once. */
  lemma {:induction false} PostsAppendInOrder(s: Server, id: Id, ms: seq<Message>, envs: seq<Env>)
    requires id != "" && |ms| == |envs|
    ensures Log(PostEach(s, id, ms, envs).chats, id) == Log(s.chats, id) + Stamps(ms, envs)
    decreases |ms|
  {
    if ms != [] {
      var s1 := PostMessage(s, Some(PostRequest(id, Some(ms[0]))), envs[0]).state;
      PostOne(s, id, ms[0], envs[0], id);
      assert PostEach(s, id, ms, envs) == PostEach(s1, id, ms[1..], envs[1..]);
      PostsAppendInOrder(s1, id, ms[1..], envs[1..]);
      StampsCons(ms, envs);
    }
  }

  /** Posts to one room leave every other room's log as it was. */
  lemma {:induction false} PostsLeaveOtherLogs(s: Server, id: Id, ms: seq<Message>, envs: seq<Env>, k: Id)
    requires id != "" && |ms| == |envs| && k != id
    ensures Log(PostEach(s, id, ms, envs).chats, k) == Log(s.chats, k)
    decreases |ms|
  {
    if ms != [] {
      var s1 := PostMessage(s, Some(PostRequest(id, Some(ms[0]))), envs[0]).state;
      PostOne(s, id, ms[0], envs[0], k);
      assert PostEach(s, id, ms, envs) == PostEach(s1, id, ms[1..], envs[1..]);
      PostsLeaveOtherLogs(s1, id, ms[1..], envs[1..], k);
    }
  }

  /**
   * A client that joins a collaboration room after messages were posted to
   * it receives the earlier log followed by exactly those messages, in post
   * order.
   */
  lemma ReplayAfterPosts(s: Server, id: Id, user: Id, ms: seq<Message>, envs: seq<Env>)
    requires id != "" && user != "" && |ms| == |envs|
    ensures HandleJoinCollaboration(PostEach(s, id, ms, envs), Some(RoomRequest(id, user))).effects[1]
              == Emit(ToSender, ExistingMessages(id, Log(s.chats, id) + Stamps(ms, envs)))
  {
    PostsAppendInOrder(s, id, ms, envs);
    var s1 := PostEach(s, id, ms, envs);
    var log := Log(s1.chats, id);
    assert log == Log(s.chats, id) + Stamps(ms, envs);
    var reply := HandleJoinCollaboration(s1, Some(RoomRequest(id, user)));
    assert reply.state.chats[id] == log;
  }

  /** Joining a collaboration room never changes its log. */
  lemma JoinCollaborationKeepsLog(s: Server, q: RoomRequest, k: Id)
    ensures Log(HandleJoinCollaboration(s, Some(q)).state.chats, k) == Log(s.chats, k)
  {
  }

  /**
   * Two messages posted without an id in the same millisecond are stored
   * with the same id; in different milliseconds with different ids.
   */
  lemma FallbackIdsCollideOnlyWithinAMillisecond(m1: Message, m2: Message, e1: Env, e2: Env)
    requires m1.id == "" && m2.id == ""
    ensures Stamp(m1, e1).id == Stamp(m2, e2).id <==> e1.millis == e2.millis
  {
    DecimalInjective(e1.millis, e2.millis);
  }

  /** create-room then join-room by someone else: the joiner sees only the host, flagged as host, and the others hear of the joiner once. */
  lemma CreateThenJoin(r: Id, host: Id, joiner: Id, rolls: nat -> nat)
    requires r != "" && host != "" && joiner != "" && host != joiner
    ensures var s1 := HandleCreateRoom(Empty, Some(RoomRequest(r, host))).state;
            var reply := HandleJoinRoom(s1, Some(RoomRequest(r, joiner)), rolls);
            && reply.effects[3] == Emit(ToSender, ExistingParticipants([Participant(host, DisplayName(rolls(1)), true)]))
            && reply.effects[2] == Emit(ToOthers(r), UserJoined(Participant(joiner, DisplayName(rolls(0)), false)))
            && (forall i :: 0 <= i < |reply.effects| && i != 2 ==> !(reply.effects[i].Emit? && reply.effects[i].event.UserJoined?))
  {
    Created(r, host);
    var s1 := HandleCreateRoom(Empty, Some(RoomRequest(r, host))).state;
    assert Admitted(s1, Some(RoomRequest(r, joiner)));
    JoinHostOnlyRoom(s1, r, host, joiner, rolls);
    JoinAnnouncesOnce(s1, Some(RoomRequest(r, joiner)), rolls);
  }

  /** Joining a room whose host is alone in it: the roster is just the host. */
  lemma JoinHostOnlyRoom(s: Server, r: Id, host: Id, joiner: Id, rolls: nat -> nat)
    requires r != "" && joiner != "" && host != joiner
    requires Find(s.rooms, r) == Some(Room(host, [host]))
    ensures HandleJoinRoom(s, Some(RoomRequest(r, joiner)), rolls).effects[3]
              == Emit(ToSender, ExistingParticipants([Participant(host, DisplayName(rolls(1)), true)]))
  {
    assert Admitted(s, Some(RoomRequest(r, joiner)));
    JoinRoster(s, RoomRequest(r, joiner), rolls);
    HostOnlyRoster(host, joiner, rolls);
  }

  /** The roster for someone joining a room that holds only its host. */
  lemma HostOnlyRoster(host: Id, joiner: Id, rolls: nat -> nat)
    requires host != joiner
    ensures Roster(Remove(Joined(Room(host, [host]), joiner).participants, joiner), host, rolls)
              == [Participant(host, DisplayName(rolls(1)), true)]
  {
    assert Joined(Room(host, [host]), joiner).participants == [host, joiner];
    assert Remove([host, joiner], joiner) == [host] by {
      assert [host, joiner][1..] == [joiner];
    }
  }

  /** A successful join announces the joiner to the room once: no effect but the third is a `user-joined`. */
  lemma JoinAnnouncesOnce(s: Server, request: Option<RoomRequest>, rolls: nat -> nat)
    requires Admitted(s, request)
    ensures var effects := HandleJoinRoom(s, request, rolls).effects;
            forall i :: 0 <= i < |effects| && i != 2 ==> !(effects[i].Emit? && effects[i].event.UserJoined?)
  {
    var effects := HandleJoinRoom(s, request, rolls).effects;
    forall i | 0 <= i < |effects| && i != 2
      ensures !(effects[i].Emit? && effects[i].event.UserJoined?)
    {
      if i == 0 {
        assert effects[0].Subscribe?;
      } else if i == 1 {
        assert effects[1].event.RoomJoined?;
      }
    }
  }

  /** Creating a room on the empty server stores it with the creator as host and sole participant. */
  lemma Created(r: Id, host: Id)
    requires r != "" && host != ""
    ensures Find(HandleCreateRoom(Empty, Some(RoomRequest(r, host))).state.rooms, r) == Some(Room(host, [host]))
  {
  }

  /** A second create-room for a live room is refused and leaves the first membership. */
  lemma CreateTwice(s: Server, r: Id, first: Id, second: Id)
    requires r != "" && first != "" && second != "" && Find(s.rooms, r).None?
    ensures var s1 := HandleCreateRoom(s, Some(RoomRequest(r, first))).state;
            var reply := HandleCreateRoom(s1, Some(RoomRequest(r, second)));
            && reply.state == s1
            && reply.effects == [Emit(ToSender, Error(RoomExists))]
            && Find(reply.state.rooms, r) == Some(Room(first, [first]))
  {
  }

  /** The only participant disconnects: the room is gone, and joining it fails. */
  lemma SoleParticipantLeaves(r: Id, host: Id, joiner: Id, rolls: nat -> nat)
    requires r != "" && host != "" && joiner != ""
    ensures var s1 := HandleCreateRoom(Empty, Some(RoomRequest(r, host))).state;
            var s2 := HandleDisconnect(s1, host).state;
            HandleJoinRoom(s2, Some(RoomRequest(r, joiner)), rolls) == Refuse(s2, NoSuchRoom)
  {
    var s1 := HandleCreateRoom(Empty, Some(RoomRequest(r, host))).state;
    assert Find(s1.rooms, r) == Some(Room(host, [host]));
    assert Invariant(s1);
    LastLeaveDeletesRoom(s1, host, r);
  }

  /** A non-host asking to end a room changes nothing and emits nothing. */
  lemma NonHostCannotEnd(s: Server, q: RoomRequest)
    requires Find(s.rooms, q.roomId).Some? && Find(s.rooms, q.roomId).value.host != q.userId
    ensures HandleEndRoom(s, q) == Reply(s, [])
  {
  }
}
