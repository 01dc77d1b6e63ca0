/**
 * The video-room store of backend/server.js: a JavaScript `Map` from room
 * id to room, kept here as its entry sequence in insertion order (the order
 * `rooms.forEach` visits them). `Map.set` on a present key replaces the value
 * in place; on a new key it appends; `Map.delete` drops the entry.
 */
module RoomTable {
  import opened Wrappers
  import opened Members

  type Id = string

  /** A video room: the current host and the participants in join order. */
  datatype Room = Room(host: Id, participants: seq<Id>)

  datatype Entry = Entry(id: Id, room: Room)

  type Table = seq<Entry>

  /** The room ids, in insertion order (`rooms.keys()`). */
  function Ids(t: Table): (r: seq<Id>)
    ensures |r| == |t|
    ensures forall i :: 0 <= i < |t| ==> r[i] == t[i].id
  {
    if t == [] then [] else [t[0].id] + Ids(t[1..])
  }

  /** `rooms.has(id) ? rooms.get(id) : undefined`. */
  function Find(t: Table, id: Id): (r: Option<Room>)
    ensures r.None? <==> id !in Ids(t)
    ensures r.Some? ==> Entry(id, r.value) in t
  {
    if t == [] then None
    else if t[0].id == id then Some(t[0].room)
    else
      var r := Find(t[1..], id);
      assert r.Some? ==> Entry(id, r.value) in t[1..];
      r
  }

  /** Looking up in a table with one more entry at the front. */
  lemma FindCons(e: Entry, t: Table)
    ensures Ids([e] + t) == [e.id] + Ids(t)
    ensures forall k :: Find([e] + t, k) == if k == e.id then Some(e.room) else Find(t, k)
  {
    assert ([e] + t)[1..] == t;
  }

  /** `rooms.set(id, room)`: replace the entry in place, or append a new one. */
  function Put(t: Table, id: Id, room: Room): (r: Table)
    ensures |r| == if id in Ids(t) then |t| else |t| + 1
  {
    if t == [] then [Entry(id, room)]
    else if t[0].id == id then [Entry(id, room)] + t[1..]
    else
      assert Ids(t) == [t[0].id] + Ids(t[1..]);
      [t[0]] + Put(t[1..], id, room)
  }

  lemma IdsCons(e: Entry, t: Table)
    ensures Ids([e] + t) == [e.id] + Ids(t)
  {
    assert ([e] + t)[1..] == t;
  }

  /** `Map.set` keeps the key order: an existing key stays where it was, a new key goes last. */
  lemma {:induction false} PutIds(t: Table, id: Id, room: Room)
    ensures Ids(Put(t, id, room)) == (if id in Ids(t) then Ids(t) else Ids(t) + [id])
  {
    if t != [] {
      assert t == [t[0]] + t[1..];
      IdsCons(t[0], t[1..]);
      if t[0].id == id {
        IdsCons(Entry(id, room), t[1..]);
      } else {
        var rest := Put(t[1..], id, room);
        PutIds(t[1..], id, room);
        IdsCons(t[0], rest);
        if id in Ids(t[1..]) {
          assert Ids(rest) == Ids(t[1..]);
        } else {
          assert id !in Ids(t);
          assert Ids(rest) == Ids(t[1..]) + [id];
          assert [t[0].id] + (Ids(t[1..]) + [id]) == Ids(t) + [id];
        }
      }
    }
  }

  /** `Map.set` then `Map.get`: the key gives the new room, every other key what it gave before. */
  lemma {:induction false} PutFind(t: Table, id: Id, room: Room, k: Id)
    ensures Find(Put(t, id, room), k) == if k == id then Some(room) else Find(t, k)
  {
    if t != [] {
      assert t == [t[0]] + t[1..];
      FindCons(t[0], t[1..]);
      if t[0].id == id {
        FindCons(Entry(id, room), t[1..]);
      } else {
        PutFind(t[1..], id, room, k);
        FindCons(t[0], Put(t[1..], id, room));
      }
    }
  }

  /** `Map.set` adds no entry but the new one. */
  lemma {:induction false} PutEntries(t: Table, id: Id, room: Room)
    ensures forall e :: e in Put(t, id, room) ==> e in t || e == Entry(id, room)
  {
    if t != [] && t[0].id != id {
      PutEntries(t[1..], id, room);
      var r := Put(t, id, room);
      assert r == [t[0]] + Put(t[1..], id, room);
      forall e | e in r ensures e in t || e == Entry(id, room) {
        if e != t[0] {
          assert e in Put(t[1..], id, room);
        }
      }
    }
  }

  /** All three facts about `Map.set` at once. */
  lemma PutFacts(t: Table, id: Id, room: Room)
    ensures Ids(Put(t, id, room)) == (if id in Ids(t) then Ids(t) else Ids(t) + [id])
    ensures Find(Put(t, id, room), id) == Some(room)
    ensures forall k :: k != id ==> Find(Put(t, id, room), k) == Find(t, k)
    ensures forall e :: e in Put(t, id, room) ==> e in t || e == Entry(id, room)
  {
    PutIds(t, id, room);
    PutEntries(t, id, room);
    forall k ensures Find(Put(t, id, room), k) == if k == id then Some(room) else Find(t, k) {
      PutFind(t, id, room, k);
    }
  }

  /** `rooms.delete(id)`. */
  function Delete(t: Table, id: Id): (r: Table)
    ensures Ids(r) == Remove(Ids(t), id)
    ensures Find(r, id) == None
    ensures forall k :: k != id ==> Find(r, k) == Find(t, k)
    ensures forall e :: e in r ==> e in t
  {
    if t == [] then []
    else if t[0].id == id then Delete(t[1..], id)
    else
      var rest := Delete(t[1..], id);
      var r := [t[0]] + rest;
      assert r[0] == t[0] && r[1..] == rest;
      assert Ids(r) == [t[0].id] + Ids(rest);
      r
  }

  /**
   * What every handler keeps true of a stored room: someone is in it, nobody
   * twice, the host is one of them, and every id is a non-empty string (the
   * handlers refuse a falsy `userId`).
   */
  predicate ValidRoom(room: Room) {
    && |room.participants| > 0
    && NoDup(room.participants)
    && room.host in room.participants
    && "" !in room.participants
  }

  /** Room ids are unique and non-empty, and every room is valid. */
  predicate Valid(t: Table) {
    && NoDup(Ids(t))
    && "" !in Ids(t)
    && forall e :: e in t ==> ValidRoom(e.room)
  }

  lemma FoundRoomIsValid(t: Table, id: Id)
    requires Valid(t) && Find(t, id).Some?
    ensures ValidRoom(Find(t, id).value)
    ensures id != ""
  {
  }

  lemma PutKeepsValid(t: Table, id: Id, room: Room)
    requires Valid(t) && id != "" && ValidRoom(room)
    ensures Valid(Put(t, id, room))
  {
    var r := Put(t, id, room);
    PutIds(t, id, room);
    PutEntries(t, id, room);
    if id !in Ids(t) {
      var ids := Ids(t) + [id];
      assert Ids(r) == ids;
      forall i, j | 0 <= i < j < |ids| ensures ids[i] != ids[j] {
        if j == |ids| - 1 {
          assert ids[i] == Ids(t)[i];
        } else {
          assert ids[i] == Ids(t)[i] && ids[j] == Ids(t)[j];
        }
      }
    }
    forall e | e in r ensures ValidRoom(e.room) {
      if e != Entry(id, room) {
        assert e in t;
      }
    }
  }

  lemma DeleteKeepsValid(t: Table, id: Id)
    requires Valid(t)
    ensures Valid(Delete(t, id))
  {
  }
}
