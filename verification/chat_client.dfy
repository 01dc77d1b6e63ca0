/**
 * The client half of the collaboration chat
 * (src/components/EnhancedLearning/CollaborationSpace.tsx): the state
 * updaters its socket listeners apply to the message and user lists, and the
 * decisions behind sending a message and announcing typing.
 */
module ChatClient {
  import opened Wrappers
  import opened Strings
  import opened Protocol

  datatype Status = Online | Offline

  /** A user shown in the header bar. */
  datatype User = User(id: string, name: string, avatar: string, status: Status, isTyping: bool)

  /** The room every client of this page joins and posts to. */
  const CollaborationRoom := "collaboration"

  /** The guard `message && message.id && message.sender && message.content`. */
  predicate Renderable(m: Message) {
    m.id != "" && m.sender != "" && m.content != ""
  }

  /** `msgs.some(msg => msg.id === id)`. */
  predicate HasId(msgs: seq<Message>, id: string) {
    exists i :: 0 <= i < |msgs| && msgs[i].id == id
  }

  /** No two messages share an id. */
  predicate UniqueIds(msgs: seq<Message>) {
    forall i, j :: 0 <= i < j < |msgs| ==> msgs[i].id != msgs[j].id
  }

  /** The `message` listener (lines 81-94): append a renderable message whose id is new. */
  function OnMessage(prev: seq<Message>, incoming: Option<Message>): (r: seq<Message>)
    ensures |prev| <= |r| <= |prev| + 1 && r[..|prev|] == prev
    ensures |r| == |prev| + 1 <==> incoming.Some? && Renderable(incoming.value) && !HasId(prev, incoming.value.id)
    ensures |r| == |prev| + 1 ==> r[|prev|] == incoming.value
    ensures UniqueIds(prev) ==> UniqueIds(r)
  {
    if incoming.Some? && Renderable(incoming.value) && !HasId(prev, incoming.value.id) then
      prev + [incoming.value]
    else prev
  }

  /** Delivering the same message twice leaves the list as delivering it once. */
  lemma OnMessageIdempotent(prev: seq<Message>, incoming: Option<Message>)
    ensures OnMessage(OnMessage(prev, incoming), incoming) == OnMessage(prev, incoming)
  {
    var once := OnMessage(prev, incoming);
    if |once| == |prev| + 1 {
      assert once[|prev|].id == incoming.value.id;
    }
  }

  /** The messages of `batch` whose id is not already in `prev`, in batch order. */
  function Fresh(prev: seq<Message>, batch: seq<Message>): (r: seq<Message>)
    ensures |r| <= |batch|
    ensures forall m :: m in r <==> m in batch && !HasId(prev, m.id)
  {
    if batch == [] then []
    else (if HasId(prev, batch[0].id) then [] else [batch[0]]) + Fresh(prev, batch[1..])
  }

  /**
   * The `existing-messages` listener (lines 96-108): `prev` followed by the
   * incoming messages whose id it does not hold yet. `None` stands for a
   * payload whose `messages` is missing or not an array.
   */
  function OnExistingMessages(prev: seq<Message>, incoming: Option<seq<Message>>): (r: seq<Message>)
    ensures |prev| <= |r| && r[..|prev|] == prev
    ensures incoming.None? ==> r == prev
    ensures incoming.Some? ==> forall m :: m in r[|prev|..] <==> m in incoming.value && !HasId(prev, m.id)
  {
    match incoming
    case None => prev
    case Some(batch) =>
      var r := prev + Fresh(prev, batch);
      assert r[|prev|..] == Fresh(prev, batch);
      r
  }

  /** The filter keeps the batch order: it distributes over concatenation. */
  lemma {:induction false} FreshDistributes(prev: seq<Message>, a: seq<Message>, b: seq<Message>)
    ensures Fresh(prev, a + b) == Fresh(prev, a) + Fresh(prev, b)
  {
    if a != [] {
      var head := if HasId(prev, a[0].id) then [] else [a[0]];
      assert (a + b)[0] == a[0];
      assert (a + b)[1..] == a[1..] + b;
      assert Fresh(prev, a + b) == head + Fresh(prev, a[1..] + b);
      FreshDistributes(prev, a[1..], b);
      assert Fresh(prev, a) == head + Fresh(prev, a[1..]);
    } else {
      assert a + b == b;
    }
  }

  /** Nothing is dropped from a batch whose ids are all new, even ids repeated inside the batch. */
  lemma {:induction false} FreshKeepsNewIds(prev: seq<Message>, batch: seq<Message>)
    requires forall i :: 0 <= i < |batch| ==> !HasId(prev, batch[i].id)
    ensures Fresh(prev, batch) == batch
  {
    if batch != [] {
      FreshKeepsNewIds(prev, batch[1..]);
    }
  }

  /** A batch that repeats an id is kept with the repetition: the merge does not de-duplicate a batch against itself. */
  lemma BatchNotDeduplicated(m: Message)
    ensures OnExistingMessages([], Some([m, m])) == [m, m]
  {
    FreshKeepsNewIds([], [m, m]);
  }

  lemma {:induction false} FreshOfCovered(prev: seq<Message>, batch: seq<Message>)
    requires forall i :: 0 <= i < |batch| ==> HasId(prev, batch[i].id)
    ensures Fresh(prev, batch) == []
  {
    if batch != [] {
      FreshOfCovered(prev, batch[1..]);
    }
  }

  /** Receiving the same history twice gives the same list as receiving it once. */
  lemma OnExistingMessagesIdempotent(prev: seq<Message>, incoming: Option<seq<Message>>)
    ensures OnExistingMessages(OnExistingMessages(prev, incoming), incoming) == OnExistingMessages(prev, incoming)
  {
    if incoming.Some? {
      var batch := incoming.value;
      var once := prev + Fresh(prev, batch);
      forall i | 0 <= i < |batch| ensures HasId(once, batch[i].id) {
        if HasId(prev, batch[i].id) {
          var j :| 0 <= j < |prev| && prev[j].id == batch[i].id;
          assert once[j] == prev[j];
        } else {
          assert batch[i] in Fresh(prev, batch);
          var j :| 0 <= j < |Fresh(prev, batch)| && Fresh(prev, batch)[j] == batch[i];
          assert once[|prev| + j] == batch[i];
        }
      }
      FreshOfCovered(once, batch);
      assert once + [] == once;
    }
  }

  /**
   * The `user-typing` / `user-stopped-typing` listeners (lines 110-124): set
   * the flag on the users whose id is `userId`, unless `userId` is the
   * client's own id. `self` is `currentUser?.id`; `None` is `undefined`.
   */
  function OnPresence(users: seq<User>, self: Option<string>, userId: Option<string>, typing: bool): (r: seq<User>)
    ensures |r| == |users|
    ensures forall i :: 0 <= i < |users| ==> r[i] == users[i].(isTyping := r[i].isTyping)
    ensures forall i :: 0 <= i < |users| ==>
              r[i].isTyping == (if userId != self && userId == Some(users[i].id) then typing else users[i].isTyping)
  {
    if userId != self then
      seq(|users|, i requires 0 <= i < |users| =>
        if Some(users[i].id) == userId then users[i].(isTyping := typing) else users[i])
    else users
  }

  /** A typing notice about someone else changes only that user's entries, and repeating it changes nothing more. */
  lemma OnPresenceTouchesOnlyNamedUser(users: seq<User>, self: Option<string>, userId: Option<string>, typing: bool)
    ensures forall i :: 0 <= i < |users| && Some(users[i].id) != userId ==> OnPresence(users, self, userId, typing)[i] == users[i]
    ensures userId == self ==> OnPresence(users, self, userId, typing) == users
    ensures var once := OnPresence(users, self, userId, typing);
            OnPresence(once, self, userId, typing) == once
  {
  }

  /** The users other than `id`, in order. */
  function Without(users: seq<User>, id: string): (r: seq<User>)
    ensures forall u :: u in r <==> u in users && u.id != id
    ensures |r| <= |users|
  {
    if users == [] then []
    else (if users[0].id == id then [] else [users[0]]) + Without(users[1..], id)
  }

  /** The `user-left` listener (lines 126-130): drop the users with that id; a falsy id changes nothing. */
  function OnUserLeft(users: seq<User>, userId: Option<string>): (r: seq<User>)
    ensures (userId.None? || userId.value == "") ==> r == users
    ensures userId.Some? && userId.value != "" ==> forall u :: u in r <==> u in users && u.id != userId.value
  {
    if userId.Some? && userId.value != "" then Without(users, userId.value) else users
  }

  /** Removal keeps everybody else in their order: it distributes over concatenation. */
  lemma {:induction false} WithoutDistributes(a: seq<User>, b: seq<User>, id: string)
    ensures Without(a + b, id) == Without(a, id) + Without(b, id)
  {
    if a != [] {
      assert (a + b)[1..] == a[1..] + b;
      WithoutDistributes(a[1..], b, id);
    } else {
      assert a + b == b;
    }
  }

  /** Removing a user whose id appears once cuts out exactly that entry. */
  lemma WithoutCutsOut(users: seq<User>, k: nat)
    requires k < |users|
    requires forall i :: 0 <= i < |users| && i != k ==> users[i].id != users[k].id
    ensures OnUserLeft(users, Some(users[k].id)) == (if users[k].id == "" then users else users[..k] + users[k + 1..])
  {
    if users[k].id != "" {
      WithoutOnlyAt(users, k);
    }
  }

  lemma {:induction false} WithoutOnlyAt(users: seq<User>, k: nat)
    requires k < |users|
    requires forall i :: 0 <= i < |users| && i != k ==> users[i].id != users[k].id
    ensures Without(users, users[k].id) == users[..k] + users[k + 1..]
  {
    var id, rest := users[k].id, users[1..];
    if k == 0 {
      forall i | 0 <= i < |rest| ensures rest[i].id != id {
        assert rest[i] == users[i + 1];
      }
      WithoutKeepsOthers(rest, id);
      assert users[..0] + users[1..] == rest;
    } else {
      assert rest[k - 1] == users[k];
      forall i | 0 <= i < |rest| && i != k - 1 ensures rest[i].id != id {
        assert rest[i] == users[i + 1];
      }
      WithoutOnlyAt(rest, k - 1);
      SpliceCons(users, k);
    }
  }

  /** Cutting position `k > 0` out of a sequence keeps its head in front of the cut tail. */
  lemma SpliceCons<T>(s: seq<T>, k: nat)
    requires 0 < k < |s|
    ensures s[..k] + s[k + 1..] == [s[0]] + (s[1..][..k - 1] + s[1..][k..])
  {
    assert s[..k] == [s[0]] + s[1..][..k - 1];
    assert s[k + 1..] == s[1..][k..];
  }

  lemma {:induction false} WithoutKeepsOthers(users: seq<User>, id: string)
    requires forall i :: 0 <= i < |users| ==> users[i].id != id
    ensures Without(users, id) == users
  {
    if users != [] {
      WithoutKeepsOthers(users[1..], id);
    }
  }

  /** The message box: its text and whether this client announced typing. */
  datatype Composer = Composer(input: string, isTyping: bool)

  /** What the page emits to the server. */
  datatype Outgoing =
    | SendMessage(roomId: string, message: Message)
    | SendTyping(roomId: string, userId: string)
    | SendStoppedTyping(roomId: string, userId: string)

  datatype Action = Action(composer: Composer, sent: Option<Outgoing>)

  /**
   * `handleSendMessage` (lines 164-194). `session` is the current user when
   * both the socket and the user are set; the clock gives the id and time.
   */
  function SendDraft(c: Composer, session: Option<User>, millis: nat, isoNow: string): (r: Action)
    ensures r.sent.Some? <==> !AllWhitespace(c.input) && session.Some?
    ensures r.sent.None? ==> r.composer == c
    ensures r.sent.Some? ==>
              && r.composer == Composer("", false)
              && r.sent.value.SendMessage? && r.sent.value.roomId == CollaborationRoom
              && r.sent.value.message.content == c.input
              && r.sent.value.message.sender == session.value.name
              && r.sent.value.message.id == Decimal(millis)
              && r.sent.value.message.timestamp == isoNow
              && (r.sent.value.message.kind == "code" <==> Contains(c.input, "```"))
              && (r.sent.value.message.kind == "text" <==> !Contains(c.input, "```"))
  {
    TrimEmptyIffBlank(c.input);
    if Trim(c.input) == [] then Action(c, None)
    else match session
      case None => Action(c, None)
      case Some(user) =>
        var kind := if Contains(c.input, "```") then "code" else "text";
        Action(Composer("", false),
               Some(SendMessage(CollaborationRoom, Message(Decimal(millis), user.name, c.input, isoNow, kind))))
  }

  /**
   * The input's `onChange` (lines 284-287): the box takes the new `text`,
   * then `handleTyping` (lines 196-222) announces typing on the first
   * keystroke only.
   */
  function Keystroke(c: Composer, text: string, session: Option<User>): (r: Action)
    ensures r.composer.input == text
    ensures r.sent.Some? <==> session.Some? && !c.isTyping
    ensures r.sent.Some? ==> r.sent.value == SendTyping(CollaborationRoom, session.value.id)
    ensures r.composer.isTyping <==> session.Some? || c.isTyping
  {
    var typed := c.(input := text);
    match session
    case None => Action(typed, None)
    case Some(user) =>
      if !c.isTyping then Action(typed.(isTyping := true), Some(SendTyping(CollaborationRoom, user.id)))
      else Action(typed, None)
  }

  /** The two-second timer set by the last keystroke fires (lines 210-216). */
  function TypingTimeout(c: Composer, user: User): (r: Action)
    ensures !r.composer.isTyping && r.composer.input == c.input
    ensures r.sent == Some(SendStoppedTyping(CollaborationRoom, user.id))
  {
    Action(c.(isTyping := false), Some(SendStoppedTyping(CollaborationRoom, user.id)))
  }

  /** Keystrokes after the first send nothing until the timer or a send clears the flag. */
  lemma TypingAnnouncedOnce(c: Composer, user: User, first: string, second: string)
    ensures Keystroke(Keystroke(c, first, Some(user)).composer, second, Some(user)).sent.None?
    ensures Keystroke(TypingTimeout(Keystroke(c, first, Some(user)).composer, user).composer, second, Some(user)).sent
              == Some(SendTyping(CollaborationRoom, user.id))
  {
  }
}
