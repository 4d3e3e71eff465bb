/** Properties that relate several requests: repeated posting, repeated topic
    names, the method-independence of the guards, and concrete scenarios. */
module Properties {
  import opened Text
  import opened Models
  import opened Queries
  import opened Views

  /** Posting twice in a room as the same user adds two messages, but the
      second post leaves the participant set as the first one left it. */
  lemma PostTwiceKeepsParticipants(s: Store, u: UserId, id: RoomId, first: string, second: string)
    requires Valid(s) && u in s.users && id in s.rooms
    ensures
      var s1 := ViewRoom(s, Request(Some(u), Post), id, first).store;
      var s2 := ViewRoom(s1, Request(Some(u), Post), id, second).store;
      && s2.rooms[id].participants == s1.rooms[id].participants
      && s1.rooms[id].participants == s.rooms[id].participants + {u}
      && |s2.messages| == |s.messages| + 2
  {
    var s1 := ViewRoom(s, Request(Some(u), Post), id, first).store;
    assert |s1.messages| == |s.messages| + 1;
  }

  /** After a topic is get-or-created under a name that at most one topic
      carried, exactly one topic carries it. */
  lemma GetOrCreateLeavesOneTopic(s: Store, name: string)
    requires Valid(s) && !NamedTwice(s.topics, name)
    ensures GetOrCreateTopic(s, name).Got?
    ensures
      var g := GetOrCreateTopic(s, name);
      forall t :: t in g.store.topics && g.store.topics[t].name == name ==> t == g.id
  {
  }

  /** Get-or-create is idempotent: asking again for the same name returns the
      same topic and changes nothing more. */
  lemma GetOrCreateIdempotent(s: Store, name: string)
    requires Valid(s) && !NamedTwice(s.topics, name)
    ensures
      var g := GetOrCreateTopic(s, name);
      g.Got? && GetOrCreateTopic(g.store, name) == g
  {
  }

  /** Creating a second room under the same topic name reuses the topic:
      the topic table is unchanged and both rooms point at one topic. */
  lemma CreateRoomTwiceReusesTopic(s: Store, u: UserId, a: RoomFields, b: RoomFields)
    requires Valid(s) && u in s.users && !NamedTwice(s.topics, a.topic) && b.topic == a.topic
    ensures
      var req := Request(Some(u), Post);
      var s1 := CreateRoom(s, req, a).store;
      var s2 := CreateRoom(s1, req, b).store;
      && s2.topics == s1.topics
      && s2.rooms[s.nextRoom].topic == s2.rooms[s1.nextRoom].topic
      && s.nextRoom != s1.nextRoom
  {
    var s1 := CreateRoom(s, Request(Some(u), Post), a).store;
    GetOrCreateLeavesOneTopic(s, a.topic);
    var t := s1.rooms[s.nextRoom].topic;
    assert t in s1.topics && s1.topics[t].name == a.topic;
    assert !NamedTwice(s1.topics, a.topic);
  }

  /** The ownership guards come before the method check: a non-host gets the
      same reply to GET as to POST, whatever the form says. */
  lemma UpdateGuardIgnoresMethod(s: Store, u: UserId, id: RoomId, a: RoomFields, b: RoomFields)
    requires Valid(s) && u in s.users && id in s.rooms && s.rooms[id].host != u
    ensures UpdateRoom(s, Request(Some(u), Get), id, a) == UpdateRoom(s, Request(Some(u), Post), id, b)
    ensures UpdateRoom(s, Request(Some(u), Post), id, b) == Reply(s, Some(u), Denied)
    ensures DeleteRoom(s, Request(Some(u), Post), id) == DeleteRoom(s, Request(Some(u), Get), id)
  {
  }

  /** GET on any mutating route leaves the store as it was. */
  lemma GetChangesNothing(s: Store, user: Option<UserId>, room: RoomId, msg: MessageId, form: RoomFields, body: string,
                          valid: bool, name: string)
    requires Valid(s) && SessionOk(s, user)
    ensures ViewRoom(s, Request(user, Get), room, body).store == s
    ensures CreateRoom(s, Request(user, Get), form).store == s
    ensures UpdateRoom(s, Request(user, Get), room, form).store == s
    ensures DeleteRoom(s, Request(user, Get), room).store == s
    ensures DeleteMessage(s, Request(user, Get), msg).store == s
    ensures Register(s, Request(user, Get), valid, name).store == s
  {
  }

  /** A deleted room can no longer be opened. */
  lemma DeletedRoomIsNotFound(s: Store, u: UserId, id: RoomId, viewer: Request, body: string)
    requires Valid(s) && id in s.rooms && s.rooms[id].host == u
    requires SessionOk(s, viewer.user)
    ensures
      var s1 := DeleteRoom(s, Request(Some(u), Post), id).store;
      ViewRoom(s1, viewer, id, body).outcome == NotFound
  {
  }

  /** A room created after another is deleted gets a fresh id and starts
      with no messages: the deleted room's messages never move to it. */
  lemma RecreatedRoomStartsEmpty(s: Store, u: UserId, id: RoomId, form: RoomFields)
    requires Valid(s) && id in s.rooms && s.rooms[id].host == u && !NamedTwice(s.topics, form.topic)
    ensures
      var s1 := DeleteRoom(s, Request(Some(u), Post), id).store;
      var s2 := CreateRoom(s1, Request(Some(u), Post), form).store;
      && s1.nextRoom != id
      && RoomMessages(s2, s1.nextRoom) == {}
      && RoomMessages(s2, id) == RoomMessages(s, id)
  {
  }

  /** A store holding one user, the starting point of the scenarios. */
  function OneUser(name: string): (s: Store)
    ensures Valid(s) && 0 in s.users && s.users[0].username == name
  {
    Store(map[0 := User(name)], map[], map[], map[], 1, 0, 0, 0)
  }

  /** The store after the host creates "FPGA basics" under "Hardware". */
  function FpgaFirstStore(): (s: Store)
    ensures Valid(s)
  {
    Store(
      map[0 := User("host")],
      map[0 := Topic("Hardware")],
      map[0 := Room(0, 0, "FPGA basics", "", {})],
      map[], 1, 1, 1, 0)
  }

  /** ... then "Chat" under "General". */
  function FpgaSecondStore(): (s: Store)
    ensures Valid(s)
  {
    Store(
      map[0 := User("host")],
      map[0 := Topic("Hardware"), 1 := Topic("General")],
      map[0 := Room(0, 0, "FPGA basics", "", {}), 1 := Room(0, 1, "Chat", "", {})],
      map[], 1, 2, 2, 0)
  }

  /** The second store with one message, "hello" by the host in the first
      room, and the host among that room's participants: the store that
      `FpgaPostHello` shows the post produces. */
  function FpgaStore(): Store
  {
    Store(
      map[0 := User("host")],
      map[0 := Topic("Hardware"), 1 := Topic("General")],
      map[0 := Room(0, 0, "FPGA basics", "", {0}), 1 := Room(0, 1, "Chat", "", {})],
      map[0 := Message(0, 0, "hello")],
      1, 2, 2, 1)
  }

  /** Creating the first room makes the topic "Hardware" under id 0. */
  lemma FpgaFirstRoom()
    ensures CreateRoom(OneUser("host"), Request(Some(0), Post), RoomFields("Hardware", "FPGA basics", "")).store
      == FpgaFirstStore()
  {
    var s0 := OneUser("host");
    assert LookupTopic(s0, "Hardware") == NoTopic;
    assert GetOrCreateTopic(s0, "Hardware") == Got(s0.(topics := map[0 := Topic("Hardware")], nextTopic := 1), 0);
  }

  /** "General" is not yet a topic, so the second room creates it under id 1. */
  lemma FpgaSecondRoom()
    ensures CreateRoom(FpgaFirstStore(), Request(Some(0), Post), RoomFields("General", "Chat", "")).store
      == FpgaSecondStore()
  {
    var s1 := FpgaFirstStore();
    assert FindTopic(s1.topics, "General", 0, 1) == None;
    assert LookupTopic(s1, "General") == NoTopic;
    assert GetOrCreateTopic(s1, "General") == Got(s1.(topics := s1.topics[1 := Topic("General")], nextTopic := 2), 1);
  }

  /** The host posting "hello" in the first room of the second store gives
      exactly the scenario store: one message, and the host a participant. */
  lemma FpgaPostHello()
    ensures ViewRoom(FpgaSecondStore(), Request(Some(0), Post), 0, "hello").store == FpgaStore()
  {
    var s := FpgaSecondStore();
    var room := s.rooms[0].(participants := s.rooms[0].participants + {0});
    assert room == Room(0, 0, "FPGA basics", "", {0});
    assert s.rooms[0 := room] == FpgaStore().rooms;
  }

  /** Which of the scenario's strings contain "fpga", ignoring case. */
  lemma FpgaStrings()
    ensures MatchesIgnoringCase("FPGA basics", "fpga")
    ensures !MatchesIgnoringCase("Hardware", "fpga")
    ensures !MatchesIgnoringCase("General", "fpga")
    ensures !MatchesIgnoringCase("Chat", "fpga")
    ensures !MatchesIgnoringCase("", "fpga")
  {
    var q := LowerStr("fpga");
    assert q == "fpga";
    assert LowerStr("FPGA basics")[0..4] == "fpga";
    assert OccursAt(q, LowerStr("FPGA basics"), 0);
    FirstCharAbsent(q, LowerStr("Hardware"));
    FirstCharAbsent(q, LowerStr("General"));
    FirstCharAbsent(q, LowerStr("Chat"));
    FirstCharAbsent(q, LowerStr(""));
  }

  /** On the scenario store, "fpga" selects the first room only. */
  lemma FpgaRoomsFound()
    ensures SearchRooms(FpgaStore(), "fpga") == {0}
  {
    FpgaStrings();
    var s := FpgaStore();
    assert RoomSelected(s, s.rooms[0], "fpga");
    assert s.rooms[1].name == "Chat" && s.rooms[1].description == "";
    assert s.topics[s.rooms[1].topic].name == "General";
    assert !RoomSelected(s, s.rooms[1], "fpga");
    assert s.rooms.Keys == {0, 1};
  }

  /** On the scenario store, "fpga" selects no message. */
  lemma FpgaMessagesFound()
    ensures MessagesForQuery(FpgaStore(), "fpga") == {}
  {
    FpgaStrings();
    var s := FpgaStore();
    assert s.topics[s.rooms[0].topic].name == "Hardware";
    assert !MessageSelected(s, s.messages[0], "fpga");
    assert s.messages.Keys == {0};
  }

  /** Searching "fpga" lists the "FPGA basics" room only, yet not the message
      posted in it: the related messages are selected on topic names alone,
      and "Hardware" does not contain "fpga". */
  lemma FpgaSearch()
    ensures
      var home := Home(FpgaStore(), Request(None, Get), Some("fpga")).outcome.view;
      home.rooms == {0} && home.roomCount == 1 && home.messages == {}
  {
    FpgaRoomsFound();
    FpgaMessagesFound();
  }

  /** Registering "Alice" stores "alice" and logs the new user in. */
  lemma RegisterAliceScenario()
    ensures
      var r := Register(OneUser("bob"), Request(None, Post), true, "Alice");
      && r.outcome == Redirect(HomePage)
      && r.user == Some(1)
      && r.store.users[1].username == "alice"
  {
  }
}
