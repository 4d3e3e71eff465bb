/** The read-only selections the views hand to their templates: the home-page
    room search, the related-message filter, the topic search, the short topic
    list, and the per-room and per-user listings. Result order is not modelled
    except for the topic list, which follows ascending topic id. */
module Queries {
  import opened Text
  import opened Models

  /** A missing `q` parameter is read as the empty string. */
  function QueryOf(q: Option<string>): string
  {
    match q
    case Some(text) => text
    case None => ""
  }

  /** The home-page search condition: `q` occurs, ignoring case, in the room's
      topic name, in its name, or in its description. */
  ghost predicate RoomSelected(s: Store, room: Room, q: string)
  {
    || (room.topic in s.topics && MatchesIgnoringCase(s.topics[room.topic].name, q))
    || MatchesIgnoringCase(room.name, q)
    || MatchesIgnoringCase(room.description, q)
  }

  function RoomMatches(s: Store, room: Room, q: string): (r: bool)
    ensures r <==> RoomSelected(s, room, q)
  {
    || (room.topic in s.topics && IContains(s.topics[room.topic].name, q))
    || IContains(room.name, q)
    || IContains(room.description, q)
  }

  /** Rooms listed on the home page for query `q`. */
  function SearchRooms(s: Store, q: string): (r: set<RoomId>)
    ensures forall id :: id in r <==> id in s.rooms && RoomSelected(s, s.rooms[id], q)
  {
    set id | id in s.rooms && RoomMatches(s, s.rooms[id], q)
  }

  /** The related-message condition: `q` occurs, ignoring case, in the topic
      name of the message's room. Room name and description play no part. */
  ghost predicate MessageSelected(s: Store, msg: Message, q: string)
  {
    && msg.room in s.rooms
    && s.rooms[msg.room].topic in s.topics
    && MatchesIgnoringCase(s.topics[s.rooms[msg.room].topic].name, q)
  }

  function MessageMatches(s: Store, msg: Message, q: string): (r: bool)
    ensures r <==> MessageSelected(s, msg, q)
  {
    && msg.room in s.rooms
    && s.rooms[msg.room].topic in s.topics
    && IContains(s.topics[s.rooms[msg.room].topic].name, q)
  }

  /** Messages listed on the home page for query `q`. */
  function MessagesForQuery(s: Store, q: string): (r: set<MessageId>)
    ensures forall id :: id in r <==> id in s.messages && MessageSelected(s, s.messages[id], q)
  {
    set id | id in s.messages && MessageMatches(s, s.messages[id], q)
  }

  /** Topics listed on the topics page for query `q`. */
  function SearchTopics(s: Store, q: string): (r: set<TopicId>)
    ensures forall id :: id in r <==> id in s.topics && MatchesIgnoringCase(s.topics[id].name, q)
  {
    set id | id in s.topics && IContains(s.topics[id].name, q)
  }

  /** The whole topic table as a sequence. */
  function AllTopics(s: Store): seq<TopicId>
  {
    TopicOrder(s.topics, 0, s.nextTopic)
  }

  /** `Topic.objects.all()[0:5]`: the first five topics, or all when fewer. */
  function FirstTopics(s: Store): (r: seq<TopicId>)
    ensures |r| <= 5
    ensures r <= AllTopics(s)
    ensures |AllTopics(s)| >= 5 ==> |r| == 5
    ensures |AllTopics(s)| < 5 ==> r == AllTopics(s)
  {
    var all := AllTopics(s);
    if |all| <= 5 then all else all[..5]
  }

  /** Rooms the user hosts (`user.room_set`). */
  function HostedRooms(s: Store, user: UserId): set<RoomId>
  {
    set id | id in s.rooms && s.rooms[id].host == user
  }

  /** Messages the user wrote (`user.message_set`). */
  function AuthoredMessages(s: Store, user: UserId): set<MessageId>
  {
    set id | id in s.messages && s.messages[id].user == user
  }

  /** Messages posted into a room (`room.message_set`). */
  function RoomMessages(s: Store, room: RoomId): set<MessageId>
  {
    set id | id in s.messages && s.messages[id].room == room
  }

  /** With no query every room and every topic is listed. */
  lemma EmptyQueryListsAll(s: Store)
    ensures SearchRooms(s, QueryOf(None)) == s.rooms.Keys
    ensures SearchTopics(s, QueryOf(None)) == s.topics.Keys
  {
  }

  /** A message listed for `q` always has its room listed too: a topic-name
      match is one of the three room conditions. */
  lemma ListedMessageHasListedRoom(s: Store, q: string, m: MessageId)
    requires m in MessagesForQuery(s, q)
    ensures s.messages[m].room in SearchRooms(s, q)
  {
  }

  /** When the stored ids lie below the counter, the topic sequence holds
      every stored topic exactly once. */
  lemma AllTopicsIsTopicTable(s: Store)
    requires IdsBelowCounters(s)
    ensures forall t :: t in s.topics <==> t in AllTopics(s)
    ensures forall i, j :: 0 <= i < j < |AllTopics(s)| ==> AllTopics(s)[i] != AllTopics(s)[j]
  {
    TopicOrderSorted(s.topics, 0, s.nextTopic);
    TopicOrderComplete(s.topics, 0, s.nextTopic);
  }
}
