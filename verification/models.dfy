/** The data store behind the views: users, topics, rooms and messages, each
    table a finite map from an auto-incremented id to its record. */
module Models {

  /** An optional request parameter or session user. */
  datatype Option<+T> = None | Some(value: T)

  type UserId = nat
  type TopicId = nat
  type RoomId = nat
  type MessageId = nat

  /** A user account; only the username is visible to the views. */
  datatype User = User(username: string)

  /** A free-text category label shared by rooms. */
  datatype Topic = Topic(name: string)

  /** A conversation thread. `participants` is the many-to-many relation to users. */
  datatype Room = Room(
    host: UserId,
    topic: TopicId,
    name: string,
    description: string,
    participants: set<UserId>)

  /** A message posted by `user` into `room`. */
  datatype Message = Message(user: UserId, room: RoomId, body: string)

  /** The whole database. Each `next*` counter is the id the next insert into
      that table receives, as an auto-increment primary key does. */
  datatype Store = Store(
    users: map<UserId, User>,
    topics: map<TopicId, Topic>,
    rooms: map<RoomId, Room>,
    messages: map<MessageId, Message>,
    nextUser: nat,
    nextTopic: nat,
    nextRoom: nat,
    nextMessage: nat)

  /** Every stored id lies below its table's counter. */
  ghost predicate IdsBelowCounters(s: Store)
  {
    && (forall u :: u in s.users ==> u < s.nextUser)
    && (forall t :: t in s.topics ==> t < s.nextTopic)
    && (forall r :: r in s.rooms ==> r < s.nextRoom)
    && (forall m :: m in s.messages ==> m < s.nextMessage)
  }

  /** Foreign keys point at stored rows. A message's room need not be stored,
      since whether deleting a room deletes its messages is decided outside
      the views; it must have been allocated, so a room created later never
      inherits it. */
  ghost predicate ForeignKeysResolve(s: Store)
  {
    && (forall r :: r in s.rooms ==>
          && s.rooms[r].host in s.users
          && s.rooms[r].topic in s.topics
          && s.rooms[r].participants <= s.users.Keys)
    && (forall m :: m in s.messages ==> s.messages[m].user in s.users && s.messages[m].room < s.nextRoom)
  }

  /** The username column is unique. */
  ghost predicate UsernamesUnique(users: map<UserId, User>)
  {
    forall a, b :: a in users && b in users && users[a].username == users[b].username ==> a == b
  }

  /** The database invariant the handlers rely on and preserve. */
  ghost predicate Valid(s: Store)
  {
    IdsBelowCounters(s) && ForeignKeysResolve(s) && UsernamesUnique(s.users)
  }

  /** The session user, when there is one, is a stored user. */
  ghost predicate SessionOk(s: Store, user: Option<UserId>)
  {
    user.Some? ==> user.value in s.users
  }

  /** Topic names are unique; the views never create a second topic of a name. */
  ghost predicate TopicNamesUnique(topics: map<TopicId, Topic>)
  {
    forall a, b :: a in topics && b in topics && topics[a].name == topics[b].name ==> a == b
  }

  /** Some stored topic carries this name. */
  ghost predicate Named(topics: map<TopicId, Topic>, name: string)
  {
    exists t :: t in topics && topics[t].name == name
  }

  /** At least two distinct topics carry this name. */
  ghost predicate NamedTwice(topics: map<TopicId, Topic>, name: string)
  {
    exists a, b :: a in topics && b in topics && a != b && topics[a].name == name && topics[b].name == name
  }

  /** No id counter goes down: an auto-increment key is never handed out twice. */
  ghost predicate CountersKept(before: Store, after: Store)
  {
    && before.nextUser <= after.nextUser
    && before.nextTopic <= after.nextTopic
    && before.nextRoom <= after.nextRoom
    && before.nextMessage <= after.nextMessage
  }

  /** Writing a room whose host, topic and participants exist, under an id
      below the new room counter, keeps the store valid. */
  lemma RoomWriteKeepsValid(s: Store, id: RoomId, room: Room, next: nat)
    requires Valid(s) && s.nextRoom <= next && id < next
    requires room.host in s.users && room.topic in s.topics && room.participants <= s.users.Keys
    ensures Valid(s.(rooms := s.rooms[id := room], nextRoom := next))
  {
  }

  /** Writing a message by an existing user into an allocated room, under a
      fresh id, keeps the store valid. */
  lemma MessageWriteKeepsValid(s: Store, id: MessageId, msg: Message)
    requires Valid(s) && id == s.nextMessage && msg.user in s.users && msg.room < s.nextRoom
    ensures Valid(s.(messages := s.messages[id := msg], nextMessage := id + 1))
  {
  }

  /** The lowest topic id in [from, bound) whose topic has this name. */
  function FindTopic(topics: map<TopicId, Topic>, name: string, from: nat, bound: nat): (r: Option<TopicId>)
    ensures r.Some? ==> from <= r.value < bound && r.value in topics && topics[r.value].name == name
    ensures r.Some? ==> forall t :: from <= t < r.value && t in topics ==> topics[t].name != name
    ensures r.None? ==> forall t :: from <= t < bound && t in topics ==> topics[t].name != name
    decreases bound - from
  {
    if from >= bound then None
    else if from in topics && topics[from].name == name then Some(from)
    else FindTopic(topics, name, from + 1, bound)
  }

  /** What `Topic.objects.get(name=...)` finds: no row, exactly one, or several. */
  datatype Lookup = NoTopic | OneTopic(id: TopicId) | ManyTopics

  function LookupTopic(s: Store, name: string): (r: Lookup)
    requires IdsBelowCounters(s)
    ensures r.NoTopic? <==> !Named(s.topics, name)
    ensures r.OneTopic? ==> r.id in s.topics && s.topics[r.id].name == name
    ensures r.OneTopic? ==> forall t :: t in s.topics && s.topics[t].name == name ==> t == r.id
    ensures r.ManyTopics? <==> NamedTwice(s.topics, name)
  {
    match FindTopic(s.topics, name, 0, s.nextTopic)
    case None => NoTopic
    case Some(first) =>
      match FindTopic(s.topics, name, first + 1, s.nextTopic)
      case None => OneTopic(first)
      case Some(second) => ManyTopics
  }

  /** Outcome of `Topic.objects.get_or_create(name=...)`: the updated store and
      the topic's id, or the error raised when several topics share the name. */
  datatype GetOrCreate = Got(store: Store, id: TopicId) | MultipleFound

  /** The topic table after get-or-create: unchanged when the name existed,
      otherwise exactly one new topic of that name under a fresh id. */
  ghost predicate GotOrCreated(before: map<TopicId, Topic>, after: map<TopicId, Topic>, name: string, id: TopicId)
  {
    && id in after && after[id].name == name
    && (Named(before, name) ==> after == before)
    && (!Named(before, name) ==> id !in before && after == before[id := Topic(name)])
  }

  function GetOrCreateTopic(s: Store, name: string): (r: GetOrCreate)
    requires Valid(s)
    ensures r.MultipleFound? <==> NamedTwice(s.topics, name)
    ensures TopicNamesUnique(s.topics) ==> r.Got?
    ensures r.Got? ==> GotOrCreated(s.topics, r.store.topics, name, r.id)
    ensures r.Got? ==> r.store == s.(topics := r.store.topics, nextTopic := r.store.nextTopic)
    ensures r.Got? ==> Valid(r.store) && CountersKept(s, r.store)
    ensures r.Got? && TopicNamesUnique(s.topics) ==> TopicNamesUnique(r.store.topics)
  {
    match LookupTopic(s, name)
    case OneTopic(t) => Got(s, t)
    case ManyTopics => MultipleFound
    case NoTopic =>
      var t := s.nextTopic;
      Got(s.(topics := s.topics[t := Topic(name)], nextTopic := t + 1), t)
  }

  /** The stored topic ids in [from, bound), in ascending order. */
  function TopicOrder(topics: map<TopicId, Topic>, from: nat, bound: nat): seq<TopicId>
    decreases bound - from
  {
    if from >= bound then []
    else if from in topics then [from] + TopicOrder(topics, from + 1, bound)
    else TopicOrder(topics, from + 1, bound)
  }

  /** The sequence holds stored ids of the range only, strictly ascending. */
  lemma {:induction false} TopicOrderSorted(topics: map<TopicId, Topic>, from: nat, bound: nat)
    ensures forall i :: 0 <= i < |TopicOrder(topics, from, bound)| ==>
      TopicOrder(topics, from, bound)[i] in topics && from <= TopicOrder(topics, from, bound)[i] < bound
    ensures forall i, j :: 0 <= i < j < |TopicOrder(topics, from, bound)| ==>
      TopicOrder(topics, from, bound)[i] < TopicOrder(topics, from, bound)[j]
    decreases bound - from
  {
    if from < bound {
      var rest := TopicOrder(topics, from + 1, bound);
      TopicOrderSorted(topics, from + 1, bound);
      if from in topics {
        var r := [from] + rest;
        assert forall i :: 1 <= i < |r| ==> r[i] == rest[i - 1];
      }
    }
  }

  /** Every stored id of the range appears in the sequence. */
  lemma {:induction false} TopicOrderComplete(topics: map<TopicId, Topic>, from: nat, bound: nat)
    ensures forall t :: from <= t < bound && t in topics ==> t in TopicOrder(topics, from, bound)
    decreases bound - from
  {
    if from < bound {
      TopicOrderComplete(topics, from + 1, bound);
    }
  }
}
