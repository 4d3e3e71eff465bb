/** The request handlers of `base/views.py`, each a pure transition from the
    store and the request (session user and HTTP method) to the new store, the
    new session user and an outcome. Handlers decorated with `login_required`
    send an anonymous user to the login page first; then come the id lookup,
    the ownership check, and only then the method check. */
module Views {
  import opened Text
  import opened Models
  import opened Queries

  /** Every method other than POST takes the same branch as GET. */
  datatype Method = Get | Post

  datatype Request = Request(user: Option<UserId>, verb: Method)

  /** The fields of the room form, as posted. */
  datatype RoomFields = RoomFields(topic: string, name: string, description: string)

  datatype Target = HomePage | RoomPage(room: RoomId)

  datatype Subject = RoomSubject(room: RoomId) | MessageSubject(message: MessageId)

  /** Which entities a rendered page shows. */
  datatype View =
    | HomeView(rooms: set<RoomId>, firstTopics: seq<TopicId>, roomCount: nat, messages: set<MessageId>)
    | RoomView(room: RoomId, messages: set<MessageId>, participants: set<UserId>)
    | RoomFormView(topics: set<TopicId>, editing: Option<RoomId>)
    | ConfirmDeleteView(subject: Subject)
    | RegisterView(failed: bool)
    | ProfileView(user: UserId, rooms: set<RoomId>, messages: set<MessageId>, topics: set<TopicId>)
    | TopicsView(topics: set<TopicId>)
    | ActivityView(messages: set<MessageId>)

  /** `Denied` is the plain "not allowed" response; `NotFound` is a failed
      primary-key lookup; `Fault` is any other exception the handler raises. */
  datatype Outcome =
    | Render(view: View)
    | Redirect(to: Target)
    | Denied
    | LoginRedirect
    | NotFound
    | Fault

  datatype Reply = Reply(store: Store, user: Option<UserId>, outcome: Outcome)

  /** The store after posting: exactly one message `msg`, under the fresh id `id`. */
  ghost predicate AddsMessage(before: Store, after: Store, id: MessageId, msg: Message)
  {
    id !in before.messages && after.messages == before.messages[id := msg]
  }

  /** The request comes from the host of the stored room `id`. */
  ghost predicate ByHost(s: Store, req: Request, id: RoomId)
  {
    req.user.Some? && id in s.rooms && req.user.value == s.rooms[id].host
  }

  /** The request comes from the author of the stored message `id`. */
  ghost predicate ByAuthor(s: Store, req: Request, id: MessageId)
  {
    req.user.Some? && id in s.messages && req.user.value == s.messages[id].user
  }

  /** The home page: the room search, the first topics, the room count and
      the related messages. */
  function Home(s: Store, req: Request, q: Option<string>): (r: Reply)
    ensures r.store == s && r.user == req.user
    ensures r.outcome.Render? && r.outcome.view.HomeView?
    ensures forall id :: id in r.outcome.view.rooms <==>
      id in s.rooms && RoomSelected(s, s.rooms[id], QueryOf(q))
    ensures forall id :: id in r.outcome.view.messages <==>
      id in s.messages && MessageSelected(s, s.messages[id], QueryOf(q))
    ensures r.outcome.view.roomCount == |r.outcome.view.rooms|
    ensures |r.outcome.view.firstTopics| <= 5 && r.outcome.view.firstTopics <= AllTopics(s)
    ensures |AllTopics(s)| >= 5 ==> |r.outcome.view.firstTopics| == 5
    ensures |AllTopics(s)| < 5 ==> r.outcome.view.firstTopics == AllTopics(s)
  {
    var query := QueryOf(q);
    var rooms := SearchRooms(s, query);
    Reply(s, req.user, Render(HomeView(rooms, FirstTopics(s), |rooms|, MessagesForQuery(s, query))))
  }

  /** A room page; a POST appends a message and adds its author to the
      participants. The room is looked up before the method is examined. */
  function ViewRoom(s: Store, req: Request, id: RoomId, body: string): (r: Reply)
    requires Valid(s) && SessionOk(s, req.user)
    ensures r.user == req.user && Valid(r.store) && CountersKept(s, r.store)
    ensures id !in s.rooms ==> r == Reply(s, req.user, NotFound)
    ensures id in s.rooms && req.verb == Get ==>
      && r.store == s
      && r.outcome.Render? && r.outcome.view.RoomView? && r.outcome.view.room == id
      && r.outcome.view.participants == s.rooms[id].participants
      && (forall m :: m in r.outcome.view.messages <==> m in s.messages && s.messages[m].room == id)
    ensures id in s.rooms && req.verb == Post && req.user.None? ==> r == Reply(s, req.user, Fault)
    ensures id in s.rooms && req.verb == Post && req.user.Some? ==>
      && r.outcome == Redirect(RoomPage(id))
      && AddsMessage(s, r.store, s.nextMessage, Message(req.user.value, id, body))
      && r.store.rooms.Keys == s.rooms.Keys
      && r.store.rooms[id].participants == s.rooms[id].participants + {req.user.value}
      && r.store.rooms[id] == s.rooms[id].(participants := r.store.rooms[id].participants)
      && (forall other :: other in s.rooms && other != id ==> r.store.rooms[other] == s.rooms[other])
      && r.store.users == s.users && r.store.topics == s.topics
  {
    if id !in s.rooms then Reply(s, req.user, NotFound)
    else if req.verb == Post then
      match req.user
      case None => Reply(s, req.user, Fault)
      case Some(u) =>
        var room := s.rooms[id].(participants := s.rooms[id].participants + {u});
        var m := s.nextMessage;
        MessageWriteKeepsValid(s, m, Message(u, id, body));
        var s1 := s.(messages := s.messages[m := Message(u, id, body)], nextMessage := m + 1);
        RoomWriteKeepsValid(s1, id, room, s1.nextRoom);
        Reply(s1.(rooms := s1.rooms[id := room]), req.user, Redirect(RoomPage(id)))
    else
      Reply(s, req.user, Render(RoomView(id, RoomMessages(s, id), s.rooms[id].participants)))
  }

  /** Room creation: get-or-create the topic by name, then add a room hosted
      by the current user. */
  function CreateRoom(s: Store, req: Request, form: RoomFields): (r: Reply)
    requires Valid(s) && SessionOk(s, req.user)
    ensures r.user == req.user && Valid(r.store) && CountersKept(s, r.store)
    ensures TopicNamesUnique(s.topics) ==> TopicNamesUnique(r.store.topics)
    ensures req.user.None? ==> r == Reply(s, req.user, LoginRedirect)
    ensures req.user.Some? && req.verb == Get ==>
      r == Reply(s, req.user, Render(RoomFormView(s.topics.Keys, None)))
    ensures req.user.Some? && req.verb == Post && NamedTwice(s.topics, form.topic) ==>
      r == Reply(s, req.user, Fault)
    ensures req.user.Some? && req.verb == Post && !NamedTwice(s.topics, form.topic) ==>
      && r.outcome == Redirect(HomePage)
      && s.nextRoom !in s.rooms
      && r.store.rooms.Keys == s.rooms.Keys + {s.nextRoom}
      && (forall other :: other in s.rooms ==> r.store.rooms[other] == s.rooms[other])
      && r.store.rooms[s.nextRoom].host == req.user.value
      && r.store.rooms[s.nextRoom].name == form.name
      && r.store.rooms[s.nextRoom].description == form.description
      && r.store.rooms[s.nextRoom].participants == {}
      && RoomMessages(r.store, s.nextRoom) == {}
      && GotOrCreated(s.topics, r.store.topics, form.topic, r.store.rooms[s.nextRoom].topic)
      && r.store.users == s.users && r.store.messages == s.messages
  {
    match req.user
    case None => Reply(s, req.user, LoginRedirect)
    case Some(u) =>
      if req.verb == Post then
        match GetOrCreateTopic(s, form.topic)
        case MultipleFound => Reply(s, req.user, Fault)
        case Got(s1, t) =>
          var id := s1.nextRoom;
          var room := Room(u, t, form.name, form.description, {});
          RoomWriteKeepsValid(s1, id, room, id + 1);
          Reply(s1.(rooms := s1.rooms[id := room], nextRoom := id + 1), req.user, Redirect(HomePage))
      else
        Reply(s, req.user, Render(RoomFormView(s.topics.Keys, None)))
  }

  /** The store after room `id` is edited with `form`: the room keeps its
      host and participants and takes the form's name, description and
      (get-or-created) topic; no other room, user or message changes. */
  ghost predicate RoomEdited(s: Store, s': Store, id: RoomId, form: RoomFields)
  {
    && id in s.rooms
    && s'.rooms.Keys == s.rooms.Keys
    && (forall other :: other in s.rooms && other != id ==> s'.rooms[other] == s.rooms[other])
    && s'.rooms[id].host == s.rooms[id].host
    && s'.rooms[id].participants == s.rooms[id].participants
    && s'.rooms[id].name == form.name
    && s'.rooms[id].description == form.description
    && GotOrCreated(s.topics, s'.topics, form.topic, s'.rooms[id].topic)
    && s'.users == s.users && s'.messages == s.messages
  }

  /** Writing the edited room into the store get-or-create returned gives
      exactly the edit `RoomEdited` describes. */
  lemma RoomEditFrame(s: Store, s1: Store, id: RoomId, form: RoomFields, t: TopicId)
    requires id in s.rooms && s1 == s.(topics := s1.topics, nextTopic := s1.nextTopic)
    requires GotOrCreated(s.topics, s1.topics, form.topic, t)
    ensures RoomEdited(s, s1.(rooms := s1.rooms[id := s1.rooms[id].(name := form.name, topic := t, description := form.description)]), id, form)
  {
  }

  /** The POST branch of room editing: get-or-create the topic, then save the
      room; `None` when the topic lookup raises. */
  function SaveRoomEdit(s: Store, id: RoomId, form: RoomFields): (r: Option<Store>)
    requires Valid(s) && id in s.rooms
    ensures r.None? <==> NamedTwice(s.topics, form.topic)
    ensures r.Some? ==> RoomEdited(s, r.value, id, form) && Valid(r.value) && CountersKept(s, r.value)
    ensures r.Some? && TopicNamesUnique(s.topics) ==> TopicNamesUnique(r.value.topics)
  {
    match GetOrCreateTopic(s, form.topic)
    case MultipleFound => None
    case Got(s1, t) =>
      var room := s1.rooms[id].(name := form.name, topic := t, description := form.description);
      RoomWriteKeepsValid(s1, id, room, s1.nextRoom);
      RoomEditFrame(s, s1, id, form, t);
      Some(s1.(rooms := s1.rooms[id := room]))
  }

  /** Room editing, allowed to the host only; the topic is get-or-created. */
  function UpdateRoom(s: Store, req: Request, id: RoomId, form: RoomFields): (r: Reply)
    requires Valid(s) && SessionOk(s, req.user)
    ensures r.user == req.user && Valid(r.store) && CountersKept(s, r.store)
    ensures TopicNamesUnique(s.topics) ==> TopicNamesUnique(r.store.topics)
    ensures req.user.None? ==> r == Reply(s, req.user, LoginRedirect)
    ensures req.user.Some? && id !in s.rooms ==> r == Reply(s, req.user, NotFound)
    ensures req.user.Some? && id in s.rooms && req.user.value != s.rooms[id].host ==>
      r == Reply(s, req.user, Denied)
    ensures ByHost(s, req, id) && req.verb == Get ==>
      r == Reply(s, req.user, Render(RoomFormView(s.topics.Keys, Some(id))))
    ensures ByHost(s, req, id) && req.verb == Post && NamedTwice(s.topics, form.topic) ==>
      r == Reply(s, req.user, Fault)
    ensures ByHost(s, req, id) && req.verb == Post && !NamedTwice(s.topics, form.topic) ==>
      r.outcome == Redirect(HomePage) && RoomEdited(s, r.store, id, form)
  {
    match req.user
    case None => Reply(s, req.user, LoginRedirect)
    case Some(u) =>
      if id !in s.rooms then Reply(s, req.user, NotFound)
      else if u != s.rooms[id].host then Reply(s, req.user, Denied)
      else if req.verb == Post then
        match SaveRoomEdit(s, id, form)
        case None => Reply(s, req.user, Fault)
        case Some(s') => Reply(s', req.user, Redirect(HomePage))
      else
        Reply(s, req.user, Render(RoomFormView(s.topics.Keys, Some(id))))
  }

  /** Room deletion, allowed to the host only; GET asks for confirmation. */
  function DeleteRoom(s: Store, req: Request, id: RoomId): (r: Reply)
    requires Valid(s)
    ensures r.user == req.user && Valid(r.store) && CountersKept(s, r.store)
    ensures req.user.None? ==> r == Reply(s, req.user, LoginRedirect)
    ensures req.user.Some? && id !in s.rooms ==> r == Reply(s, req.user, NotFound)
    ensures req.user.Some? && id in s.rooms && req.user.value != s.rooms[id].host ==>
      r == Reply(s, req.user, Denied)
    ensures ByHost(s, req, id) && req.verb == Get ==>
      r == Reply(s, req.user, Render(ConfirmDeleteView(RoomSubject(id))))
    ensures ByHost(s, req, id) && req.verb == Post ==>
      && r.outcome == Redirect(HomePage)
      && r.store.rooms.Keys == s.rooms.Keys - {id}
      && (forall other :: other in r.store.rooms ==> r.store.rooms[other] == s.rooms[other])
      && r.store.users == s.users && r.store.topics == s.topics && r.store.messages == s.messages
      && r.store.nextRoom == s.nextRoom
  {
    match req.user
    case None => Reply(s, req.user, LoginRedirect)
    case Some(u) =>
      if id !in s.rooms then Reply(s, req.user, NotFound)
      else if u != s.rooms[id].host then Reply(s, req.user, Denied)
      else if req.verb == Post then Reply(s.(rooms := s.rooms - {id}), req.user, Redirect(HomePage))
      else Reply(s, req.user, Render(ConfirmDeleteView(RoomSubject(id))))
  }

  /** Message deletion, allowed to the author only; GET asks for confirmation. */
  function DeleteMessage(s: Store, req: Request, id: MessageId): (r: Reply)
    requires Valid(s)
    ensures r.user == req.user && Valid(r.store) && CountersKept(s, r.store)
    ensures req.user.None? ==> r == Reply(s, req.user, LoginRedirect)
    ensures req.user.Some? && id !in s.messages ==> r == Reply(s, req.user, NotFound)
    ensures req.user.Some? && id in s.messages && req.user.value != s.messages[id].user ==>
      r == Reply(s, req.user, Denied)
    ensures ByAuthor(s, req, id) && req.verb == Get ==>
      r == Reply(s, req.user, Render(ConfirmDeleteView(MessageSubject(id))))
    ensures ByAuthor(s, req, id) && req.verb == Post ==>
      && r.outcome == Redirect(HomePage)
      && r.store.messages.Keys == s.messages.Keys - {id}
      && (forall other :: other in r.store.messages ==> r.store.messages[other] == s.messages[other])
      && r.store.users == s.users && r.store.topics == s.topics && r.store.rooms == s.rooms
      && r.store.nextMessage == s.nextMessage
  {
    match req.user
    case None => Reply(s, req.user, LoginRedirect)
    case Some(u) =>
      if id !in s.messages then Reply(s, req.user, NotFound)
      else if u != s.messages[id].user then Reply(s, req.user, Denied)
      else if req.verb == Post then Reply(s.(messages := s.messages - {id}), req.user, Redirect(HomePage))
      else Reply(s, req.user, Render(ConfirmDeleteView(MessageSubject(id))))
  }

  /** Some stored user already has this username. */
  ghost predicate UsernameTaken(users: map<UserId, User>, name: string)
  {
    exists u :: u in users && users[u].username == name
  }

  /** Registration. `formValid` is the verdict of the registration form and
      `username` is the form's cleaned username (already stripped and
      normalised by the form field); on a valid form it is lower-cased, the
      user is saved and becomes the session user. */
  function Register(s: Store, req: Request, formValid: bool, username: string): (r: Reply)
    requires Valid(s) && SessionOk(s, req.user)
    ensures Valid(r.store) && SessionOk(r.store, r.user) && CountersKept(s, r.store)
    ensures req.verb == Get ==> r == Reply(s, req.user, Render(RegisterView(false)))
    ensures req.verb == Post && !formValid ==> r == Reply(s, req.user, Render(RegisterView(true)))
    ensures req.verb == Post && formValid && UsernameTaken(s.users, LowerStr(username)) ==>
      r == Reply(s, req.user, Fault)
    ensures req.verb == Post && formValid && !UsernameTaken(s.users, LowerStr(username)) ==>
      && r.outcome == Redirect(HomePage)
      && r.user.Some? && r.user.value !in s.users
      && r.store.users == s.users[r.user.value := User(LowerStr(username))]
      && IsLowerCase(r.store.users[r.user.value].username)
      && r.store.topics == s.topics && r.store.rooms == s.rooms && r.store.messages == s.messages
  {
    if req.verb == Post then
      if formValid then
        var name := LowerStr(username);
        if User(name) in s.users.Values then Reply(s, req.user, Fault)
        else
          var u := s.nextUser;
          Reply(s.(users := s.users[u := User(name)], nextUser := u + 1), Some(u), Redirect(HomePage))
      else Reply(s, req.user, Render(RegisterView(true)))
    else Reply(s, req.user, Render(RegisterView(false)))
  }

  /** A user's profile: the rooms they host, the messages they wrote, and all topics. */
  function UserProfile(s: Store, req: Request, id: UserId): (r: Reply)
    ensures r.store == s && r.user == req.user
    ensures id !in s.users ==> r.outcome == NotFound
    ensures id in s.users ==>
      && r.outcome.Render? && r.outcome.view.ProfileView? && r.outcome.view.user == id
      && (forall k :: k in r.outcome.view.rooms <==> k in s.rooms && s.rooms[k].host == id)
      && (forall m :: m in r.outcome.view.messages <==> m in s.messages && s.messages[m].user == id)
      && r.outcome.view.topics == s.topics.Keys
  {
    if id !in s.users then Reply(s, req.user, NotFound)
    else Reply(s, req.user, Render(ProfileView(id, HostedRooms(s, id), AuthoredMessages(s, id), s.topics.Keys)))
  }

  /** The topics page: topics whose name contains `q`, ignoring case. */
  function TopicsPage(s: Store, req: Request, q: Option<string>): (r: Reply)
    ensures r.store == s && r.user == req.user
    ensures r.outcome.Render? && r.outcome.view.TopicsView?
    ensures forall t :: t in r.outcome.view.topics <==>
      t in s.topics && MatchesIgnoringCase(s.topics[t].name, QueryOf(q))
  {
    Reply(s, req.user, Render(TopicsView(SearchTopics(s, QueryOf(q)))))
  }

  /** The activity feed: every stored message. */
  function ActivityPage(s: Store, req: Request): (r: Reply)
    ensures r.store == s && r.user == req.user
    ensures r.outcome.Render? && r.outcome.view.ActivityView?
    ensures forall m :: m in r.outcome.view.messages <==> m in s.messages
  {
    Reply(s, req.user, Render(ActivityView(s.messages.Keys)))
  }
}
