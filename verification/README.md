# Chat-room views in Dafny

A model of the request handlers of a small Django chat-room site
(`base/views.py`). Users host topic-tagged rooms, post messages in them and
search rooms and topics. Each handler is a pure function from the store and
the request to a `Reply`: the new store, the new session user and an
outcome. The outcome is a rendered view, a redirect, the "not allowed"
response, the login redirect, a not-found lookup, or a fault (an exception
the handler raises).

Files:

- `text.dfy`, module `Text`: ASCII lower-casing, an executable substring
  test proved equal to the "occurs at some index" definition, and `IContains`,
  the case-insensitive match behind every search.
- `models.dfy`, module `Models`: the store. It holds four tables (users,
  topics, rooms, messages), each a map from an auto-incremented id to a
  record. It also holds the store invariant `Valid`, the topic lookup by
  name, and get-or-create.
- `queries.dfy`, module `Queries`: the selections the pages show. These are
  the home-page room search, the related-message filter, the topic search and
  the first five topics.
- `views.dfy`, module `Views`: one function per handler.
- `properties.dfy`, module `Properties`: properties that span several
  requests, and a worked scenario.

Conventions of the model:

- A handler decorated with `login_required` answers an anonymous user with
  `LoginRedirect` and leaves the store alone.
- Every id lookup (`Room.objects.get`, `Message.objects.get`,
  `User.objects.get`) answers a missing id with `NotFound` and an unchanged
  store. The lookup comes before the ownership check, and the ownership check
  comes before the method check.
- Any method other than POST takes the GET branch.
- The mutating handlers require `Valid(s)`. `Valid` says:
  - every id lies below its table's counter;
  - every room's host, topic and participants exist;
  - every message's author exists, and its room id has been allocated
    (it lies below the room counter), so a room created later never
    inherits messages;
  - usernames are unique.
- `ViewRoom`, `CreateRoom`, `UpdateRoom` and `Register` also require that
  the session user, if there is one, exists. `DeleteRoom` and
  `DeleteMessage` need only `Valid`, since they never store the session
  user. Every mutating handler is proved to preserve `Valid` and never to
  lower an id counter (`CountersKept`).
- Room, message and topic listings are sets, because their order is not
  modelled. The only exception is the first-five topic list. It is a prefix
  of the topic table taken in ascending id order.

Behaviour of the code that the model keeps, although a reader might expect
otherwise:

- GET on the delete routes renders a confirmation page.
- A POST to a room page is not guarded by a login check. For an anonymous
  user, creating the message raises an exception, so the model gives `Fault`
  with the store unchanged.
- The home page's topic list is `Topic.objects.all()[0:5]`, with no
  "most recent" ordering in the view.
- A duplicate username is caught by the form, modelled as an input flag. If
  the form passes but the lower-cased name is already stored, the unique
  column makes the save fail, and the model gives `Fault`.
- `Topic.objects.get_or_create` raises when two topics share the name. The
  model gives `Fault` then. It also proves that the handlers never create
  such a duplicate (`TopicNamesUnique` is preserved).

## Model

| member | source | states |
|---|---|---|
| Text.Lower | base/views.py:133 | an ASCII capital maps to its lower-case letter, every other character is kept, and the result is never a capital |
| Text.LowerStr | base/views.py:133 | the result has the input's length, each character is its lower-cased counterpart, no character is a capital, and characters that were not capitals are kept |
| Text.ContainsIsSubstring | base/views.py:21-22 | the executable substring test is true exactly when the needle occurs at some index of the haystack |
| Text.IContains | base/views.py:21-22 | `icontains` holds exactly when the lower-cased query occurs in the lower-cased field |
| Text.EmptyNeedleMatches | base/views.py:19 | the default empty query matches every string |
| Text.LowerStrIdempotent | base/views.py:133 | a lower-cased username contains no upper-case letter, and lower-casing again changes nothing |
| Text.IContainsIgnoresCase | base/views.py:21-22 | the match does not depend on the case of the field or of the query |
| Models.FindTopic | base/views.py:58 | the scan returns the lowest id in the range whose topic has the name; if it returns none, no topic in the range has that name |
| Models.LookupTopic | base/views.py:58 | the lookup by name finds no topic exactly when none has the name, finds one that is the only one so named, and reports several exactly when two distinct topics share the name |
| Models.GetOrCreateTopic | base/views.py:58 | get-or-create leaves the topic table unchanged when the name exists, and otherwise adds exactly one topic of that name under a fresh id; it fails only when two topics share the name; it preserves `Valid` and topic-name uniqueness and lowers no id counter |
| Models.TopicOrderSorted | base/views.py:24 | the topic sequence holds only stored topic ids of the range, strictly ascending |
| Models.TopicOrderComplete | base/views.py:24 | every stored topic id of the range appears in the topic sequence |
| Queries.RoomMatches | base/views.py:20-23 | the room condition is the disjunction of case-insensitive matches on topic name, room name and description |
| Queries.SearchRooms | base/views.py:20-23 | a room is listed exactly when the query occurs, ignoring case, in its topic's name, its name or its description |
| Queries.MessageMatches | base/views.py:28 | the message condition is a case-insensitive match on the topic name of the message's room |
| Queries.MessagesForQuery | base/views.py:28 | a message is listed exactly when its room exists and the query occurs, ignoring case, in that room's topic name |
| Queries.SearchTopics | base/views.py:174 | a topic is listed exactly when the query occurs in its name, ignoring case |
| Queries.FirstTopics | base/views.py:24 | at most five topics are shown; they form a prefix of the topic sequence, and there are exactly five when at least five topics exist |
| Queries.EmptyQueryListsAll | base/views.py:19-23 | with `q` missing, every room and every topic is listed |
| Queries.ListedMessageHasListedRoom | base/views.py:20-28 | a listed message's room is always among the listed rooms |
| Queries.AllTopicsIsTopicTable | base/views.py:24 | the topic sequence holds every stored topic exactly once |
| Views.Home | base/views.py:18-31 | the home page changes nothing; it lists rooms by the three-field match and messages by the topic-name match of their room, with the missing query read as empty; the room count is the number of listed rooms; at most five topics appear, as a prefix of the topic sequence: exactly five when at least five exist, and every topic when fewer |
| Views.ViewRoom | base/views.py:33-50 | a missing room gives NotFound; GET shows the room's messages and participants and changes nothing; a POST by a user adds exactly one message (user, room, body) under a fresh id, adds the author to the participants, and changes no other room, user or topic; an anonymous POST faults with the store unchanged; `Valid` is kept and no id counter goes down |
| Views.CreateRoom | base/views.py:52-69 | anonymous gets the login redirect; GET changes nothing; POST get-or-creates the topic, adds exactly one room (host = current user, given name and description, no participants), changes no existing room and no user or message, and redirects home; the new room's id is fresh, so it holds no messages; no id counter goes down |
| Views.UpdateRoom | base/views.py:71-87 | a non-host is denied with the store unchanged, on GET and POST alike; a host's POST changes only that room's name, description and topic (get-or-create), keeping its host and participants, every other room and all messages and users; no id counter goes down |
| Views.SaveRoomEdit | base/views.py:79-84 | the POST branch of room editing fails exactly when two topics share the posted name; otherwise it changes only that room's name, description and topic, keeps the store valid and lowers no id counter |
| Views.DeleteRoom | base/views.py:89-97 | a non-host is denied with the store unchanged; the host's GET changes nothing; the host's POST removes exactly that room, leaves every other room, message, user and topic, and keeps the room counter as it was, so the id is never handed out again |
| Views.DeleteMessage | base/views.py:141-149 | a non-author is denied with the store unchanged; the author's GET changes nothing; the author's POST removes exactly that message, leaves every other message, room, user and topic, and keeps the message counter as it was; no id counter goes down |
| Views.Register | base/views.py:127-139 | GET and an invalid form change nothing; a valid form stores exactly one new user whose username is the lower-cased cleaned username of the form, makes it the session user and redirects home; a lower-cased name already stored faults; no id counter goes down |
| Views.UserProfile | base/views.py:151-157 | a missing user gives NotFound; otherwise the page lists exactly the rooms the user hosts, the messages the user wrote and all topics, changing nothing |
| Views.TopicsPage | base/views.py:171-176 | the page lists exactly the topics whose name contains the query (missing read as empty), ignoring case, and changes nothing |
| Views.ActivityPage | base/views.py:178-181 | the feed lists every stored message and changes nothing |
| Properties.PostTwiceKeepsParticipants | base/views.py:37-44 | posting twice as the same user adds two messages, but the second post leaves the participant set as the first one left it |
| Properties.GetOrCreateLeavesOneTopic | base/views.py:58 | after get-or-create under a name at most one topic carried, exactly one topic carries it |
| Properties.GetOrCreateIdempotent | base/views.py:58 | a second get-or-create for the same name returns the same topic and changes nothing |
| Properties.CreateRoomTwiceReusesTopic | base/views.py:56-67 | creating a second room under the same topic name leaves the topic table unchanged and points both rooms at one topic |
| Properties.UpdateGuardIgnoresMethod | base/views.py:76-97 | a non-host gets the same denial to GET and to POST on the update and delete routes |
| Properties.GetChangesNothing | base/views.py:33-149 | GET on every mutating route leaves the store unchanged |
| Properties.RecreatedRoomStartsEmpty | base/views.py:89-97 | after the host deletes a room, a room created next gets a different id and no messages, while the deleted room's messages keep their room id |
| Properties.DeletedRoomIsNotFound | base/views.py:89-97 | after the host deletes a room, opening it gives NotFound |
| Properties.FpgaFirstRoom | base/views.py:56-67 | creating "FPGA basics" under the unseen topic "Hardware" from a one-user store creates topic 0 and room 0 |
| Properties.FpgaSecondRoom | base/views.py:56-67 | creating "Chat" under the unseen topic "General" next creates topic 1 and room 1, leaving the first room alone |
| Properties.FpgaPostHello | base/views.py:37-44 | the host posting "hello" in the first room yields the store the search runs on: one message, and the host among that room's participants |
| Properties.FpgaSearch | base/views.py:18-31 | with those two rooms and a message in the first, searching "fpga" lists only the first room, and not its message, whose room's topic "Hardware" does not contain "fpga" |
| Properties.RegisterAliceScenario | base/views.py:131-135 | registering "Alice" stores "alice" and logs the new user in |

## Left out

- `loginPage` and `logoutUser` are left out. They delegate to the
  authentication collaborator (`authenticate`, `login`, `logout`), whose
  behaviour is not visible. Session change is modelled only where
  registration logs the new user in.
- `updateUser` is left out. Its effect is decided by `UserForm`, whose
  fields and validation are not part of this model.
- Views.Register: the username it receives is the form's cleaned value.
  The stripping of surrounding blanks and the Unicode normalisation done by
  the form field are library code and are not modelled.
- Whether the registration form is valid is an input flag
  (`UserCreationForm` is library code). So are the room-form fields, which
  are taken as posted strings. A missing POST field (`None`) is not
  modelled, because the column constraints are in `models.py`, which is not
  part of this model.
- Deleting a room does not delete its messages in this model. Any cascade
  is declared in `models.py`, which is not part of this model. `Valid`
  therefore does not require a message's room to exist, and a message whose
  room is gone is never listed on the home page.
- Template rendering and context dictionaries are left out. Only the
  selected entities are modelled.
- Timestamps and the order of rooms and messages are left out. The
  activity feed and the listings are sets. The order of the topic table is
  taken to be ascending id, since the `Meta` ordering is not visible.
- The `print` loop over participants in `room` is output only.
- `user.room_set` in `userProfile` is read as the rooms the user hosts,
  and `room.participants` as the many-to-many relation. Which relation
  carries a `related_name` is declared in `models.py`, which is not part
  of this model.
- The URL routing table (`base/urls.py`) is left out.
- Password hashing and all user fields other than the username are left
  out.
- `Text.Lower` folds ASCII letters only. It does not model Unicode
  `str.lower` or the database collation used by `icontains`.
- An unhandled `DoesNotExist` is an HTTP 500 in the original. The model
  reports it as the distinct outcome `NotFound`, with the store unchanged.
- `?next=` on the login redirect is not modelled.
