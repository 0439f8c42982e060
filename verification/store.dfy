/** The relational store behind every route: one sequence of rows per table,
    in insertion order, and one monotone counter `clock` that hands out row
    ids and stands for `created_at` (so "ORDER BY created_at" is id order).
    Also the schema's integrity rules: the foreign keys with their
    ON DELETE CASCADE chain and the uniqueness the routes rely on. */
module Store {
  import opened Basics
  import opened Text

  /** Row identifiers. SQLite rowids start at 1, and a session user id is
      always a row id, so 0 (falsy in JavaScript) never names a row. */
  type Id = n: nat | 1 <= n witness 1

  /** A stored password. bcrypt is abstracted: the hash is a sealed wrapper
      and Verify accepts exactly the password it was made from. */
  datatype Credential = Hashed(secret: string)

  function Hash(password: string): Credential
  {
    Hashed(password)
  }

  predicate Verify(password: string, stored: Credential)
  {
    stored == Hash(password)
  }

  datatype User = User(id: Id, email: string, password: Credential, name: string,
                       phone: Option<string>, photo: string)

  datatype Trip = Trip(id: Id, owner: Id, departure: string, arrival: string,
                       date: string, time: string, description: Option<string>,
                       availability: string, capacity: string, photo: Option<string>,
                       status: string)

  datatype TripRequest = TripRequest(id: Id, trip: Id, requester: Id,
                                     message: Option<string>, status: string)

  /** user1 is the trip owner who accepted, user2 the requester. */
  datatype Conversation = Conversation(id: Id, request: Id, user1: Id, user2: Id)

  datatype Message = Message(id: Id, conversation: Id, sender: Id, content: string, read: bool)

  /** The four values the routes ever write into `notifications.type`. */
  datatype Kind = NewMessage | RequestReceived | RequestAccepted | RequestRejected

  datatype Notification = Notification(id: Id, owner: Id, kind: Kind, title: string,
                                       body: string, link: string, read: bool)

  /** A password-reset token; `expires` is a time in milliseconds. */
  datatype ResetToken = ResetToken(id: Id, user: Id, token: string, expires: int, used: bool)

  datatype State = State(users: seq<User>, trips: seq<Trip>, requests: seq<TripRequest>,
                         conversations: seq<Conversation>, messages: seq<Message>,
                         notifications: seq<Notification>, tokens: seq<ResetToken>,
                         clock: Id)

  /** An HTTP reply: a status code with either a payload or an error message. */
  datatype Response<T> = Ok(code: nat, value: T) | Err(code: nat, error: string)

  /** A handler's outcome: the reply and the store after the handler ran. */
  datatype Step<T> = Step(response: Response<T>, state: State)

  const NotAuthorized := "Not authorized"
  const ServerError := "Server error"
  const DefaultAvatar := "/assets/images/default-avatar.svg"

  function KindName(k: Kind): string
  {
    match k
    case NewMessage => "new_message"
    case RequestReceived => "request_received"
    case RequestAccepted => "request_accepted"
    case RequestRejected => "request_rejected"
  }

  function Empty(): State
  {
    State([], [], [], [], [], [], [], 1)
  }

  // ---------------------------------------------------------------- lookups

  predicate HasUser(users: seq<User>, id: Id)
  {
    exists u :: u in users && u.id == id
  }

  predicate HasTrip(trips: seq<Trip>, id: Id)
  {
    exists t :: t in trips && t.id == id
  }

  predicate HasRequest(requests: seq<TripRequest>, id: Id)
  {
    exists r :: r in requests && r.id == id
  }

  predicate HasConversation(conversations: seq<Conversation>, id: Id)
  {
    exists c :: c in conversations && c.id == id
  }

  function UserById(s: State, id: Id): Option<User>
  {
    Find(s.users, (u: User) => u.id == id)
  }

  function TripById(s: State, id: Id): Option<Trip>
  {
    Find(s.trips, (t: Trip) => t.id == id)
  }

  function RequestById(s: State, id: Id): Option<TripRequest>
  {
    Find(s.requests, (r: TripRequest) => r.id == id)
  }

  /** The name column of a joined users row. */
  function NameOf(s: State, id: Id): string
  {
    match UserById(s, id)
    case Some(u) => u.name
    case None => ""
  }

  /** The profile_photo column of a joined users row. */
  function PhotoOf(s: State, id: Id): string
  {
    match UserById(s, id)
    case Some(u) => u.photo
    case None => ""
  }

  predicate IsParticipant(c: Conversation, u: Id)
  {
    c.user1 == u || c.user2 == u
  }

  /** `user1 === userId ? user2 : user1`. */
  function OtherParticipant(c: Conversation, u: Id): Id
  {
    if c.user1 == u then c.user2 else c.user1
  }

  /** Appends a notification row: the fire-and-forget side effect of the routes. */
  function Notify(s: State, owner: Id, kind: Kind, title: string, body: string, link: string): State
  {
    s.(notifications := s.notifications + [Notification(s.clock, owner, kind, title, body, link, false)],
       clock := s.clock + 1)
  }

  /** INSERT INTO trip_requests: a new row with the next id. */
  function AddRequest(s: State, trip: Id, requester: Id, message: Option<string>, status: string): State
  {
    s.(requests := s.requests + [TripRequest(s.clock, trip, requester, message, status)], clock := s.clock + 1)
  }

  /** UPDATE trip_requests SET status = ? WHERE id = ?. */
  function SetRequestStatus(requests: seq<TripRequest>, id: Id, status: string): seq<TripRequest>
  {
    Update(requests, (r: TripRequest) => r.id == id, (r: TripRequest) => r.(status := status))
  }

  /** INSERT INTO conversations: a new row with the next id. */
  function AddConversation(s: State, request: Id, user1: Id, user2: Id): State
  {
    s.(conversations := s.conversations + [Conversation(s.clock, request, user1, user2)], clock := s.clock + 1)
  }

  /** INSERT INTO messages: a new unread row with the next id. */
  function AddMessage(s: State, conversation: Id, sender: Id, content: string): State
  {
    s.(messages := s.messages + [Message(s.clock, conversation, sender, content, false)], clock := s.clock + 1)
  }

  // ---------------------------------------------------------- integrity rules

  /** Ids strictly increase along the table and were all handed out before `clock`. */
  ghost predicate Stamped<T>(rows: seq<T>, id: T -> int, clock: int)
  {
    && Ascending(rows, id)
    && (forall i :: 0 <= i < |rows| ==> id(rows[i]) < clock)
  }

  ghost predicate Chronological(s: State)
  {
    && Stamped(s.users, (u: User) => u.id, s.clock)
    && Stamped(s.trips, (t: Trip) => t.id, s.clock)
    && Stamped(s.requests, (r: TripRequest) => r.id, s.clock)
    && Stamped(s.conversations, (c: Conversation) => c.id, s.clock)
    && Stamped(s.messages, (m: Message) => m.id, s.clock)
    && Stamped(s.notifications, (n: Notification) => n.id, s.clock)
    && Stamped(s.tokens, (k: ResetToken) => k.id, s.clock)
  }

  /** The users.email UNIQUE constraint. */
  ghost predicate UniqueEmails(users: seq<User>)
  {
    forall i, j :: 0 <= i < j < |users| ==> users[i].email != users[j].email
  }

  /** Every account has an email: registration refuses an empty one and a
      profile update only ever writes a non-empty one. */
  ghost predicate EmailsPresent(users: seq<User>)
  {
    forall u :: u in users ==> u.email != ""
  }

  /** The password_reset_tokens.token UNIQUE constraint. */
  ghost predicate UniqueTokens(tokens: seq<ResetToken>)
  {
    forall i, j :: 0 <= i < j < |tokens| ==> tokens[i].token != tokens[j].token
  }

  /** The rule the request route enforces by its duplicate check. */
  ghost predicate OneRequestPerPair(requests: seq<TripRequest>)
  {
    forall i, j :: 0 <= i < j < |requests| ==>
      !(requests[i].trip == requests[j].trip && requests[i].requester == requests[j].requester)
  }

  /** Every foreign key of the schema points at an existing row. */
  ghost predicate Linked(s: State)
  {
    && (forall t :: t in s.trips ==> HasUser(s.users, t.owner))
    && (forall r :: r in s.requests ==> HasTrip(s.trips, r.trip) && HasUser(s.users, r.requester))
    && (forall c :: c in s.conversations ==>
          HasRequest(s.requests, c.request) && HasUser(s.users, c.user1) && HasUser(s.users, c.user2))
    && (forall m :: m in s.messages ==> HasConversation(s.conversations, m.conversation) && HasUser(s.users, m.sender))
    && (forall n :: n in s.notifications ==> HasUser(s.users, n.owner))
    && (forall k :: k in s.tokens ==> HasUser(s.users, k.user))
  }

  /** The invariant every reachable store satisfies. */
  ghost predicate Valid(s: State)
  {
    && Chronological(s)
    && UniqueEmails(s.users)
    && EmailsPresent(s.users)
    && UniqueTokens(s.tokens)
    && OneRequestPerPair(s.requests)
    && Linked(s)
  }

  lemma EmptyValid()
    ensures Valid(Empty())
  {
  }

  lemma StampedAppend<T>(rows: seq<T>, x: T, id: T -> int, clock: int)
    requires Stamped(rows, id, clock)
    requires id(x) == clock
    ensures Stamped(rows + [x], id, clock + 1)
  {
  }

  lemma StampedLater<T>(rows: seq<T>, id: T -> int, clock: int, later: int)
    requires Stamped(rows, id, clock)
    requires clock <= later
    ensures Stamped(rows, id, later)
  {
  }

  lemma StampedFilter<T(!new)>(rows: seq<T>, p: T -> bool, id: T -> int, clock: int)
    requires Stamped(rows, id, clock)
    ensures Stamped(Filter(rows, p), id, clock)
  {
    FilterAscending(rows, p, id);
    var r := Filter(rows, p);
    forall i | 0 <= i < |r|
      ensures id(r[i]) < clock
    {
      assert r[i] in rows;
    }
  }

  lemma StampedUpdate<T>(rows: seq<T>, p: T -> bool, f: T -> T, id: T -> int, clock: int)
    requires Stamped(rows, id, clock)
    requires forall x :: id(f(x)) == id(x)
    ensures Stamped(Update(rows, p, f), id, clock)
  {
  }

  lemma ChronologicalLater(s: State, later: Id)
    requires Chronological(s) && s.clock <= later
    ensures Chronological(s.(clock := later))
  {
    StampedLater(s.users, (u: User) => u.id, s.clock, later);
    StampedLater(s.trips, (t: Trip) => t.id, s.clock, later);
    StampedLater(s.requests, (r: TripRequest) => r.id, s.clock, later);
    StampedLater(s.conversations, (c: Conversation) => c.id, s.clock, later);
    StampedLater(s.messages, (m: Message) => m.id, s.clock, later);
    StampedLater(s.notifications, (n: Notification) => n.id, s.clock, later);
    StampedLater(s.tokens, (k: ResetToken) => k.id, s.clock, later);
  }

  /** A notification for an existing user keeps the store valid. */
  lemma NotifyValid(s: State, owner: Id, kind: Kind, title: string, body: string, link: string)
    requires Valid(s) && HasUser(s.users, owner)
    ensures Valid(Notify(s, owner, kind, title, body, link))
  {
    ChronologicalLater(s, s.clock + 1);
    StampedAppend(s.notifications, Notification(s.clock, owner, kind, title, body, link, false),
                  (n: Notification) => n.id, s.clock);
  }

  /** A request for an existing trip by an existing user, for a pair that has
      none yet, keeps the store valid. */
  lemma AddRequestValid(s: State, trip: Id, requester: Id, message: Option<string>, status: string)
    requires Valid(s) && HasTrip(s.trips, trip) && HasUser(s.users, requester)
    requires forall r :: r in s.requests ==> !(r.trip == trip && r.requester == requester)
    ensures Valid(AddRequest(s, trip, requester, message, status))
  {
    var s' := AddRequest(s, trip, requester, message, status);
    ChronologicalLater(s, s.clock + 1);
    StampedAppend(s.requests, s'.requests[|s.requests|], (r: TripRequest) => r.id, s.clock);
    assert s'.requests == s.requests + [s'.requests[|s.requests|]];
    forall i, j | 0 <= i < j < |s'.requests|
      ensures !(s'.requests[i].trip == s'.requests[j].trip && s'.requests[i].requester == s'.requests[j].requester)
    {
      assert s'.requests[i] == s.requests[i];
      if j < |s.requests| {
        assert s'.requests[j] == s.requests[j];
      } else {
        assert s.requests[i] in s.requests;
      }
    }
    forall c | c in s'.conversations
      ensures HasRequest(s'.requests, c.request)
    {
      var r :| r in s.requests && r.id == c.request;
      assert r in s'.requests;
    }
  }

  /** Changing a request's status keeps the store valid. */
  lemma SetRequestStatusValid(s: State, id: Id, status: string)
    requires Valid(s)
    ensures Valid(s.(requests := SetRequestStatus(s.requests, id, status)))
  {
    var rs := SetRequestStatus(s.requests, id, status);
    StampedUpdate(s.requests, (r: TripRequest) => r.id == id, (r: TripRequest) => r.(status := status),
                  (r: TripRequest) => r.id, s.clock);
    SetRequestStatusPairs(s.requests, id, status);
    SetRequestStatusLinked(s, id, status);
  }

  lemma SetRequestStatusPairs(requests: seq<TripRequest>, id: Id, status: string)
    requires OneRequestPerPair(requests)
    ensures OneRequestPerPair(SetRequestStatus(requests, id, status))
  {
    var rs := SetRequestStatus(requests, id, status);
    forall i, j | 0 <= i < j < |rs|
      ensures !(rs[i].trip == rs[j].trip && rs[i].requester == rs[j].requester)
    {
      assert rs[i].trip == requests[i].trip && rs[i].requester == requests[i].requester;
      assert rs[j].trip == requests[j].trip && rs[j].requester == requests[j].requester;
    }
  }

  lemma SetRequestStatusLinked(s: State, id: Id, status: string)
    requires Linked(s)
    ensures Linked(s.(requests := SetRequestStatus(s.requests, id, status)))
  {
    var rs := SetRequestStatus(s.requests, id, status);
    forall r | r in rs
      ensures HasTrip(s.trips, r.trip) && HasUser(s.users, r.requester)
    {
      var k :| 0 <= k < |rs| && rs[k] == r;
      assert s.requests[k] in s.requests;
    }
    forall c | c in s.conversations
      ensures HasRequest(rs, c.request)
    {
      var r :| r in s.requests && r.id == c.request;
      var k :| 0 <= k < |s.requests| && s.requests[k] == r;
      assert rs[k] in rs;
    }
  }

  /** A conversation for an existing request between existing users keeps the store valid. */
  lemma AddConversationValid(s: State, request: Id, user1: Id, user2: Id)
    requires Valid(s) && HasRequest(s.requests, request) && HasUser(s.users, user1) && HasUser(s.users, user2)
    ensures Valid(AddConversation(s, request, user1, user2))
  {
    var s' := AddConversation(s, request, user1, user2);
    ChronologicalLater(s, s.clock + 1);
    StampedAppend(s.conversations, s'.conversations[|s.conversations|], (c: Conversation) => c.id, s.clock);
    assert s'.conversations == s.conversations + [s'.conversations[|s.conversations|]];
    forall m | m in s'.messages
      ensures HasConversation(s'.conversations, m.conversation)
    {
      var c :| c in s.conversations && c.id == m.conversation;
      assert c in s'.conversations;
    }
  }

  /** A message in an existing conversation by an existing user keeps the store valid. */
  lemma AddMessageValid(s: State, conversation: Id, sender: Id, content: string)
    requires Valid(s) && HasConversation(s.conversations, conversation) && HasUser(s.users, sender)
    ensures Valid(AddMessage(s, conversation, sender, content))
  {
    var s' := AddMessage(s, conversation, sender, content);
    ChronologicalLater(s, s.clock + 1);
    StampedAppend(s.messages, s'.messages[|s.messages|], (m: Message) => m.id, s.clock);
    assert s'.messages == s.messages + [s'.messages[|s.messages|]];
  }

  // ------------------------------------------------------------------ cascade

  /** Ids of the requests that reference the trip. */
  function GoneRequests(s: State, tripId: Id): set<Id>
  {
    set r | r in s.requests && r.trip == tripId :: r.id
  }

  /** Ids of the conversations that reference one of those requests. */
  function GoneConversations(s: State, tripId: Id): set<Id>
  {
    set c | c in s.conversations && c.request in GoneRequests(s, tripId) :: c.id
  }

  /** DELETE FROM trips WHERE id = tripId with foreign keys on: the trip's
      requests go (trip_requests.trip_id), then the conversations of those
      requests (conversations.trip_request_id), then their messages
      (messages.conversation_id). Nothing else references a trip. */
  function DeleteTripCascade(s: State, tripId: Id): (s': State)
    ensures forall t :: t in s'.trips <==> t in s.trips && t.id != tripId
    ensures forall r :: r in s'.requests <==> r in s.requests && r.trip != tripId
    ensures forall c :: c in s'.conversations <==>
              c in s.conversations && !(exists r :: r in s.requests && r.trip == tripId && r.id == c.request)
    ensures forall m :: m in s'.messages <==>
              m in s.messages && !(exists c :: c in s.conversations && c.id == m.conversation && c !in s'.conversations)
    ensures s'.users == s.users && s'.notifications == s.notifications
    ensures s'.tokens == s.tokens && s'.clock == s.clock
  {
    var goneRequests := GoneRequests(s, tripId);
    var goneConversations := GoneConversations(s, tripId);
    var conversations' := Filter(s.conversations, (c: Conversation) => c.request !in goneRequests);
    assert forall c :: c in s.conversations ==> (c !in conversations' <==> c.request in goneRequests);
    s.(trips := Filter(s.trips, (t: Trip) => t.id != tripId),
       requests := Filter(s.requests, (r: TripRequest) => r.trip != tripId),
       conversations := conversations',
       messages := Filter(s.messages, (m: Message) => m.conversation !in goneConversations))
  }

  /** The cascade leaves no dangling reference and keeps every other rule. */
  lemma DeleteTripCascadeValid(s: State, tripId: Id)
    requires Valid(s)
    ensures Valid(DeleteTripCascade(s, tripId))
  {
    var s' := DeleteTripCascade(s, tripId);
    CascadeChronological(s, tripId);
    OneRequestPerPairFilter(s.requests, (r: TripRequest) => r.trip != tripId);
    CascadeLinked(s, tripId);
  }

  lemma CascadeChronological(s: State, tripId: Id)
    requires Chronological(s)
    ensures Chronological(DeleteTripCascade(s, tripId))
  {
    StampedFilter(s.trips, (t: Trip) => t.id != tripId, (t: Trip) => t.id, s.clock);
    StampedFilter(s.requests, (r: TripRequest) => r.trip != tripId, (r: TripRequest) => r.id, s.clock);
    var goneRequests := GoneRequests(s, tripId);
    var goneConversations := GoneConversations(s, tripId);
    StampedFilter(s.conversations, (c: Conversation) => c.request !in goneRequests, (c: Conversation) => c.id, s.clock);
    StampedFilter(s.messages, (m: Message) => m.conversation !in goneConversations, (m: Message) => m.id, s.clock);
  }

  lemma CascadeLinked(s: State, tripId: Id)
    requires Linked(s)
    ensures Linked(DeleteTripCascade(s, tripId))
  {
    var s' := DeleteTripCascade(s, tripId);
    forall r | r in s'.requests
      ensures HasTrip(s'.trips, r.trip)
    {
      var t :| t in s.trips && t.id == r.trip;
      assert t in s'.trips;
    }
    forall c | c in s'.conversations
      ensures HasRequest(s'.requests, c.request)
    {
      var r :| r in s.requests && r.id == c.request;
      assert r in s'.requests;
    }
    forall m | m in s'.messages
      ensures HasConversation(s'.conversations, m.conversation)
    {
      var c :| c in s.conversations && c.id == m.conversation;
      assert c in s'.conversations;
    }
  }

  /** Dropping requests cannot create a duplicate (trip, requester) pair. */
  lemma {:induction false} OneRequestPerPairFilter(requests: seq<TripRequest>, p: TripRequest -> bool)
    requires OneRequestPerPair(requests)
    ensures OneRequestPerPair(Filter(requests, p))
  {
    if |requests| > 0 {
      var rest := requests[1..];
      assert OneRequestPerPair(rest) by {
        forall i, j | 0 <= i < j < |rest|
          ensures !(rest[i].trip == rest[j].trip && rest[i].requester == rest[j].requester)
        {
          assert rest[i] == requests[i + 1] && rest[j] == requests[j + 1];
        }
      }
      OneRequestPerPairFilter(rest, p);
      var f := Filter(rest, p);
      if p(requests[0]) {
        forall j | 0 <= j < |f|
          ensures !(requests[0].trip == f[j].trip && requests[0].requester == f[j].requester)
        {
          assert f[j] in rest;
          var k :| 0 <= k < |rest| && rest[k] == f[j];
          assert requests[k + 1] == f[j];
        }
        var r := [requests[0]] + f;
        forall i, j | 0 <= i < j < |r|
          ensures !(r[i].trip == r[j].trip && r[i].requester == r[j].requester)
        {
          if i > 0 {
            assert r[i] == f[i - 1] && r[j] == f[j - 1];
          } else {
            assert r[j] == f[j - 1];
          }
        }
      }
    }
  }
}
