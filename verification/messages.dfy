/** The messages routes: the caller's conversations with their last message
    and unread count, opening a conversation (which marks the other side's
    messages read), sending a message (which notifies the other participant),
    and the unread badge count. */
module Messages {
  import opened Basics
  import opened Text
  import opened Store

  // ---------------------------------------------------------------- reading

  /** Conversation `id` exists and `u` takes part in it: the guard of the
      open and send routes. */
  predicate Mine(s: State, id: Id, u: Id)
  {
    exists c :: c in s.conversations && c.id == id && IsParticipant(c, u)
  }

  /** `SELECT * FROM conversations WHERE id = ? AND (user1_id = ? OR user2_id = ?)`. */
  function FindMine(s: State, id: Id, u: Id): (r: Option<Conversation>)
    ensures r.None? <==> !Mine(s, id, u)
    ensures r.Some? ==> r.value in s.conversations && r.value.id == id && IsParticipant(r.value, u)
  {
    Find(s.conversations, (c: Conversation) => c.id == id && IsParticipant(c, u))
  }

  /** A message of conversation `id` that `u` has not read: sent by the other side, read = 0. */
  predicate UnreadIn(m: Message, id: Id, u: Id)
  {
    m.conversation == id && m.sender != u && !m.read
  }

  /** The `unread_count` column of the conversation listing. */
  function ConversationUnread(s: State, id: Id, u: Id): nat
  {
    Count(s.messages, (m: Message) => UnreadIn(m, id, u))
  }

  /** The row condition of the unread-count route, joined with conversations. */
  predicate UnreadFor(s: State, m: Message, u: Id)
  {
    Mine(s, m.conversation, u) && m.sender != u && !m.read
  }

  /** GET /api/messages/unread-count. */
  function UnreadCount(s: State, u: Id): (n: nat)
    ensures n <= |s.messages|
    ensures n == 0 <==> forall m :: m in s.messages ==> !UnreadFor(s, m, u)
  {
    Count(s.messages, (m: Message) => UnreadFor(s, m, u))
  }

  /** The latest message of conversation `id` (ORDER BY created_at DESC LIMIT 1). */
  function LastMessage(s: State, id: Id): (r: Option<Message>)
    ensures r.None? <==> forall m :: m in s.messages ==> m.conversation != id
    ensures r.Some? ==> r.value in s.messages && r.value.conversation == id
  {
    var mine := Filter(s.messages, (m: Message) => m.conversation == id);
    if |mine| == 0 then None
    else
      assert mine[|mine| - 1] in mine;
      Some(mine[|mine| - 1])
  }

  /** Rows are kept in creation order, so the last one is the newest. */
  lemma LastMessageIsNewest(s: State, id: Id)
    requires Chronological(s)
    ensures LastMessage(s, id).Some? ==>
              forall m :: m in s.messages && m.conversation == id ==> m.id <= LastMessage(s, id).value.id
  {
    var mine := Filter(s.messages, (m: Message) => m.conversation == id);
    FilterAscending(s.messages, (m: Message) => m.conversation == id, (m: Message) => m.id);
    forall m | m in s.messages && m.conversation == id
      ensures m.id <= mine[|mine| - 1].id
    {
      var k :| 0 <= k < |mine| && mine[k] == m;
    }
  }

  datatype ConversationView = ConversationView(
    conversation: Conversation, requestStatus: string,
    departure: string, arrival: string, tripDate: string,
    otherId: Id, otherName: string, otherPhoto: string,
    lastMessage: Option<string>, lastMessageAt: Option<Id>, unread: nat)

  /** One row of the conversation listing, its joins written as lookups. */
  function ViewOf(s: State, u: Id, c: Conversation): (v: ConversationView)
    ensures v.conversation == c && v.otherId == OtherParticipant(c, u)
    ensures v.unread == ConversationUnread(s, c.id, u)
    ensures v.lastMessage == (match LastMessage(s, c.id) case None => None case Some(m) => Some(m.content))
    ensures v.lastMessageAt == (match LastMessage(s, c.id) case None => None case Some(m) => Some(m.id))
  {
    var q := RequestById(s, c.request);
    var t := if q.Some? then TripById(s, q.value.trip) else None;
    var other := OtherParticipant(c, u);
    var last := LastMessage(s, c.id);
    ConversationView(
      c, if q.Some? then q.value.status else "",
      if t.Some? then t.value.departure else "",
      if t.Some? then t.value.arrival else "",
      if t.Some? then t.value.date else "",
      other, NameOf(s, other), PhotoOf(s, other),
      if last.Some? then Some(last.value.content) else None,
      if last.Some? then Some(last.value.id) else None,
      ConversationUnread(s, c.id, u))
  }

  /** The sort key of ORDER BY last_message_time DESC. Where conversations
      without any message go is up to the database (SQLite ranks NULL lowest,
      PostgreSQL highest); the listing's contract leaves it open, and this
      key happens to put them last. */
  function Recency(v: ConversationView): int
  {
    match v.lastMessageAt
    case None => 0
    case Some(at) => at
  }

  /** The listing holds a row for conversation `c`. */
  ghost predicate Lists(r: seq<ConversationView>, c: Conversation)
  {
    exists i :: 0 <= i < |r| && r[i].conversation == c
  }

  /** GET /api/messages/conversations. */
  function ListConversations(s: State, u: Id): (r: seq<ConversationView>)
    ensures |r| == Count(s.conversations, (c: Conversation) => IsParticipant(c, u))
    ensures forall c :: Lists(r, c) <==> c in s.conversations && IsParticipant(c, u)
    ensures forall i :: 0 <= i < |r| ==> r[i] == ViewOf(s, u, r[i].conversation)
    ensures forall i, j :: 0 <= i < j < |r| && r[i].lastMessageAt.Some? && r[j].lastMessageAt.Some? ==>
              r[i].lastMessageAt.value >= r[j].lastMessageAt.value
  {
    var mine := Filter(s.conversations, (c: Conversation) => IsParticipant(c, u));
    var views := Views(s, u, mine);
    CountIsFilterLength(s.conversations, (c: Conversation) => IsParticipant(c, u));
    SortByKeySorted(views, Recency);
    ListedViews(s, u, mine, views, SortByKey(views, Recency));
    SortByKey(views, Recency)
  }

  function Views(s: State, u: Id, cs: seq<Conversation>): (v: seq<ConversationView>)
    ensures |v| == |cs|
    ensures forall i :: 0 <= i < |cs| ==> v[i] == ViewOf(s, u, cs[i])
  {
    seq(|cs|, i requires 0 <= i < |cs| => ViewOf(s, u, cs[i]))
  }

  lemma ListedViews(s: State, u: Id, mine: seq<Conversation>, views: seq<ConversationView>, r: seq<ConversationView>)
    requires |views| == |mine|
    requires forall i :: 0 <= i < |mine| ==> views[i] == ViewOf(s, u, mine[i])
    requires multiset(r) == multiset(views)
    ensures forall c :: Lists(r, c) <==> c in mine
    ensures forall i :: 0 <= i < |r| ==> r[i] == ViewOf(s, u, r[i].conversation)
  {
    forall i | 0 <= i < |r|
      ensures r[i] == ViewOf(s, u, r[i].conversation)
    {
      assert r[i] in multiset(views);
    }
    forall c
      ensures Lists(r, c) <==> c in mine
    {
      if Lists(r, c) {
        var i :| 0 <= i < |r| && r[i].conversation == c;
        assert r[i] in multiset(views);
        var k :| 0 <= k < |views| && views[k] == r[i];
      }
      if c in mine {
        var k :| 0 <= k < |mine| && mine[k] == c;
        assert views[k] in multiset(r);
        var i :| 0 <= i < |r| && r[i] == views[k];
      }
    }
  }

  /** The sum of the listing's `unread_count` column over the conversations
      of `cs` that `u` takes part in. */
  function UnreadSum(s: State, u: Id, cs: seq<Conversation>): nat
  {
    if |cs| == 0 then 0
    else (if IsParticipant(cs[0], u) then ConversationUnread(s, cs[0].id, u) else 0) + UnreadSum(s, u, cs[1..])
  }

  /** Message `m` belongs to one of the conversations of `cs` that `u` takes part in. */
  predicate InSome(cs: seq<Conversation>, m: Message, u: Id)
  {
    exists c :: c in cs && c.id == m.conversation && IsParticipant(c, u)
  }

  lemma {:induction false} UnreadSumCounts(s: State, u: Id, cs: seq<Conversation>)
    requires Ascending(cs, (c: Conversation) => c.id)
    ensures Count(s.messages, (m: Message) => InSome(cs, m, u) && m.sender != u && !m.read) == UnreadSum(s, u, cs)
  {
    var all := (m: Message) => InSome(cs, m, u) && m.sender != u && !m.read;
    if |cs| == 0 {
      assert forall m :: m in s.messages ==> !all(m);
    } else {
      var c, rest := cs[0], cs[1..];
      assert Ascending(rest, (c: Conversation) => c.id);
      UnreadSumCounts(s, u, rest);
      var later := (m: Message) => InSome(rest, m, u) && m.sender != u && !m.read;
      forall m | InSome(rest, m, u)
        ensures m.conversation != c.id
      {
        var c' :| c' in rest && c'.id == m.conversation && IsParticipant(c', u);
        var k :| 0 <= k < |rest| && rest[k] == c';
        assert cs[k + 1] == c';
      }
      forall m ensures InSome(cs, m, u) <==> (m.conversation == c.id && IsParticipant(c, u)) || InSome(rest, m, u) {
        if InSome(cs, m, u) {
          var c' :| c' in cs && c'.id == m.conversation && IsParticipant(c', u);
          if c' != c {
            var k :| 0 <= k < |cs| && cs[k] == c';
            assert rest[k - 1] == c';
          }
        }
        if InSome(rest, m, u) {
          var c' :| c' in rest && c'.id == m.conversation && IsParticipant(c', u);
          assert c' in cs;
        }
      }
      if IsParticipant(c, u) {
        CountSplit(s.messages, all, (m: Message) => UnreadIn(m, c.id, u), later);
      } else {
        CountSame(s.messages, all, later);
      }
    }
  }

  /** In a valid store the badge equals the sum of the unread counts the
      conversation listing shows, one per conversation the caller takes part in. */
  lemma UnreadCountIsSum(s: State, u: Id)
    requires Valid(s)
    ensures UnreadCount(s, u) == UnreadSum(s, u, s.conversations)
  {
    UnreadSumCounts(s, u, s.conversations);
    CountSame(s.messages, (m: Message) => UnreadFor(s, m, u),
              (m: Message) => InSome(s.conversations, m, u) && m.sender != u && !m.read);
  }

  // ------------------------------------------------------------------ opening

  datatype Thread = Thread(messages: seq<Message>, conversation: Conversation, other: Id, otherName: string)

  /** UPDATE messages SET read = 1 WHERE conversation_id = ? AND sender_id != ?. */
  function MarkRead(messages: seq<Message>, id: Id, u: Id): seq<Message>
  {
    Update(messages, (m: Message) => m.conversation == id && m.sender != u, (m: Message) => m.(read := true))
  }

  /** GET /api/messages/conversations/:id/messages. */
  function OpenConversation(s: State, u: Id, id: Id): (out: Step<Thread>)
    ensures !Mine(s, id, u) ==> out == Step(Err(403, NotAuthorized), s)
    ensures Mine(s, id, u) ==>
              && out.response.Ok? && out.response.code == 200
              && out.response.value.conversation in s.conversations
              && out.response.value.conversation.id == id
              && IsParticipant(out.response.value.conversation, u)
              && out.response.value.other == OtherParticipant(out.response.value.conversation, u)
    ensures out.state.(messages := s.messages) == s
    ensures |out.state.messages| == |s.messages|
    ensures forall i :: 0 <= i < |s.messages| ==>
              out.state.messages[i] == if Mine(s, id, u) && s.messages[i].conversation == id && s.messages[i].sender != u
                                       then s.messages[i].(read := true) else s.messages[i]
    ensures out.response.Ok? ==>
              forall m :: m in out.response.value.messages <==> m in out.state.messages && m.conversation == id
    ensures out.response.Ok? ==>
              forall m :: m in out.response.value.messages ==> m.read || m.sender == u
  {
    match FindMine(s, id, u)
    case None => Step(Err(403, NotAuthorized), s)
    case Some(c) =>
      var s' := s.(messages := MarkRead(s.messages, id, u));
      var other := OtherParticipant(c, u);
      assert forall m :: m in s'.messages && m.conversation == id ==> m.read || m.sender == u by {
        forall m | m in s'.messages && m.conversation == id
          ensures m.read || m.sender == u
        {
          var k :| 0 <= k < |s'.messages| && s'.messages[k] == m;
        }
      }
      Step(Ok(200, Thread(Filter(s'.messages, (m: Message) => m.conversation == id), c, other, NameOf(s, other))), s')
  }

  /** Opening a conversation a second time changes nothing more and answers the same. */
  lemma OpenIdempotent(s: State, u: Id, id: Id)
    ensures var first := OpenConversation(s, u, id);
            OpenConversation(first.state, u, id) == first
  {
    var first := OpenConversation(s, u, id);
    if Mine(s, id, u) {
      var ms := MarkRead(s.messages, id, u);
      assert MarkRead(ms, id, u) == ms;
    }
  }

  /** After opening, nothing in the conversation is unread for the caller,
      and the caller's badge drops by exactly that conversation's unread count. */
  lemma OpenClearsUnread(s: State, u: Id, id: Id)
    requires Mine(s, id, u)
    ensures var s' := OpenConversation(s, u, id).state;
            && ConversationUnread(s', id, u) == 0
            && UnreadCount(s', u) == UnreadCount(s, u) - ConversationUnread(s, id, u)
  {
    var s' := OpenConversation(s, u, id).state;
    assert s'.conversations == s.conversations;
    var all := (m: Message) => UnreadFor(s, m, u);
    var all' := (m: Message) => UnreadFor(s', m, u);
    var here := (m: Message) => UnreadFor(s, m, u) && m.conversation == id;
    var elsewhere := (m: Message) => UnreadFor(s, m, u) && m.conversation != id;
    var here' := (m: Message) => UnreadFor(s', m, u) && m.conversation == id;
    var elsewhere' := (m: Message) => UnreadFor(s', m, u) && m.conversation != id;
    CountSplit(s.messages, all, here, elsewhere);
    CountSplit(s'.messages, all', here', elsewhere');
    CountMap(s.messages, s'.messages, elsewhere, elsewhere');
    assert forall m :: m in s'.messages ==> !UnreadIn(m, id, u) by {
      forall m | m in s'.messages
        ensures !UnreadIn(m, id, u)
      {
        var k :| 0 <= k < |s'.messages| && s'.messages[k] == m;
      }
    }
    assert Count(s'.messages, here') == 0;
    CountSame(s.messages, here, (m: Message) => UnreadIn(m, id, u));
  }

  /** In a valid store the history comes oldest first. */
  lemma HistoryOldestFirst(s: State, u: Id, id: Id)
    requires Valid(s)
    requires OpenConversation(s, u, id).response.Ok?
    ensures Ascending(OpenConversation(s, u, id).response.value.messages, (m: Message) => m.id)
  {
    var ms := MarkRead(s.messages, id, u);
    StampedUpdate(s.messages, (m: Message) => m.conversation == id && m.sender != u,
                  (m: Message) => m.(read := true), (m: Message) => m.id, s.clock);
    FilterAscending(ms, (m: Message) => m.conversation == id, (m: Message) => m.id);
  }

  /** Marking messages read keeps the store valid. */
  lemma OpenPreservesValid(s: State, u: Id, id: Id)
    requires Valid(s)
    ensures Valid(OpenConversation(s, u, id).state)
  {
    var s' := OpenConversation(s, u, id).state;
    StampedUpdate(s.messages, (m: Message) => m.conversation == id && m.sender != u,
                  (m: Message) => m.(read := true), (m: Message) => m.id, s.clock);
    forall m | m in s'.messages
      ensures HasConversation(s.conversations, m.conversation) && HasUser(s.users, m.sender)
    {
      var k :| 0 <= k < |s'.messages| && s'.messages[k] == m;
      assert s.messages[k] in s.messages;
    }
  }

  // ------------------------------------------------------------------ sending

  /** `content.substring(0, 50)`, followed by "..." when something was cut. */
  function Preview(content: string): (p: string)
    ensures |content| <= 50 ==> p == content
    ensures |content| > 50 ==> |p| == 53 && p[..50] == content[..50] && p[50..] == "..."
  {
    Take(content, 50) + (if |content| > 50 then "..." else "")
  }

  /** POST /api/messages/conversations/:id/messages. The stored content is
      trimmed; the notification preview is cut from the content as sent. */
  function SendMessage(s: State, u: Id, id: Id, content: string): (out: Step<Message>)
    requires HasUser(s.users, u)
    ensures IsBlank(content) ==> out == Step(Err(400, "Message content is required"), s)
    ensures !IsBlank(content) && !Mine(s, id, u) ==> out == Step(Err(403, NotAuthorized), s)
    ensures out.response.Ok? <==> !IsBlank(content) && Mine(s, id, u)
    ensures out.response.Ok? ==>
              var m := Message(s.clock, id, u, Trim(content), false);
              && out.response == Ok(201, m)
              && out.state.messages == s.messages + [m]
              && out.state.notifications == s.notifications +
                   [Notification(s.clock + 1, OtherParticipant(FindMine(s, id, u).value, u), NewMessage,
                                 "Nouveau message", NameOf(s, u) + ": " + Preview(content),
                                 "/messages.html", false)]
              && out.state.(messages := s.messages, notifications := s.notifications, clock := s.clock) == s
  {
    if IsBlank(content) then Step(Err(400, "Message content is required"), s)
    else
      match FindMine(s, id, u)
      case None => Step(Err(403, NotAuthorized), s)
      case Some(c) =>
        var s1 := AddMessage(s, id, u, Trim(content));
        var s2 := Notify(s1, OtherParticipant(c, u), NewMessage, "Nouveau message",
                         NameOf(s, u) + ": " + Preview(content), "/messages.html");
        Step(Ok(201, Message(s.clock, id, u, Trim(content), false)), s2)
  }

  /** A sent message adds one to the other participant's badge and leaves the
      sender's own badge as it was. */
  lemma SendRaisesOthersUnread(s: State, u: Id, id: Id, content: string)
    requires HasUser(s.users, u)
    requires SendMessage(s, u, id, content).response.Ok?
    requires var c := FindMine(s, id, u).value; c.user1 != c.user2
    ensures var s' := SendMessage(s, u, id, content).state;
            var other := OtherParticipant(FindMine(s, id, u).value, u);
            && UnreadCount(s', other) == UnreadCount(s, other) + 1
            && UnreadCount(s', u) == UnreadCount(s, u)
  {
    var s' := SendMessage(s, u, id, content).state;
    var c := FindMine(s, id, u).value;
    var other := OtherParticipant(c, u);
    var m := s'.messages[|s.messages|];
    assert s'.messages == s.messages + [m];
    assert s'.conversations == s.conversations;
    CountAppend(s.messages, [m], (x: Message) => UnreadFor(s', x, other));
    CountSame(s.messages, (x: Message) => UnreadFor(s', x, other), (x: Message) => UnreadFor(s, x, other));
    assert UnreadFor(s', m, other) by { assert c in s'.conversations; }
    CountAppend(s.messages, [m], (x: Message) => UnreadFor(s', x, u));
    CountSame(s.messages, (x: Message) => UnreadFor(s', x, u), (x: Message) => UnreadFor(s, x, u));
  }

  /** Sending keeps the store valid. */
  lemma SendPreservesValid(s: State, u: Id, id: Id, content: string)
    requires Valid(s) && HasUser(s.users, u)
    ensures Valid(SendMessage(s, u, id, content).state)
  {
    if SendMessage(s, u, id, content).response.Ok? {
      var c := FindMine(s, id, u).value;
      AddMessageValid(s, id, u, Trim(content));
      var s1 := AddMessage(s, id, u, Trim(content));
      assert HasUser(s1.users, OtherParticipant(c, u));
      NotifyValid(s1, OtherParticipant(c, u), NewMessage, "Nouveau message",
                  NameOf(s, u) + ": " + Preview(content), "/messages.html");
    }
  }
}
