/** The notifications routes: the caller's fifty newest notifications, the
    unread count, marking one or all as read, and deleting one. Every route
    acts only on rows whose owner is the caller. */
module Notifications {
  import opened Basics
  import opened Store

  const PageSize := 50

  /** The caller's notifications in creation order. */
  function OwnNotifications(s: State, u: Id): seq<Notification>
  {
    Filter(s.notifications, (n: Notification) => n.owner == u)
  }

  /** GET /api/notifications: ORDER BY created_at DESC LIMIT 50. */
  function List(s: State, u: Id): (r: seq<Notification>)
    ensures |r| == if |OwnNotifications(s, u)| < PageSize then |OwnNotifications(s, u)| else PageSize
    ensures forall n :: n in r ==> n in s.notifications && n.owner == u
    ensures forall i :: 0 <= i < |r| ==> r[i] == OwnNotifications(s, u)[|OwnNotifications(s, u)| - 1 - i]
  {
    Take(Reverse(OwnNotifications(s, u)), PageSize)
  }

  /** In a valid store the list runs newest first and holds the newest of the
      caller's notifications: any one left out is older than all listed. */
  lemma ListIsNewest(s: State, u: Id)
    requires Valid(s)
    ensures Descending(List(s, u), (n: Notification) => n.id)
    ensures forall n, k :: n in s.notifications && n.owner == u && n !in List(s, u) && 0 <= k < |List(s, u)| ==>
              n.id < List(s, u)[k].id
  {
    var mine := OwnNotifications(s, u);
    var newest := Reverse(mine);
    var r := List(s, u);
    FilterAscending(s.notifications, (n: Notification) => n.owner == u, (n: Notification) => n.id);
    ReverseAscending(mine, (n: Notification) => n.id);
    forall n, k | n in s.notifications && n.owner == u && n !in r && 0 <= k < |r|
      ensures n.id < r[k].id
    {
      assert n in newest;
      var j :| 0 <= j < |newest| && newest[j] == n;
    }
  }

  predicate IsUnread(n: Notification, u: Id)
  {
    n.owner == u && !n.read
  }

  /** GET /api/notifications/unread-count. */
  function UnreadCount(s: State, u: Id): (c: nat)
    ensures c <= |s.notifications|
    ensures c == 0 <==> forall n :: n in s.notifications ==> !IsUnread(n, u)
  {
    Count(s.notifications, (n: Notification) => IsUnread(n, u))
  }

  /** PUT /api/notifications/:id/read: answers success even when no row matches. */
  function MarkRead(s: State, u: Id, id: Id): (out: Step<string>)
    ensures out.response == Ok(200, "Notification marked as read")
    ensures |out.state.notifications| == |s.notifications|
    ensures forall i :: 0 <= i < |s.notifications| ==>
              out.state.notifications[i] == if s.notifications[i].id == id && s.notifications[i].owner == u
                                            then s.notifications[i].(read := true) else s.notifications[i]
    ensures out.state.(notifications := s.notifications) == s
  {
    Step(Ok(200, "Notification marked as read"),
         s.(notifications := Update(s.notifications, (n: Notification) => n.id == id && n.owner == u,
                                    (n: Notification) => n.(read := true))))
  }

  /** Marking one notification read lowers the caller's count by the number
      of unread rows it matched. */
  lemma MarkReadCount(s: State, u: Id, id: Id)
    ensures UnreadCount(MarkRead(s, u, id).state, u)
            == UnreadCount(s, u) - Count(s.notifications, (n: Notification) => n.id == id && IsUnread(n, u))
  {
    var s' := MarkRead(s, u, id).state;
    var all := (n: Notification) => IsUnread(n, u);
    var hit := (n: Notification) => n.id == id && IsUnread(n, u);
    var rest := (n: Notification) => n.id != id && IsUnread(n, u);
    CountSplit(s.notifications, all, hit, rest);
    CountSplit(s'.notifications, all, hit, rest);
    CountMap(s.notifications, s'.notifications, rest, rest);
    MarkReadLeavesNoHit(s, u, id);
  }

  lemma MarkReadLeavesNoHit(s: State, u: Id, id: Id)
    ensures forall n :: n in MarkRead(s, u, id).state.notifications ==> !(n.id == id && IsUnread(n, u))
  {
    var s' := MarkRead(s, u, id).state;
    forall n | n in s'.notifications
      ensures !(n.id == id && IsUnread(n, u))
    {
      var k :| 0 <= k < |s'.notifications| && s'.notifications[k] == n;
    }
  }

  /** Marking the same notification read again answers the same and stores nothing new. */
  lemma MarkReadIdempotent(s: State, u: Id, id: Id)
    ensures var first := MarkRead(s, u, id);
            MarkRead(first.state, u, id) == first
  {
    var first := MarkRead(s, u, id);
    assert MarkRead(first.state, u, id).state.notifications == first.state.notifications;
  }

  /** Marking one's own notification read does not touch anybody else's. */
  lemma MarkReadOnlyOwn(s: State, u: Id, id: Id, v: Id)
    requires v != u
    ensures var s' := MarkRead(s, u, id).state;
            UnreadCount(s', v) == UnreadCount(s, v) && List(s', v) == List(s, v)
  {
    var s' := MarkRead(s, u, id).state;
    CountMap(s.notifications, s'.notifications, (n: Notification) => IsUnread(n, v), (n: Notification) => IsUnread(n, v));
    FilterUpdateUntouched(s.notifications, (n: Notification) => n.id == id && n.owner == u,
                          (n: Notification) => n.(read := true), (n: Notification) => n.owner == v);
  }

  /** PUT /api/notifications/read-all. */
  function MarkAllRead(s: State, u: Id): (out: Step<string>)
    ensures out.response == Ok(200, "All notifications marked as read")
    ensures |out.state.notifications| == |s.notifications|
    ensures forall i :: 0 <= i < |s.notifications| ==>
              out.state.notifications[i] == if s.notifications[i].owner == u
                                            then s.notifications[i].(read := true) else s.notifications[i]
    ensures out.state.(notifications := s.notifications) == s
  {
    Step(Ok(200, "All notifications marked as read"),
         s.(notifications := Update(s.notifications, (n: Notification) => n.owner == u,
                                    (n: Notification) => n.(read := true))))
  }

  /** After read-all the caller has nothing unread, others keep theirs, and a
      second read-all changes nothing. */
  lemma MarkAllReadClears(s: State, u: Id, v: Id)
    requires v != u
    ensures var s' := MarkAllRead(s, u).state;
            && UnreadCount(s', u) == 0
            && UnreadCount(s', v) == UnreadCount(s, v)
            && List(s', v) == List(s, v)
            && MarkAllRead(s', u) == MarkAllRead(s, u)
  {
    var s' := MarkAllRead(s, u).state;
    forall n | n in s'.notifications
      ensures !IsUnread(n, u)
    {
      var k :| 0 <= k < |s'.notifications| && s'.notifications[k] == n;
    }
    CountMap(s.notifications, s'.notifications, (n: Notification) => IsUnread(n, v), (n: Notification) => IsUnread(n, v));
    FilterUpdateUntouched(s.notifications, (n: Notification) => n.owner == u,
                          (n: Notification) => n.(read := true), (n: Notification) => n.owner == v);
    assert MarkAllRead(s', u).state.notifications == s'.notifications;
  }

  /** DELETE /api/notifications/:id: answers success even when no row matches. */
  function Delete(s: State, u: Id, id: Id): (out: Step<string>)
    ensures out.response == Ok(200, "Notification deleted")
    ensures forall n :: n in out.state.notifications <==> n in s.notifications && !(n.id == id && n.owner == u)
    ensures out.state.(notifications := s.notifications) == s
  {
    Step(Ok(200, "Notification deleted"),
         s.(notifications := Filter(s.notifications, (n: Notification) => !(n.id == id && n.owner == u))))
  }

  /** After deleting, the notification is gone from the caller's list, and
      every other user's list is as it was. */
  lemma DeleteOnlyOwn(s: State, u: Id, id: Id, v: Id)
    requires v != u
    ensures var s' := Delete(s, u, id).state;
            && (forall n :: n in List(s', u) ==> n.id != id)
            && List(s', v) == List(s, v)
  {
    FilterFilterUntouched(s.notifications, (n: Notification) => !(n.id == id && n.owner == u),
                          (n: Notification) => n.owner == v);
  }

  lemma NotificationRoutesPreserveValid(s: State, u: Id, id: Id)
    requires Valid(s)
    ensures Valid(MarkRead(s, u, id).state)
    ensures Valid(MarkAllRead(s, u).state)
    ensures Valid(Delete(s, u, id).state)
  {
    StampedUpdate(s.notifications, (n: Notification) => n.id == id && n.owner == u,
                  (n: Notification) => n.(read := true), (n: Notification) => n.id, s.clock);
    StampedUpdate(s.notifications, (n: Notification) => n.owner == u,
                  (n: Notification) => n.(read := true), (n: Notification) => n.id, s.clock);
    StampedFilter(s.notifications, (n: Notification) => !(n.id == id && n.owner == u), (n: Notification) => n.id, s.clock);
    var s1 := MarkRead(s, u, id).state;
    forall n | n in s1.notifications
      ensures HasUser(s.users, n.owner)
    {
      var k :| 0 <= k < |s1.notifications| && s1.notifications[k] == n;
      assert s.notifications[k] in s.notifications;
    }
    var s2 := MarkAllRead(s, u).state;
    forall n | n in s2.notifications
      ensures HasUser(s.users, n.owner)
    {
      var k :| 0 <= k < |s2.notifications| && s2.notifications[k] == n;
      assert s.notifications[k] in s.notifications;
    }
  }
}
