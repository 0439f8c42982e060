/** The navigation bar of every page once signed in: the unread badge on
    the bell, the dropdown of the latest notifications with an icon per
    kind, and the relative age printed under each one. The page fetches
    GET /api/notifications, so everything here is a function of that list;
    the current time is an input. */
module Navbar {
  import opened Basics
  import opened Text
  import opened Store
  import Notifications

  /** The bell badge: hidden (None) when nothing in the fetched list is
      unread, otherwise showing how many are. */
  function Badge(list: seq<Notification>): (b: Option<nat>)
    ensures b.None? <==> forall n :: n in list ==> n.read
    ensures b.Some? ==> b.value > 0 && b.value == Count(list, (n: Notification) => !n.read)
  {
    var unread := |Filter(list, (n: Notification) => !n.read)|;
    CountIsFilterLength(list, (n: Notification) => !n.read);
    if unread > 0 then Some(unread) else None
  }

  /** The badge is computed from the fetched page, not from the unread-count
      route: it never shows more than the caller's unread notifications, and
      it shows exactly that many when the caller has no more than a page of
      notifications. */
  lemma BadgeAgainstUnreadCount(s: State, u: Id)
    ensures var b := Badge(Notifications.List(s, u));
            b.Some? ==> b.value <= Notifications.UnreadCount(s, u)
    ensures |Notifications.OwnNotifications(s, u)| <= Notifications.PageSize ==>
            var b := Badge(Notifications.List(s, u));
            (b.None? <==> Notifications.UnreadCount(s, u) == 0)
            && (b.Some? ==> b.value == Notifications.UnreadCount(s, u))
  {
    var mine := Notifications.OwnNotifications(s, u);
    var newest := Reverse(mine);
    var list := Notifications.List(s, u);
    var unread := (n: Notification) => !n.read;
    assert list == newest[..|list|];
    CountPrefix(newest, |list|, unread);
    CountReverse(mine, unread);
    UnreadAmongOwn(s, u);
    if |mine| <= Notifications.PageSize {
      assert newest[..|list|] == newest;
    }
  }

  /** The unread-count route counts the unread rows among the caller's own. */
  lemma UnreadAmongOwn(s: State, u: Id)
    ensures Count(Notifications.OwnNotifications(s, u), (n: Notification) => !n.read) == Notifications.UnreadCount(s, u)
  {
    CountFilter(s.notifications, (n: Notification) => n.owner == u, (n: Notification) => !n.read,
                (n: Notification) => Notifications.IsUnread(n, u));
  }

  /** Relative ages, as formatTimeAgo buckets them. */
  datatype Ago = JustNow | MinutesAgo(minutes: nat) | HoursAgo(hours: nat) | DaysAgo(days: nat) | OnDate

  /** `Math.floor((now - date) / 1000)` for times in milliseconds. Dafny's
      division of an integer by a positive one rounds down, as Math.floor does,
      also when the notification is stamped after the browser's clock. */
  function Seconds(created: int, now: int): (d: int)
    ensures 1000 * d <= now - created < 1000 * (d + 1)
  {
    (now - created) / 1000
  }

  const Minute := 60
  const Hour := 3600
  const Day := 86400
  const Week := 604800

  function TimeAgo(created: int, now: int): (a: Ago)
    ensures var diff := Seconds(created, now);
      && (a.JustNow? <==> diff < Minute)
      && (a.MinutesAgo? <==> Minute <= diff < Hour)
      && (a.HoursAgo? <==> Hour <= diff < Day)
      && (a.DaysAgo? <==> Day <= diff < Week)
      && (a.OnDate? <==> Week <= diff)
    ensures var diff := Seconds(created, now);
      && (a.MinutesAgo? ==> 1 <= a.minutes < 60 && Minute * a.minutes <= diff < Minute * (a.minutes + 1))
      && (a.HoursAgo? ==> 1 <= a.hours < 24 && Hour * a.hours <= diff < Hour * (a.hours + 1))
      && (a.DaysAgo? ==> 1 <= a.days < 7 && Day * a.days <= diff < Day * (a.days + 1))
  {
    var diff := Seconds(created, now);
    if diff < Minute then JustNow
    else if diff < Hour then MinutesAgo(diff / Minute)
    else if diff < Day then HoursAgo(diff / Hour)
    else if diff < Week then DaysAgo(diff / Day)
    else OnDate
  }

  /** How far along the scale an age is. */
  function Rank(a: Ago): nat
  {
    match a
    case JustNow => 0
    case MinutesAgo(_) => 1
    case HoursAgo(_) => 2
    case DaysAgo(_) => 3
    case OnDate => 4
  }

  function Amount(a: Ago): nat
  {
    match a
    case MinutesAgo(m) => m
    case HoursAgo(h) => h
    case DaysAgo(d) => d
    case _ => 0
  }

  /** As the clock moves on, the label of a notification only ever grows older. */
  lemma TimeAgoMonotone(created: int, now: int, later: int)
    requires now <= later
    ensures Rank(TimeAgo(created, now)) <= Rank(TimeAgo(created, later))
    ensures Rank(TimeAgo(created, now)) == Rank(TimeAgo(created, later)) ==>
            Amount(TimeAgo(created, now)) <= Amount(TimeAgo(created, later))
  {
    var d, d' := Seconds(created, now), Seconds(created, later);
    assert d <= d';
  }

  const Lead := "Il y a "

  function Unit(a: Ago): string
  {
    match a
    case MinutesAgo(_) => " min"
    case HoursAgo(_) => " h"
    case _ => " j"
  }

  /** The printed label; `shortDate` is formatDateShort of the stamp, which
      depends on the browser's locale tables. */
  function AgoText(a: Ago, shortDate: string): string
  {
    match a
    case JustNow => "\U{00C0} l'instant"
    case OnDate => shortDate
    case _ => Lead + NatToString(Amount(a)) + Unit(a)
  }

  /** Two relative labels that read the same denote the same age. */
  lemma AgoTextInjective(a: Ago, b: Ago, shortDate: string)
    requires !a.OnDate? && !b.OnDate?
    requires AgoText(a, shortDate) == AgoText(b, shortDate)
    ensures a == b
  {
    var t := AgoText(a, shortDate);
    assert t[0] == (if a.JustNow? then '\U{00C0}' else 'I');
    assert t[0] == (if b.JustNow? then '\U{00C0}' else 'I');
    if !a.JustNow? {
      var ua, ub := Unit(a), Unit(b);
      assert t == Lead + NatToString(Amount(a)) + ua;
      assert t == Lead + NatToString(Amount(b)) + ub;
      assert t[|t| - 1] == ua[|ua| - 1] == ub[|ub| - 1];
      assert ua == ub;
      assert NatToString(Amount(a)) == t[|Lead|..|t| - |ua|];
      assert NatToString(Amount(b)) == t[|Lead|..|t| - |ub|];
      ParseNatToString(Amount(a));
      ParseNatToString(Amount(b));
    }
  }

  /** The dropdown icon, chosen by the stored type string. */
  function Icon(k: Kind): string
  {
    var t := KindName(k);
    if t == "request_received" then "\U{1F4E8}"
    else if t == "request_accepted" then "\U{2705}"
    else if t == "request_rejected" then "\U{274C}"
    else "\U{1F4AC}"
  }

  /** Each of the four kinds the routes write has an icon of its own. */
  lemma IconsDistinct(k: Kind, k': Kind)
    requires k != k'
    ensures Icon(k) != Icon(k')
  {
  }

  /** One line of the dropdown; clicking it marks the notification read and
      follows `link`. */
  datatype Item = Item(id: Id, icon: string, unread: bool, title: string, body: string, link: string)

  const DropdownSize := 10

  function ItemOf(n: Notification): Item
  {
    Item(n.id, Icon(n.kind), !n.read, n.title, n.body, n.link)
  }

  /** The dropdown: the first ten of the fetched list (an empty one shows
      "Aucune notification" instead). */
  function Dropdown(list: seq<Notification>): (items: seq<Item>)
    ensures |items| == if |list| < DropdownSize then |list| else DropdownSize
    ensures forall i :: 0 <= i < |items| ==> items[i] == ItemOf(list[i])
  {
    var top := Take(list, DropdownSize);
    seq(|top|, i requires 0 <= i < |top| => ItemOf(top[i]))
  }

  /** No line of the dropdown is about `n`. */
  predicate Hidden(items: seq<Item>, n: Notification)
  {
    forall i :: 0 <= i < |items| ==> items[i].id != n.id
  }

  /** In a valid store the dropdown shows the caller's newest notifications,
      newest first: ids strictly decrease down the list, and every one of the
      caller's notifications that is not shown is older than all that are. */
  lemma DropdownIsNewest(s: State, u: Id)
    requires Valid(s)
    ensures var items := Dropdown(Notifications.List(s, u));
      && (forall i, j :: 0 <= i < j < |items| ==> items[i].id > items[j].id)
      && (forall n, k :: n in s.notifications && n.owner == u && Hidden(items, n) && 0 <= k < |items| ==>
                           n.id < items[k].id)
  {
    Notifications.ListIsNewest(s, u);
    DropdownOfNewest(s.notifications, u, Notifications.List(s, u));
  }

  /** The dropdown of a newest-first page of `u`'s notifications out of `all`. */
  lemma DropdownOfNewest(all: seq<Notification>, u: Id, list: seq<Notification>)
    requires Descending(list, (n: Notification) => n.id)
    requires forall n, k :: n in all && n.owner == u && n !in list && 0 <= k < |list| ==> n.id < list[k].id
    ensures var items := Dropdown(list);
      && (forall i, j :: 0 <= i < j < |items| ==> items[i].id > items[j].id)
      && (forall n, k :: n in all && n.owner == u && Hidden(items, n) && 0 <= k < |items| ==>
                           n.id < items[k].id)
  {
    var items := Dropdown(list);
    forall n, k | n in all && n.owner == u && Hidden(items, n) && 0 <= k < |items|
      ensures n.id < items[k].id
    {
      assert items[k].id == list[k].id;
      if n in list {
        var j :| 0 <= j < |list| && list[j] == n;
        assert forall i :: 0 <= i < |items| ==> list[i].id != n.id;
        assert list[k].id > list[j].id;
      }
    }
  }
}
