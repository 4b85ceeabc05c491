/** The notification inbox (notifications.ts): the caller's notifications newest first,
    marking read one by one or all at once, inserting, deleting and the unread count. */
module Notifications {
  import opened Schema
  import opened Store
  import opened Ordering

  function ForUser(userId: UserId): Notification -> bool
  {
    (n: Notification) => n.userId == userId
  }

  function Unread(): Notification -> bool
  {
    (n: Notification) => !n.isRead
  }

  function UnreadFor(userId: UserId): Notification -> bool
  {
    (n: Notification) => n.userId == userId && !n.isRead
  }

  /** The notifications of one user, in table order (the `by_user` index). */
  function NotificationsOf(ns: seq<Notification>, userId: UserId): seq<Notification>
  {
    Filter(ns, ForUser(userId))
  }

  /** `list.filter(n => !n.isRead)`. */
  function UnreadOnly(ns: seq<Notification>): seq<Notification>
  {
    Filter(ns, Unread())
  }

  /** The unread notifications of one user (the `by_user_and_read` index). */
  function UnreadOf(ns: seq<Notification>, userId: UserId): seq<Notification>
  {
    Filter(ns, UnreadFor(userId))
  }

  lemma NotificationsOfMeaning(ns: seq<Notification>, userId: UserId)
    ensures forall n :: n in NotificationsOf(ns, userId) <==> n in ns && n.userId == userId
  {
    FilterMeaning(ns, ForUser(userId));
  }

  lemma UnreadOnlyMeaning(ns: seq<Notification>)
    ensures forall n :: n in UnreadOnly(ns) <==> n in ns && !n.isRead
  {
    FilterMeaning(ns, Unread());
  }

  /** Filtering by user and then by read flag is the `by_user_and_read` index. */
  lemma UnreadOfIsFilteredInbox(ns: seq<Notification>, userId: UserId)
    ensures UnreadOnly(NotificationsOf(ns, userId)) == UnreadOf(ns, userId)
  {
    FilterTwice(ns, ForUser(userId), Unread(), UnreadFor(userId));
  }

  function CreatedAt(n: Notification): int
  {
    n.createdAt
  }

  /** myNotifications: the caller's notifications (only the unread ones when asked),
      sorted newest first; [] without a registered caller. */
  function MyNotifications(users: seq<User>, ns: seq<Notification>, identity: Option<Identity>,
                           onlyUnread: Option<bool>): (r: seq<Notification>)
    ensures Caller(users, identity).None? ==> r == []
    ensures Caller(users, identity).Some? ==>
      var selected := if onlyUnread == Some(true) then UnreadOnly(NotificationsOf(ns, Caller(users, identity).value.id))
                      else NotificationsOf(ns, Caller(users, identity).value.id);
      && SortedDesc(r, CreatedAt)
      && multiset(r) == multiset(selected)
    ensures forall n :: n in r ==>
      && n in ns && n.userId == Caller(users, identity).value.id
      && (onlyUnread == Some(true) ==> !n.isRead)
  {
    match Caller(users, identity)
    case None => []
    case Some(me) =>
      var mine := NotificationsOf(ns, me.id);
      var list := if onlyUnread == Some(true) then UnreadOnly(mine) else mine;
      NotificationsOfMeaning(ns, me.id);
      UnreadOnlyMeaning(mine);
      var sorted := SortDesc(list, CreatedAt);
      assert forall n :: n in sorted ==> n in multiset(list);
      sorted
  }

  /** getUnreadCount: the number of the caller's unread notifications; 0 without a
      registered caller. */
  function GetUnreadCount(users: seq<User>, ns: seq<Notification>, identity: Option<Identity>): (n: nat)
    ensures Caller(users, identity).None? ==> n == 0
    ensures Caller(users, identity).Some? ==> n == |UnreadOf(ns, Caller(users, identity).value.id)|
  {
    match Caller(users, identity)
    case None => 0
    case Some(me) => |UnreadOf(ns, me.id)|
  }

  /** The unread count is the length of the unread-only inbox. */
  lemma UnreadCountMatchesInbox(users: seq<User>, ns: seq<Notification>, identity: Option<Identity>)
    ensures GetUnreadCount(users, ns, identity) == |MyNotifications(users, ns, identity, Some(true))|
  {
    if Caller(users, identity).Some? {
      var me := Caller(users, identity).value;
      UnreadOfIsFilteredInbox(ns, me.id);
      var r := MyNotifications(users, ns, identity, Some(true));
      assert |multiset(r)| == |multiset(UnreadOnly(NotificationsOf(ns, me.id)))|;
    }
  }

  // ---------------------------------------------------------------------------
  // markRead

  /** The table after markRead: the notification's `isRead` set, or an error when it is
      missing (a patch of a missing document throws). */
  function MarkedRead(ns: seq<Notification>, id: NotificationId): (r: Result<seq<Notification>>)
    ensures r.Err? <==> NotificationIndex(ns, id).None?
    ensures r.Err? ==> r.error == NonexistentDocument
    ensures r.Ok? ==>
      var k := NotificationIndex(ns, id).value;
      && |r.value| == |ns| && r.value[k].isRead
      && r.value[k] == ns[k].(isRead := true)
      && forall j :: 0 <= j < |ns| && j != k ==> r.value[j] == ns[j]
  {
    match NotificationIndex(ns, id)
    case None => Err(NonexistentDocument)
    case Some(k) => Ok(ns[k := ns[k].(isRead := true)])
  }

  /** Marking read twice is marking read once. */
  lemma MarkReadIdempotent(ns: seq<Notification>, id: NotificationId)
    requires MarkedRead(ns, id).Ok?
    ensures MarkedRead(MarkedRead(ns, id).value, id) == MarkedRead(ns, id)
  {
    var once := MarkedRead(ns, id).value;
    var k := NotificationIndex(ns, id).value;
    assert forall j :: 0 <= j < k ==> once[j] == ns[j];
    assert NotificationIndex(once, id) == Some(k);
    assert once[k := once[k].(isRead := true)] == once;
  }

  /** markRead: no ownership check. */
  method MarkRead(db: Db, notificationId: NotificationId) returns (r: Result<()>)
    requires db.Valid()
    modifies db`notifications
    ensures db.Valid()
    ensures MarkedRead(old(db.notifications), notificationId).Err? ==>
      r == Err(NonexistentDocument) && db.notifications == old(db.notifications)
    ensures MarkedRead(old(db.notifications), notificationId).Ok? ==>
      r == Ok(()) && db.notifications == MarkedRead(old(db.notifications), notificationId).value
  {
    var k := NotificationIndex(db.notifications, notificationId);
    if k.None? {
      return Err(NonexistentDocument);
    }
    db.notifications := db.notifications[k.value := db.notifications[k.value].(isRead := true)];
    r := Ok(());
  }

  // ---------------------------------------------------------------------------
  // markAllAsRead

  /** The positions of the unread notifications of `userId`: the documents the query of
      markAllAsRead returns. */
  function UnreadPositions(ns: seq<Notification>, userId: UserId): (r: seq<nat>)
    ensures |r| == |UnreadOf(ns, userId)|
    ensures forall j :: 0 <= j < |r| ==> r[j] < |ns|
  {
    if ns == [] then []
    else
      var n := |ns| - 1;
      UnreadPositions(ns[..n], userId) + (if ns[n].userId == userId && !ns[n].isRead then [n] else [])
  }

  lemma {:induction false} UnreadPositionsMeaning(ns: seq<Notification>, userId: UserId)
    ensures forall k :: k in UnreadPositions(ns, userId) <==> 0 <= k < |ns| && ns[k].userId == userId && !ns[k].isRead
  {
    if ns != [] {
      var n := |ns| - 1;
      var init := UnreadPositions(ns[..n], userId);
      var tail := if ns[n].userId == userId && !ns[n].isRead then [n] else [];
      assert UnreadPositions(ns, userId) == init + tail;
      UnreadPositionsMeaning(ns[..n], userId);
      forall k: nat ensures k in init + tail <==> k < |ns| && ns[k].userId == userId && !ns[k].isRead {
        if k < n {
          assert ns[..n][k] == ns[k];
          assert k !in tail;
        } else if k > n {
          assert k !in init && k !in tail;
        }
      }
    }
  }

  /** The table after markAllAsRead for `userId`. */
  function ReadAll(ns: seq<Notification>, userId: UserId): (r: seq<Notification>)
    ensures |r| == |ns|
    ensures forall k :: 0 <= k < |ns| ==>
      r[k] == if ns[k].userId == userId && !ns[k].isRead then ns[k].(isRead := true) else ns[k]
  {
    if ns == [] then []
    else
      var n := |ns| - 1;
      ReadAll(ns[..n], userId) + [if ns[n].userId == userId && !ns[n].isRead then ns[n].(isRead := true) else ns[n]]
  }

  /** After markAllAsRead the user has nothing unread, and every other user's notifications
      are as before. */
  lemma {:induction false} ReadAllClears(ns: seq<Notification>, userId: UserId)
    ensures UnreadOf(ReadAll(ns, userId), userId) == []
    ensures forall k :: 0 <= k < |ns| && ns[k].userId != userId ==> ReadAll(ns, userId)[k] == ns[k]
  {
    if ns != [] {
      var n := |ns| - 1;
      ReadAllClears(ns[..n], userId);
      assert ReadAll(ns, userId)[..n] == ReadAll(ns[..n], userId);
    }
  }

  /** markAllAsRead: answers how many notifications were unread. */
  method MarkAllAsRead(db: Db, identity: Option<Identity>) returns (r: Result<nat>)
    requires db.Valid()
    modifies db`notifications
    ensures db.Valid()
    ensures Me(db.users, identity).Err? ==>
      r == Err(Me(db.users, identity).error) && db.notifications == old(db.notifications)
    ensures Me(db.users, identity).Ok? ==>
      var me := Me(db.users, identity).value;
      && r == Ok(|UnreadOf(old(db.notifications), me.id)|)
      && db.notifications == ReadAll(old(db.notifications), me.id)
  {
    var me := Me(db.users, identity);
    if me.Err? {
      return Err(me.error);
    }
    var ps := UnreadPositions(db.notifications, me.value.id);
    ghost var ns := db.notifications;
    UnreadPositionsMeaning(ns, me.value.id);
    var i := 0;
    while i < |ps|
      invariant 0 <= i <= |ps|
      invariant |db.notifications| == |ns|
      invariant forall k :: 0 <= k < |ns| ==>
        db.notifications[k] == if k in ps[..i] then ns[k].(isRead := true) else ns[k]
    {
      var p := ps[i];
      assert forall k :: k in ps[..i + 1] <==> k in ps[..i] || k == p;
      db.notifications := db.notifications[p := db.notifications[p].(isRead := true)];
      i := i + 1;
    }
    assert ps[..i] == ps;
    r := Ok(|ps|);
  }

  // ---------------------------------------------------------------------------
  // createNotification and deleteNotification

  /** createNotification: no authorization; inserts one unread notification. */
  method CreateNotification(db: Db, now: int, userId: UserId, kind: NotificationType, title: string, message: string,
                            relatedTaskId: Option<TaskId>, relatedGroupId: Option<GroupId>, relatedUserId: Option<UserId>)
    returns (id: NotificationId)
    requires db.Valid()
    modifies db`notifications, db`nextId
    ensures db.Valid()
    ensures id == old(db.nextId) && db.nextId == old(db.nextId) + 1
    ensures db.notifications == old(db.notifications)
      + [Notification(id, userId, kind, relatedTaskId, relatedGroupId, relatedUserId, title, message, false, now)]
  {
    id := db.nextId;
    db.notifications := db.notifications
      + [Notification(id, userId, kind, relatedTaskId, relatedGroupId, relatedUserId, title, message, false, now)];
    db.nextId := db.nextId + 1;
  }

  /** deleteNotification: no ownership check; a delete of a missing document throws. */
  method DeleteNotification(db: Db, notificationId: NotificationId) returns (r: Result<()>)
    requires db.Valid()
    modifies db`notifications
    ensures db.Valid()
    ensures NotificationIndex(old(db.notifications), notificationId).None? ==>
      r == Err(NonexistentDocument) && db.notifications == old(db.notifications)
    ensures NotificationIndex(old(db.notifications), notificationId).Some? ==>
      var k := NotificationIndex(old(db.notifications), notificationId).value;
      && r == Ok(())
      && db.notifications == RemoveAt(old(db.notifications), k)
      && multiset(db.notifications) == multiset(old(db.notifications)) - multiset{old(db.notifications)[k]}
  {
    var k := NotificationIndex(db.notifications, notificationId);
    if k.None? {
      return Err(NonexistentDocument);
    }
    RemoveAtMultiset(db.notifications, k.value);
    db.notifications := RemoveAt(db.notifications, k.value);
    r := Ok(());
  }
}
