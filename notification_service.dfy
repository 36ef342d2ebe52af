/** `NotificationService`: notification rows are created unread and pushed to the owner's topic;
  * only the owner may mark or delete one; the listing queries are newest first. */
module NotificationService {

  import opened Wrappers
  import opened JavaText
  import opened Seqs
  import opened Entities
  import opened Store

  /** The arguments of `createNotification`, before the row gets its id and creation time. */
  datatype Draft = Draft(
    userId: Id,
    kind: NotificationType,
    title: string,
    message: string,
    relatedId: Option<Id>,
    relatedType: Option<string>)

  /** The row `createNotification` saves for a draft: unread, stamped by `@CreationTimestamp`. */
  function Stored(d: Draft, id: Id, now: Time): Notification
  {
    Notification(id, d.userId, d.kind, d.title, d.message, d.relatedId, d.relatedType, false, now)
  }

  const TopicPrefix := "/topic/notifications/"

  /** The broker destination of a user's notifications. */
  function Topic(userId: Id): (t: string)
    ensures StartsWith(t, TopicPrefix) && |t| > |TopicPrefix|
  {
    TopicPrefix + NatToString(userId)
  }

  /** Different users listen on different topics, so a push reaches only its owner. */
  lemma TopicInjective(a: Id, b: Id)
    requires Topic(a) == Topic(b)
    ensures a == b
  {
    assert Topic(a)[|TopicPrefix|..] == NatToString(a);
    assert Topic(b)[|TopicPrefix|..] == NatToString(b);
    NatToStringInjective(a, b);
  }

  /** What reaches the broker for one saved row: the push, or nothing when sending fails (the
    * failure is caught and logged). */
  function Deliver(brokerUp: bool, n: Notification): seq<Push>
  {
    if brokerUp then [Push(Topic(n.userId), n)] else []
  }

  // ---------------------------------------------------------------- notify* helpers

  function MatchDraft(userId: Id, matchId: Id, matchedUserName: string): Draft
  {
    Draft(userId, MATCH, "New Match!", "You matched with " + matchedUserName + "!", Some(matchId), Some("MATCH"))
  }

  function GroupMessageDraft(userId: Id, roomId: Id, senderName: string, activityTitle: Option<string>): (d: Draft)
    ensures d.kind == MESSAGE && d.relatedType == Some("GROUP") && d.relatedId == Some(roomId)
    ensures activityTitle.None? ==> d.message == senderName + " sent a message in a group chat"
    ensures activityTitle.Some? ==> d.message == senderName + " sent a message in " + activityTitle.value
  {
    Draft(userId, MESSAGE, "Group Chat",
          senderName + " sent a message in " + activityTitle.UnwrapOr("a group chat"),
          Some(roomId), Some("GROUP"))
  }

  // ---------------------------------------------------------------- queries

  /** The key of `ORDER BY createdAt DESC` as an ascending sort. */
  function NewestFirst(n: Notification): int { -n.createdAt }

  function OwnedBy(u: Id): Notification -> bool
  {
    (n: Notification) => n.userId == u
  }

  function UnreadOf(u: Id): Notification -> bool
  {
    (n: Notification) => n.userId == u && !n.isRead
  }

  /** `getUserNotifications`: exactly the user's rows, newest first. */
  function UserNotifications(ns: seq<Notification>, u: Id): (r: seq<Notification>)
    ensures SortedBy(r, NewestFirst)
    ensures forall i :: 0 <= i < |r| ==> r[i] in ns && r[i].userId == u
    ensures forall i :: 0 <= i < |ns| && ns[i].userId == u ==> ns[i] in r
    ensures |r| == |Filter(ns, OwnedBy(u))| && multiset(r) == multiset(Filter(ns, OwnedBy(u)))
  {
    var mine := Filter(ns, OwnedBy(u));
    SortByElements(mine, NewestFirst);
    SortBy(mine, NewestFirst)
  }

  /** `getUnreadNotifications`: exactly the user's unread rows, newest first. */
  function UnreadNotifications(ns: seq<Notification>, u: Id): (r: seq<Notification>)
    ensures SortedBy(r, NewestFirst)
    ensures forall i :: 0 <= i < |r| ==> r[i] in ns && r[i].userId == u && !r[i].isRead
    ensures forall i :: 0 <= i < |ns| && ns[i].userId == u && !ns[i].isRead ==> ns[i] in r
    ensures |r| == |Filter(ns, UnreadOf(u))| && multiset(r) == multiset(Filter(ns, UnreadOf(u)))
  {
    var unread := Filter(ns, UnreadOf(u));
    SortByElements(unread, NewestFirst);
    SortBy(unread, NewestFirst)
  }

  /** `getUnreadCount`. */
  function UnreadCount(ns: seq<Notification>, u: Id): (n: nat)
    ensures n <= |ns|
    ensures n == 0 <==> forall i :: 0 <= i < |ns| ==> ns[i].userId != u || ns[i].isRead
  {
    if forall i :: 0 <= i < |ns| ==> !UnreadOf(u)(ns[i]) then
      FilterNone(ns, UnreadOf(u));
      Count(ns, UnreadOf(u))
    else
      Count(ns, UnreadOf(u))
  }

  /** A row the user has not read is counted. */
  lemma {:induction false} UnreadCountPositive(ns: seq<Notification>, u: Id, i: nat)
    requires i < |ns| && ns[i].userId == u && !ns[i].isRead
    ensures UnreadCount(ns, u) > 0
  {
    assert ns[i] in Filter(ns, UnreadOf(u));
  }

  // ---------------------------------------------------------------- updates as functions

  /** The `markAllAsReadByUserId` update. */
  function MarkAllRead(ns: seq<Notification>, u: Id): (r: seq<Notification>)
    ensures |r| == |ns|
    ensures forall i :: 0 <= i < |ns| && ns[i].userId != u ==> r[i] == ns[i]
    ensures forall i :: 0 <= i < |ns| && ns[i].userId == u ==> r[i] == ns[i].(isRead := true)
  {
    if ns == [] then []
    else [if ns[0].userId == u then ns[0].(isRead := true) else ns[0]] + MarkAllRead(ns[1..], u)
  }

  /** After `markAllAsRead` the user has nothing unread. */
  lemma MarkAllReadClearsUnread(ns: seq<Notification>, u: Id)
    ensures UnreadCount(MarkAllRead(ns, u), u) == 0
    ensures UnreadNotifications(MarkAllRead(ns, u), u) == []
  {
    var r := MarkAllRead(ns, u);
    assert forall i :: 0 <= i < |r| ==> !UnreadOf(u)(r[i]);
    FilterNone(r, UnreadOf(u));
  }

  /** `markAllAsRead` for one user leaves every other user's unread count as it was. */
  lemma {:induction false} MarkAllReadKeepsOthers(ns: seq<Notification>, u: Id, v: Id)
    requires u != v
    ensures UnreadCount(MarkAllRead(ns, u), v) == UnreadCount(ns, v)
  {
    if ns != [] {
      MarkAllReadKeepsOthers(ns[1..], u, v);
      var r := MarkAllRead(ns, u);
      assert r[1..] == MarkAllRead(ns[1..], u);
      assert UnreadOf(v)(r[0]) == UnreadOf(v)(ns[0]);
    }
  }

  /** The `deleteOldNotifications` query: rows created before the cutoff go. */
  function DropOlderThan(ns: seq<Notification>, cutoff: Time): (r: seq<Notification>)
    ensures forall i :: 0 <= i < |r| ==> r[i] in ns && r[i].createdAt >= cutoff
    ensures forall i :: 0 <= i < |ns| && ns[i].createdAt >= cutoff ==> ns[i] in r
  {
    Filter(ns, (n: Notification) => !(n.createdAt < cutoff))
  }

  /** A new row is found by its id, and it adds one to its owner's unread count. */
  lemma {:induction false} CreatedIsFoundAndUnread(ns: seq<Notification>, d: Draft, id: Id, now: Time)
    requires forall i :: 0 <= i < |ns| ==> ns[i].id < id
    ensures NotificationIndex(ns + [Stored(d, id, now)], id) == Some(|ns|)
    ensures UnreadCount(ns + [Stored(d, id, now)], d.userId) == UnreadCount(ns, d.userId) + 1
  {
    var n := Stored(d, id, now);
    IndexWhereAppendFresh(ns, n, (x: Notification) => x.id == id);
    FilterAppend(ns, [n], UnreadOf(d.userId));
    assert Filter([n], UnreadOf(d.userId)) == [n] + Filter([n][1..], UnreadOf(d.userId));
  }

  // ---------------------------------------------------------------- a batch of notifications

  /** The rows saved by the first `k` calls of a batch of `createNotification` calls: consecutive
    * ids from `firstId`. */
  function Saved(ds: seq<Draft>, k: nat, firstId: Id, now: Time): (r: seq<Notification>)
    requires k <= |ds|
    ensures |r| == k
  {
    if k == 0 then [] else Saved(ds, k - 1, firstId, now) + [Stored(ds[k - 1], firstId + k - 1, now)]
  }

  /** The pushes those calls hand to the broker, in order. */
  function Pushed(brokerUp: bool, ds: seq<Draft>, k: nat, firstId: Id, now: Time): seq<Push>
    requires k <= |ds|
  {
    if k == 0 then []
    else Pushed(brokerUp, ds, k - 1, firstId, now) + Deliver(brokerUp, Stored(ds[k - 1], firstId + k - 1, now))
  }

  /** Row `i` of a batch is draft `i`, unread, with id `firstId + i`. */
  lemma {:induction false} SavedAt(ds: seq<Draft>, k: nat, firstId: Id, now: Time, i: nat)
    requires i < k <= |ds|
    ensures Saved(ds, k, firstId, now)[i] == Stored(ds[i], firstId + i, now)
  {
    if i < k - 1 {
      SavedAt(ds, k - 1, firstId, now, i);
    }
  }

  /** With the broker up, a batch pushes each saved row to its owner's topic, in order; with the
    * broker down it pushes nothing. */
  lemma {:induction false} PushedTopics(brokerUp: bool, ds: seq<Draft>, k: nat, firstId: Id, now: Time)
    requires k <= |ds|
    ensures brokerUp ==>
      Pushed(brokerUp, ds, k, firstId, now) == Map(Saved(ds, k, firstId, now), (n: Notification) => Push(Topic(n.userId), n))
    ensures !brokerUp ==> Pushed(brokerUp, ds, k, firstId, now) == []
  {
    if k > 0 {
      PushedTopics(brokerUp, ds, k - 1, firstId, now);
      MapSnoc(Saved(ds, k - 1, firstId, now), Stored(ds[k - 1], firstId + k - 1, now),
              (n: Notification) => Push(Topic(n.userId), n));
    }
  }

  /** Position of the first draft whose recipient has no user row: where a batch stops. */
  function FirstMissing(users: seq<User>, ds: seq<Draft>): (r: Option<nat>)
    ensures r.Some? ==> r.value < |ds|
  {
    if ds == [] then None
    else if !UserExists(users, ds[0].userId) then Some(0)
    else match FirstMissing(users, ds[1..]) case None => None case Some(k) => Some(k + 1)
  }

  /** Calls `createNotification` for each draft in turn, inside the caller's transaction: the
    * first unknown recipient aborts the batch and the rows saved so far are rolled back, while
    * the pushes already handed to the broker stay sent. */
  method NotifyEach(db: Db, ds: seq<Draft>, now: Time) returns (r: Result<seq<Notification>>)
    requires db.NotificationsValid()
    modifies db`notifications, db`nextNotificationId, db`outbox
    ensures db.NotificationsValid()
    ensures r.Ok? <==> FirstMissing(db.users, ds).None?
    ensures r.Ok? ==> r.value == Saved(ds, |ds|, old(db.nextNotificationId), now)
    ensures r.Ok? ==> db.notifications == old(db.notifications) + r.value
    ensures r.Ok? ==> db.nextNotificationId == old(db.nextNotificationId) + |ds|
    ensures r.Ok? ==> db.outbox == old(db.outbox) + Pushed(db.brokerUp, ds, |ds|, old(db.nextNotificationId), now)
    ensures r.Err? ==> r.msg == UserNotFound
    ensures r.Err? ==> db.notifications == old(db.notifications) && db.nextNotificationId == old(db.nextNotificationId)
    ensures r.Err? ==>
      db.outbox == old(db.outbox) + Pushed(db.brokerUp, ds, FirstMissing(db.users, ds).value, old(db.nextNotificationId), now)
  {
    var first := db.nextNotificationId;
    var saved := db.notifications;
    var done := CreateUntilMissing(db, ds, now);
    if done < |ds| {
      db.notifications := saved;
      db.nextNotificationId := first;
      return Err(UserNotFound);
    }
    return Ok(Saved(ds, |ds|, first, now));
  }

  /** The loop of a batch: saves one row per draft and stops at the first unknown recipient,
    * returning how many drafts were saved. */
  method CreateUntilMissing(db: Db, ds: seq<Draft>, now: Time) returns (done: nat)
    requires db.NotificationsValid()
    modifies db`notifications, db`nextNotificationId, db`outbox
    ensures db.NotificationsValid()
    ensures done <= |ds|
    ensures done == |ds| <==> FirstMissing(db.users, ds).None?
    ensures done < |ds| ==> FirstMissing(db.users, ds) == Some(done)
    ensures db.notifications == old(db.notifications) + Saved(ds, done, old(db.nextNotificationId), now)
    ensures db.nextNotificationId == old(db.nextNotificationId) + done
    ensures db.outbox == old(db.outbox) + Pushed(db.brokerUp, ds, done, old(db.nextNotificationId), now)
  {
    var first := db.nextNotificationId;
    ghost var saved := db.notifications;
    ghost var out := db.outbox;
    ghost var users := db.users;
    ghost var up := db.brokerUp;
    var k := 0;
    while k < |ds|
      invariant 0 <= k <= |ds|
      invariant db.users == users && db.brokerUp == up
      invariant db.NotificationsValid()
      invariant forall j :: 0 <= j < k ==> UserExists(users, ds[j].userId)
      invariant db.notifications == saved + Saved(ds, k, first, now)
      invariant db.nextNotificationId == first + k
      invariant db.outbox == out + Pushed(up, ds, k, first, now)
    {
      var one := CreateNotification(db, ds[k], now);
      if one.Err? {
        FirstMissingAt(users, ds, k);
        return k;
      }
      assert Saved(ds, k + 1, first, now) == Saved(ds, k, first, now) + [one.value];
      assert Pushed(up, ds, k + 1, first, now) == Pushed(up, ds, k, first, now) + Deliver(up, one.value);
      AppendAssoc(saved, Saved(ds, k, first, now), [one.value]);
      AppendAssoc(out, Pushed(up, ds, k, first, now), Deliver(up, one.value));
      k := k + 1;
    }
    FirstMissingNone(users, ds);
    return k;
  }

  lemma FirstMissingAt(users: seq<User>, ds: seq<Draft>, k: nat)
    requires k < |ds| && !UserExists(users, ds[k].userId)
    requires forall j :: 0 <= j < k ==> UserExists(users, ds[j].userId)
    ensures FirstMissing(users, ds) == Some(k)
  {
    if k > 0 {
      FirstMissingAt(users, ds[1..], k - 1);
    }
  }

  lemma FirstMissingNone(users: seq<User>, ds: seq<Draft>)
    requires forall j :: 0 <= j < |ds| ==> UserExists(users, ds[j].userId)
    ensures FirstMissing(users, ds) == None
  {
    if ds != [] {
      FirstMissingNone(users, ds[1..]);
    }
  }

  // ---------------------------------------------------------------- telling every admin

  predicate IsAdminRow(u: User) { u.isAdmin }

  /** One ADMIN notice per user whose admin flag is set, in table order: the loop the workflows
    * run over `findAll()` filtered on `getIsAdmin`. */
  function AdminDrafts(users: seq<User>, title: string, message: string, relatedId: Option<Id>,
                       relatedType: Option<string>): (ds: seq<Draft>)
    ensures |ds| == Count(users, IsAdminRow)
  {
    Map(Filter(users, IsAdminRow), (a: User) => Draft(a.id, ADMIN, title, message, relatedId, relatedType))
  }

  /** Each notice goes to an admin and carries the given title, message and link. */
  lemma AdminDraftsGoToAdmins(users: seq<User>, title: string, message: string, relatedId: Option<Id>,
                              relatedType: Option<string>)
    ensures var ds := AdminDrafts(users, title, message, relatedId, relatedType);
      forall j :: 0 <= j < |ds| ==>
        ds[j] == Draft(ds[j].userId, ADMIN, title, message, relatedId, relatedType)
        && exists k :: 0 <= k < |users| && users[k].isAdmin && users[k].id == ds[j].userId
  {
    var ds := AdminDrafts(users, title, message, relatedId, relatedType);
    var admins := Filter(users, IsAdminRow);
    forall j | 0 <= j < |ds| ensures exists k :: 0 <= k < |users| && users[k].isAdmin && users[k].id == ds[j].userId {
      assert admins[j] in users;
      var k :| 0 <= k < |users| && users[k] == admins[j];
    }
  }

  /** Every admin gets a notice. */
  lemma AdminDraftsCoverAdmins(users: seq<User>, title: string, message: string, relatedId: Option<Id>,
                               relatedType: Option<string>)
    ensures var ds := AdminDrafts(users, title, message, relatedId, relatedType);
      forall k :: 0 <= k < |users| && users[k].isAdmin ==> exists j :: 0 <= j < |ds| && ds[j].userId == users[k].id
  {
    var ds := AdminDrafts(users, title, message, relatedId, relatedType);
    forall k | 0 <= k < |users| && users[k].isAdmin ensures exists j :: 0 <= j < |ds| && ds[j].userId == users[k].id {
      var j := AdminDraftFor(users, title, message, relatedId, relatedType, k);
    }
  }

  /** The position of the notice to the admin in row `k`. */
  lemma AdminDraftFor(users: seq<User>, title: string, message: string, relatedId: Option<Id>,
                      relatedType: Option<string>, k: int) returns (j: int)
    requires 0 <= k < |users| && users[k].isAdmin
    ensures var ds := AdminDrafts(users, title, message, relatedId, relatedType);
      0 <= j < |ds| && ds[j].userId == users[k].id
  {
    var admins := Filter(users, IsAdminRow);
    assert users[k] in admins;
    j :| 0 <= j < |admins| && admins[j] == users[k];
  }

  /** Every recipient has a row, so none of the calls fails. */
  lemma AdminDraftsGoThrough(users: seq<User>, title: string, message: string, relatedId: Option<Id>,
                             relatedType: Option<string>)
    ensures FirstMissing(users, AdminDrafts(users, title, message, relatedId, relatedType)).None?
  {
    var ds := AdminDrafts(users, title, message, relatedId, relatedType);
    var admins := Filter(users, IsAdminRow);
    forall j | 0 <= j < |ds| ensures UserExists(users, ds[j].userId) {
      assert ds[j].userId == admins[j].id;
      assert admins[j] in users;
      UserIndexComplete(users, ds[j].userId);
    }
    FirstMissingNone(users, ds);
  }

  /** A notice to a user who has a row, then the notices to the admins: the user is told first,
    * only admins come after, and none of the calls fails. */
  lemma OwnerThenAdmins(users: seq<User>, d: Draft, title: string, message: string, relatedId: Option<Id>,
                        relatedType: Option<string>)
    requires UserExists(users, d.userId)
    ensures var ds := [d] + AdminDrafts(users, title, message, relatedId, relatedType);
      |ds| == 1 + Count(users, IsAdminRow) && ds[0] == d
      && (forall j :: 1 <= j < |ds| ==>
            ds[j].kind == ADMIN && exists k :: 0 <= k < |users| && users[k].isAdmin && users[k].id == ds[j].userId)
      && FirstMissing(users, ds).None?
  {
    var admins := AdminDrafts(users, title, message, relatedId, relatedType);
    var ds := [d] + admins;
    AdminDraftsGoToAdmins(users, title, message, relatedId, relatedType);
    AdminDraftsGoThrough(users, title, message, relatedId, relatedType);
    assert ds[1..] == admins;
    forall j | 1 <= j < |ds|
      ensures ds[j].kind == ADMIN && exists k :: 0 <= k < |users| && users[k].isAdmin && users[k].id == ds[j].userId
    {
      assert ds[j] == admins[j - 1];
    }
  }

  /** After the notice to the user, every admin is told. */
  lemma OwnerThenEveryAdmin(users: seq<User>, d: Draft, title: string, message: string, relatedId: Option<Id>,
                            relatedType: Option<string>)
    ensures var ds := [d] + AdminDrafts(users, title, message, relatedId, relatedType);
      forall k :: 0 <= k < |users| && users[k].isAdmin ==> exists j :: 1 <= j < |ds| && ds[j].userId == users[k].id
  {
    var admins := AdminDrafts(users, title, message, relatedId, relatedType);
    var ds := [d] + admins;
    forall k | 0 <= k < |users| && users[k].isAdmin ensures exists j :: 1 <= j < |ds| && ds[j].userId == users[k].id {
      var j := AdminDraftFor(users, title, message, relatedId, relatedType, k);
      assert ds[j + 1] == admins[j];
    }
  }

  // ---------------------------------------------------------------- the service

  /** `createNotification`: fails with "User not found" for an unknown user, otherwise saves one
    * unread row and hands one push to the broker if it is up. */
  method CreateNotification(db: Db, d: Draft, now: Time) returns (r: Result<Notification>)
    requires db.NotificationsValid()
    modifies db`notifications, db`nextNotificationId, db`outbox
    ensures db.NotificationsValid()
    ensures r.Ok? <==> UserExists(db.users, d.userId)
    ensures r.Err? ==> r.msg == UserNotFound
    ensures r.Err? ==> db.notifications == old(db.notifications) && db.nextNotificationId == old(db.nextNotificationId)
    ensures r.Err? ==> db.outbox == old(db.outbox)
    ensures r.Ok? ==> r.value == Stored(d, old(db.nextNotificationId), now)
    ensures r.Ok? ==> db.notifications == old(db.notifications) + [r.value]
    ensures r.Ok? ==> db.nextNotificationId == old(db.nextNotificationId) + 1
    ensures r.Ok? ==> db.outbox == old(db.outbox) + Deliver(db.brokerUp, r.value)
  {
    if !UserExists(db.users, d.userId) {
      return Err(UserNotFound);
    }
    var n := Stored(d, db.nextNotificationId, now);
    db.notifications := db.notifications + [n];
    db.nextNotificationId := db.nextNotificationId + 1;
    if db.brokerUp {
      db.outbox := db.outbox + [Push(Topic(d.userId), n)];
    }
    return Ok(n);
  }

  /** `markAsRead`: only the owner may mark; marking an already read row changes nothing. */
  method MarkAsRead(db: Db, notificationId: Id, userId: Id) returns (r: Result<Notification>)
    requires db.NotificationsValid()
    modifies db`notifications
    ensures db.NotificationsValid()
    ensures NotificationIndex(old(db.notifications), notificationId).None? ==> r == Err("Notification not found")
    ensures NotificationIndex(old(db.notifications), notificationId).Some? && r.Err? ==> r == Err("Unauthorized")
    ensures r.Err? ==> db.notifications == old(db.notifications)
    ensures r.Ok? <==> (match NotificationIndex(old(db.notifications), notificationId)
                        case None => false
                        case Some(i) => old(db.notifications)[i].userId == userId)
    ensures r.Ok? ==>
      var i := NotificationIndex(old(db.notifications), notificationId).value;
      r.value == old(db.notifications)[i].(isRead := true)
      && db.notifications == old(db.notifications)[i := r.value]
      && (old(db.notifications)[i].isRead ==> db.notifications == old(db.notifications))
  {
    match NotificationIndex(db.notifications, notificationId)
    case None =>
      return Err("Notification not found");
    case Some(i) =>
      if db.notifications[i].userId != userId {
        return Err("Unauthorized");
      }
      var n := db.notifications[i].(isRead := true);
      db.notifications := db.notifications[i := n];
      return Ok(n);
  }

  /** `markAllAsRead`. */
  method MarkAllAsRead(db: Db, userId: Id)
    requires db.NotificationsValid()
    modifies db`notifications
    ensures db.NotificationsValid()
    ensures db.notifications == MarkAllRead(old(db.notifications), userId)
  {
    db.notifications := MarkAllRead(db.notifications, userId);
  }

  /** `deleteNotification`: only the owner's own row is removed. */
  method DeleteNotification(db: Db, notificationId: Id, userId: Id) returns (r: Result<()>)
    requires db.NotificationsValid()
    modifies db`notifications
    ensures db.NotificationsValid()
    ensures r.Ok? <==> (match NotificationIndex(old(db.notifications), notificationId)
                        case None => false
                        case Some(i) => old(db.notifications)[i].userId == userId)
    ensures NotificationIndex(old(db.notifications), notificationId).None? ==> r == Err("Notification not found")
    ensures NotificationIndex(old(db.notifications), notificationId).Some? && r.Err? ==> r == Err("Unauthorized")
    ensures r.Err? ==> db.notifications == old(db.notifications)
    ensures r.Ok? ==>
      var i := NotificationIndex(old(db.notifications), notificationId).value;
      db.notifications == old(db.notifications)[..i] + old(db.notifications)[i + 1..]
  {
    match NotificationIndex(db.notifications, notificationId)
    case None =>
      return Err("Notification not found");
    case Some(i) =>
      if db.notifications[i].userId != userId {
        return Err("Unauthorized");
      }
      db.notifications := db.notifications[..i] + db.notifications[i + 1..];
      return Ok(());
  }

  /** `deleteOldNotifications(daysOld)` run at `now`. */
  method DeleteOldNotifications(db: Db, daysOld: int, now: Time)
    requires db.NotificationsValid()
    modifies db`notifications
    ensures db.NotificationsValid()
    ensures db.notifications == DropOlderThan(old(db.notifications), now - daysOld * Day)
  {
    db.notifications := DropOlderThan(db.notifications, now - daysOld * Day);
  }
}
