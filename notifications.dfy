/** The notification store of controller/notificationController.js. `createdAt: new Date()` is
    the database's logical clock, so later notifications carry later times. */
module Notifications {
  import opened Seqs
  import opened Models
  import opened Store

  /** createNotification: the record belongs to the requester and starts unread. */
  method CreateNotification(db: Db, requester: Id, kind: string, title: string, message: string)
    returns (n: Notification)
    requires db.Valid()
    modifies db`notifications, db`nextId, db`clock
    ensures db.Valid()
    ensures n == Notification(old(db.nextId), requester, kind, title, message, old(db.clock), false)
    ensures db.notifications == old(db.notifications) + [n]
    ensures db.nextId == old(db.nextId) + 1 && db.clock == old(db.clock) + 1
  {
    n := Notification(db.nextId, requester, kind, title, message, db.clock, false);
    db.notifications := db.notifications + [n];
    db.nextId := db.nextId + 1;
    db.clock := db.clock + 1;
  }

  function OwnedBy(user: Id): Notification -> bool
  {
    (n: Notification) => n.userId == user
  }

  /** getMyNotifications: the requester's notifications and only those, newest first
      (`find({ userId }).sort({ createdAt: -1 })`). */
  function GetMyNotifications(ns: seq<Notification>, user: Id): (r: seq<Notification>)
    ensures forall i :: 0 <= i < |r| ==> r[i].userId == user && r[i] in ns
    ensures forall i :: 0 <= i < |ns| && ns[i].userId == user ==> ns[i] in r
  {
    var r := LatestFirst(ns, OwnedBy(user));
    assert forall i :: 0 <= i < |r| ==> OwnedBy(user)(r[i]);
    assert forall i :: 0 <= i < |ns| && ns[i].userId == user ==> OwnedBy(user)(ns[i]);
    r
  }

  /** In a store kept in creation order, the requester's list runs strictly newest first. */
  lemma MyNotificationsNewestFirst(ns: seq<Notification>, user: Id)
    requires StrictlyIncreasing(ns, NotificationTime)
    ensures var r := GetMyNotifications(ns, user);
      forall i, j :: 0 <= i < j < |r| ==> r[j].createdAt < r[i].createdAt
  {
    LatestFirstDescending(ns, OwnedBy(user), NotificationTime);
  }

  /** A notification created for the requester is the first one they are shown next. */
  lemma CreatedComesFirst(ns: seq<Notification>, n: Notification)
    ensures |GetMyNotifications(ns + [n], n.userId)| > 0 && GetMyNotifications(ns + [n], n.userId)[0] == n
  {
    LatestFirstAppend(ns, n, OwnedBy(n.userId));
  }

  function NotificationHasId(id: Id): Notification -> bool
  {
    (n: Notification) => n.id == id
  }

  /** `Notification.findById(id)`; ids are unique in the store. */
  function FindNotification(ns: seq<Notification>, id: Id): (r: Option<nat>)
    ensures r.Some? ==> r.value < |ns| && ns[r.value].id == id
    ensures r.None? <==> forall j :: 0 <= j < |ns| ==> ns[j].id != id
  {
    FindFirst(ns, NotificationHasId(id))
  }

  /** markAsRead: a missing notification is a 404, another user's a 403, and both change
      nothing; the owner's notification becomes read with every other field as it was. Marking
      an already read notification changes nothing, so marking twice is marking once. */
  method MarkAsRead(db: Db, requester: Id, id: Id) returns (r: Result<Notification>)
    requires db.Valid()
    modifies db`notifications
    ensures db.Valid()
    ensures FindNotification(old(db.notifications), id).None? ==>
      r == Fail(HttpError(404, NotificationNotFound)) && db.notifications == old(db.notifications)
    ensures FindNotification(old(db.notifications), id).Some? ==>
      var k := FindNotification(old(db.notifications), id).value;
      var n := old(db.notifications)[k];
      && (n.userId != requester ==>
            r == Fail(HttpError(403, NotAuthorizedForNotification)) &&
            db.notifications == old(db.notifications))
      && (n.userId == requester ==>
            r == Ok(n.(read := true)) && db.notifications == old(db.notifications)[k := n.(read := true)])
      && (n.read ==> db.notifications == old(db.notifications))
  {
    var found := FindNotification(db.notifications, id);
    if found.None? {
      return Fail(HttpError(404, NotificationNotFound));
    }
    var k := found.value;
    var n := db.notifications[k];
    if n.userId != requester {
      return Fail(HttpError(403, NotAuthorizedForNotification));
    }
    n := n.(read := true);
    db.notifications := db.notifications[k := n];
    r := Ok(n);
  }
}
