/** The document database: one field per MongoDB collection the core reads or writes. */
module Store {
  import opened Seqs
  import opened Models

  predicate OrderIdsFresh(orders: seq<Order>, nextId: Id)
  {
    && (forall i :: 0 <= i < |orders| ==> orders[i].id < nextId)
    && (forall i, j :: 0 <= i < j < |orders| ==> orders[i].id != orders[j].id)
  }

  predicate EmailsUnique(users: map<Id, User>)
  {
    forall a, b :: a in users && b in users && users[a].email == users[b].email ==> a == b
  }

  function NotificationTime(n: Notification): int { n.createdAt }

  function SearchTime(s: RecentSearch): int { s.createdAt }

  predicate NotificationsOrdered(ns: seq<Notification>, nextId: Id, clock: nat)
  {
    && (forall i :: 0 <= i < |ns| ==> ns[i].id < nextId && ns[i].createdAt < clock)
    && (forall i, j :: 0 <= i < j < |ns| ==> ns[i].id != ns[j].id)
    && StrictlyIncreasing(ns, NotificationTime)
  }

  predicate SearchesOrdered(rs: seq<RecentSearch>, clock: nat)
  {
    && (forall i :: 0 <= i < |rs| ==> rs[i].createdAt < clock)
    && StrictlyIncreasing(rs, SearchTime)
  }

  /** Each popular query is stored once, with a count of at least 1 (addSearch only creates a
      record for a query it did not find, with the schema default 1). */
  predicate PopularValid(ps: seq<PopularSearch>)
  {
    && (forall i :: 0 <= i < |ps| ==> ps[i].count >= 1)
    && (forall i, j :: 0 <= i < j < |ps| ==> ps[i].query != ps[j].query)
  }

  class Db {
    var products: map<Id, Product>
    var orders: seq<Order>
    var users: map<Id, User>
    var notifications: seq<Notification>
    var recentSearches: seq<RecentSearch>
    var popularSearches: seq<PopularSearch>
    /** The next ObjectId the database hands out. */
    var nextId: Id
    /** `Date.now()`: a logical clock, advanced whenever a record is created with a timestamp. */
    var clock: nat
    /** The default `orderStatus` of the order schema, which is not part of this model. */
    const orderStatusDefault: string

    ghost predicate Valid()
      reads this
    {
      && (forall id :: id in products ==> id < nextId)
      && (forall id :: id in users ==> id < nextId)
      && OrderIdsFresh(orders, nextId)
      && EmailsUnique(users)
      && (forall id :: id in users ==> UserInvariant(users[id]))
      && NotificationsOrdered(notifications, nextId, clock)
      && SearchesOrdered(recentSearches, clock)
      && PopularValid(popularSearches)
    }

    constructor (statusDefault: string)
      ensures Valid()
      ensures products == map[] && orders == [] && users == map[]
      ensures notifications == [] && recentSearches == [] && popularSearches == []
      ensures orderStatusDefault == statusDefault
    {
      products, orders, users := map[], [], map[];
      notifications, recentSearches, popularSearches := [], [], [];
      nextId, clock := 0, 0;
      orderStatusDefault := statusDefault;
    }
  }
}
