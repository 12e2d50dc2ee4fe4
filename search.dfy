/** The search tallies of controller/searchController.js: a per-user list of recent searches and
    one popularity counter per query. `createdAt: Date.now` is the database's logical clock. */
module Search {
  import opened Seqs
  import opened Models
  import opened Store

  const RecentLimit: nat := 5
  const PopularLimit: nat := 8

  function SearchedBy(user: Id): RecentSearch -> bool
  {
    (s: RecentSearch) => s.userId == user
  }

  /** `RecentSearch.find({ userId }).sort({ createdAt: -1 }).limit(5)` */
  function RecentFor(rs: seq<RecentSearch>, user: Id): (r: seq<RecentSearch>)
    ensures |r| <= RecentLimit
    ensures |r| == if |Filter(rs, SearchedBy(user))| <= RecentLimit then |Filter(rs, SearchedBy(user))| else RecentLimit
    ensures forall i :: 0 <= i < |r| ==> r[i].userId == user && r[i] in rs
  {
    var n := |Filter(rs, SearchedBy(user))|;
    var mine := LatestFirst(rs, SearchedBy(user));
    assert |mine| == n;
    Take(mine, RecentLimit)
  }

  /** With the store in creation order, the list is the user's newest searches, newest first:
      times strictly fall along it, and every search of the user left out is older than all
      those shown (so some are left out only when five are shown). */
  lemma RecentAreNewest(rs: seq<RecentSearch>, user: Id)
    requires StrictlyIncreasing(rs, SearchTime)
    ensures var r := RecentFor(rs, user);
      && (forall i, j :: 0 <= i < j < |r| ==> r[j].createdAt < r[i].createdAt)
      && (forall i :: 0 <= i < |rs| && rs[i].userId == user && rs[i] !in r ==>
            |r| == RecentLimit && forall j :: 0 <= j < |r| ==> rs[i].createdAt < r[j].createdAt)
  {
    RecentDescending(rs, user);
    forall i | 0 <= i < |rs| && rs[i].userId == user && rs[i] !in RecentFor(rs, user)
      ensures |RecentFor(rs, user)| == RecentLimit
      ensures forall j :: 0 <= j < |RecentFor(rs, user)| ==> rs[i].createdAt < RecentFor(rs, user)[j].createdAt
    {
      OmittedIsOlder(rs, user, rs[i]);
    }
  }

  lemma RecentDescending(rs: seq<RecentSearch>, user: Id)
    requires StrictlyIncreasing(rs, SearchTime)
    ensures var r := RecentFor(rs, user);
      forall i, j :: 0 <= i < j < |r| ==> r[j].createdAt < r[i].createdAt
  {
    var mine := LatestFirst(rs, SearchedBy(user));
    var r := RecentFor(rs, user);
    LatestFirstDescending(rs, SearchedBy(user), SearchTime);
    assert r == Take(mine, RecentLimit);
    forall i, j | 0 <= i < j < |r| ensures r[j].createdAt < r[i].createdAt {
      assert r[i] == mine[i] && r[j] == mine[j];
      assert SearchTime(mine[j]) < SearchTime(mine[i]);
    }
  }

  lemma OmittedIsOlder(rs: seq<RecentSearch>, user: Id, s: RecentSearch)
    requires StrictlyIncreasing(rs, SearchTime)
    requires s in rs && s.userId == user && s !in RecentFor(rs, user)
    ensures |RecentFor(rs, user)| == RecentLimit
    ensures forall j :: 0 <= j < |RecentFor(rs, user)| ==> s.createdAt < RecentFor(rs, user)[j].createdAt
  {
    var mine := LatestFirst(rs, SearchedBy(user));
    var r := RecentFor(rs, user);
    LatestFirstDescending(rs, SearchedBy(user), SearchTime);
    assert r == Take(mine, RecentLimit);
    assert SearchedBy(user)(s);
    TakeLeavesTail(mine, RecentLimit, s);
    var k :| RecentLimit <= k < |mine| && mine[k] == s;
    forall j | 0 <= j < |r| ensures s.createdAt < r[j].createdAt {
      assert r[j] == mine[j];
      assert SearchTime(mine[k]) < SearchTime(mine[j]);
    }
  }

  function CountOf(p: PopularSearch): int
  {
    p.count
  }

  /** `PopularSearch.find().sort({ count: -1 }).limit(8)`, with ties in one admissible order. */
  function TopPopular(ps: seq<PopularSearch>): (r: seq<PopularSearch>)
    ensures |r| == if |ps| <= PopularLimit then |ps| else PopularLimit
    ensures forall i :: 0 <= i < |r| ==> r[i] in ps
    ensures multiset(r) <= multiset(ps)
  {
    var sorted := SortDesc(ps, CountOf);
    assert forall i :: 0 <= i < |sorted| ==> sorted[i] in multiset(ps);
    TakeSubMultiset(sorted, PopularLimit);
    Take(sorted, PopularLimit)
  }

  /** The popular list is in descending count order, and any query it leaves out counts no more
      than every query it shows. */
  lemma TopPopularIsTop(ps: seq<PopularSearch>)
    ensures var r := TopPopular(ps);
      && SortedDesc(r, CountOf)
      && (forall i :: 0 <= i < |ps| && ps[i] !in r ==>
            |r| == PopularLimit && forall j :: 0 <= j < |r| ==> ps[i].count <= r[j].count)
  {
    var sorted := SortDesc(ps, CountOf);
    SortDescSorted(ps, CountOf);
    assert TopPopular(ps) == Take(sorted, PopularLimit);
    TakeSorted(sorted, CountOf, PopularLimit);
    forall i | 0 <= i < |ps| && ps[i] !in TopPopular(ps)
      ensures |TopPopular(ps)| == PopularLimit &&
        forall j :: 0 <= j < |TopPopular(ps)| ==> ps[i].count <= TopPopular(ps)[j].count
    {
      assert ps[i] in multiset(sorted);
      TakeOfSortedIsTop(sorted, CountOf, PopularLimit, ps[i]);
    }
  }

  function HasQuery(query: string): PopularSearch -> bool
  {
    (p: PopularSearch) => p.query == query
  }

  /** The count recorded for `query`, summed over its records (at most one is kept). */
  function CountFor(query: string): PopularSearch -> int
  {
    (p: PopularSearch) => if p.query == query then p.count else 0
  }

  function PopularCount(ps: seq<PopularSearch>, query: string): int
  {
    SumOf(ps, CountFor(query))
  }

  /** addSearch's popularity tally: `findOne({ query })`, then `count += 1` on the record found,
      or a new record with the schema default count 1. */
  function Tallied(ps: seq<PopularSearch>, query: string): (r: seq<PopularSearch>)
    ensures |r| == |ps| || r == ps + [PopularSearch(query, 1)]
  {
    match FindFirst(ps, HasQuery(query))
    case Some(k) => ps[k := ps[k].(count := ps[k].count + 1)]
    case None => ps + [PopularSearch(query, 1)]
  }

  /** Tallying a query raises its count by exactly one and leaves every other count as it was. */
  lemma TalliedCounts(ps: seq<PopularSearch>, query: string)
    ensures forall q :: PopularCount(Tallied(ps, query), q) == PopularCount(ps, q) + (if q == query then 1 else 0)
  {
    match FindFirst(ps, HasQuery(query)) {
      case Some(k) =>
        var bumped := ps[k].(count := ps[k].count + 1);
        forall q ensures PopularCount(Tallied(ps, query), q) == PopularCount(ps, q) + (if q == query then 1 else 0) {
          SumOfUpdate(ps, k, bumped, CountFor(q));
        }
      case None =>
        forall q ensures PopularCount(Tallied(ps, query), q) == PopularCount(ps, q) + (if q == query then 1 else 0) {
          SumOfConcat(ps, [PopularSearch(query, 1)], CountFor(q));
          assert [PopularSearch(query, 1)][..0] == [];
        }
    }
  }

  method TallyQuery(db: Db, query: string)
    requires db.Valid() && query != ""
    modifies db`popularSearches
    ensures db.Valid()
    ensures db.popularSearches == Tallied(old(db.popularSearches), query)
  {
    var ps := db.popularSearches;
    match FindFirst(ps, HasQuery(query)) {
      case Some(k) =>
        db.popularSearches := ps[k := ps[k].(count := ps[k].count + 1)];
      case None =>
        db.popularSearches := ps + [PopularSearch(query, 1)];
    }
  }

  /** `RecentSearch.create({ userId, query })`, stamped with the current time. */
  method RecordRecent(db: Db, requester: Id, query: string) returns (entry: RecentSearch)
    requires db.Valid()
    modifies db`recentSearches, db`clock
    ensures db.Valid()
    ensures entry == RecentSearch(requester, query, old(db.clock))
    ensures db.recentSearches == old(db.recentSearches) + [entry]
    ensures db.clock == old(db.clock) + 1
  {
    entry := RecentSearch(requester, query, db.clock);
    db.recentSearches := db.recentSearches + [entry];
    db.clock := db.clock + 1;
  }

  /** addSearch. An empty query is refused by the recent-search schema before anything is
      stored. Otherwise one entry for the requester is added, the reply lists their newest
      searches with it first, and the query's popularity count rises by exactly one (a new
      record starts at the schema default 1) while every other count stays. */
  method AddSearch(db: Db, requester: Id, query: string) returns (r: Result<seq<RecentSearch>>)
    requires db.Valid()
    modifies db`recentSearches, db`popularSearches, db`clock
    ensures db.Valid()
    ensures query == "" ==>
      && r == Fail(SchemaValidation("query"))
      && db.recentSearches == old(db.recentSearches)
      && db.popularSearches == old(db.popularSearches)
    ensures db.clock == old(db.clock) + (if query == "" then 0 else 1)
    ensures query != "" ==>
      var entry := RecentSearch(requester, query, old(db.clock));
      && db.recentSearches == old(db.recentSearches) + [entry]
      && r == Ok(RecentFor(db.recentSearches, requester))
      && |r.value| > 0 && r.value[0] == entry
      && db.popularSearches == Tallied(old(db.popularSearches), query)
      && (forall q :: PopularCount(db.popularSearches, q) ==
            PopularCount(old(db.popularSearches), q) + (if q == query then 1 else 0))
  {
    if query == "" {
      return Fail(SchemaValidation("query"));
    }
    var entry := RecordRecent(db, requester, query);
    var recent := RecentFor(db.recentSearches, requester);
    NewEntryFirst(old(db.recentSearches), entry);
    TallyQuery(db, query);
    TalliedCounts(old(db.popularSearches), query);
    r := Ok(recent);
  }

  /** The entry just added heads the user's recent list. */
  lemma NewEntryFirst(rs: seq<RecentSearch>, entry: RecentSearch)
    ensures |RecentFor(rs + [entry], entry.userId)| > 0
    ensures RecentFor(rs + [entry], entry.userId)[0] == entry
  {
    LatestFirstAppend(rs, entry, SearchedBy(entry.userId));
    assert RecentFor(rs + [entry], entry.userId)[0] == LatestFirst(rs + [entry], SearchedBy(entry.userId))[0];
  }

  /** getSearchData: the requester's recent searches and the most popular queries. */
  method GetSearchData(db: Db, requester: Id)
    returns (recentSearches: seq<RecentSearch>, popularSearches: seq<PopularSearch>)
    requires db.Valid()
    ensures recentSearches == RecentFor(db.recentSearches, requester)
    ensures popularSearches == TopPopular(db.popularSearches)
    ensures |recentSearches| <= RecentLimit && |popularSearches| <= PopularLimit
    ensures forall i, j :: 0 <= i < j < |recentSearches| ==>
      recentSearches[j].createdAt < recentSearches[i].createdAt
    ensures SortedDesc(popularSearches, CountOf)
  {
    recentSearches := RecentFor(db.recentSearches, requester);
    popularSearches := TopPopular(db.popularSearches);
    RecentAreNewest(db.recentSearches, requester);
    TopPopularIsTop(db.popularSearches);
  }
}
