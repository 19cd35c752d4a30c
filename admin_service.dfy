/**
 * The administrator's listings: every user account, paged and cached under
 * a key built from the page coordinates; and the distinct titles of all
 * series, filtered, optionally sorted, cached whole and paged in memory.
 */
module Admin {
  import opened Wrappers
  import opened Strings
  import opened Dtos
  import opened Linq
  import opened Pagination
  import opened Requests
  import opened Persistence
  import Series

  const InvalidPaging: string := "Invalid pagination parameters. Ensure 'pageIndex' >= 0 and 'pageSize' > 0."
  const UsersRetrieved: string := "Sucessfully retrieved all paginated users"
  const TitlesRetrieved: string := "Successfully retrieved paginated unqiue series with or without filter"

  // ---------------------------------------------------------------------
  // The user listing.
  // ---------------------------------------------------------------------

  /** The cache key of one page of the user listing: `Users-{pageIndex}-{pageSize}`. */
  function UsersCacheKey(pageIndex: int, pageSize: int): string {
    "Users-" + IntToString(pageIndex) + "-" + IntToString(pageSize)
  }

  /** Distinct page coordinates that pass validation never share a cache entry. */
  lemma UsersCacheKeyInjective(i: int, s: int, i2: int, s2: int)
    requires i >= 0 && s >= 0 && i2 >= 0 && s2 >= 0
    requires UsersCacheKey(i, s) == UsersCacheKey(i2, s2)
    ensures i == i2 && s == s2
  {
    var a, b := IntToString(i), IntToString(s);
    var c, d := IntToString(i2), IntToString(s2);
    var k, k2 := UsersCacheKey(i, s), UsersCacheKey(i2, s2);
    assert k == "Users-" + (a + ['-'] + b);
    assert k2 == "Users-" + (c + ['-'] + d);
    assert a + ['-'] + b == k[6..] == k2[6..] == c + ['-'] + d;
    DigitsHaveNoDash(a);
    DigitsHaveNoDash(c);
    SeparatorSplit(a, b, c, d, '-');
    IntToStringInjective(i, i2);
    IntToStringInjective(s, s2);
  }

  /** The message of an empty page of users. */
  function NoUsersMessage(pageIndex: int, pageSize: int, totalUsers: int): string {
    "There are no users with page index: " + IntToString(pageIndex) + " and pagesize: " + IntToString(pageSize)
    + "\nTotal user record: " + IntToString(totalUsers)
  }

  /** Every account as its `(Id, UserName)` pair, in store order. */
  function UserProjection(users: seq<ApiUser>): (r: seq<UserSummary>)
    ensures |r| == |users|
    ensures forall i :: 0 <= i < |users| ==> r[i].id == users[i].id && r[i].userName == users[i].userName
  {
    Select(users, (u: ApiUser) => UserSummary(u.id, u.userName))
  }

  /**
   * Paging the projection is projecting the page: the query projects first
   * and slices second, and the order of the two does not matter.
   */
  lemma ProjectionCommutesWithPage(users: seq<ApiUser>, pageIndex: int, pageSize: int)
    ensures Page(UserProjection(users), pageIndex, pageSize) == UserProjection(Page(users, pageIndex, pageSize))
  {
    var off := pageIndex * pageSize;
    var all := UserProjection(users);
    assert |Skip(all, off)| == |Skip(users, off)|;
    assert Skip(all, off) == UserProjection(Skip(users, off));
  }

  /** Every cached page of users is the page a fresh query would return. */
  ghost predicate UsersCacheCoherent(pages: map<string, seq<UserSummary>>, users: seq<ApiUser>) {
    forall i, s :: i >= 0 && s > 0 && UsersCacheKey(i, s) in pages ==>
      pages[UsersCacheKey(i, s)] == Page(UserProjection(users), i, s)
  }

  /** Caching a freshly computed page keeps the cache coherent: keys of other pages are never overwritten. */
  lemma UsersCachePutKeepsCoherent(pages: map<string, seq<UserSummary>>, users: seq<ApiUser>, i: int, s: int)
    requires UsersCacheCoherent(pages, users)
    requires i >= 0 && s > 0
    ensures UsersCacheCoherent(pages[UsersCacheKey(i, s) := Page(UserProjection(users), i, s)], users)
  {
    var pages' := pages[UsersCacheKey(i, s) := Page(UserProjection(users), i, s)];
    forall i2, s2 | i2 >= 0 && s2 > 0 && UsersCacheKey(i2, s2) in pages'
      ensures pages'[UsersCacheKey(i2, s2)] == Page(UserProjection(users), i2, s2)
    {
      if UsersCacheKey(i2, s2) == UsersCacheKey(i, s) {
        UsersCacheKeyInjective(i, s, i2, s2);
      }
    }
  }

  // ---------------------------------------------------------------------
  // The distinct-title listing.
  // ---------------------------------------------------------------------

  /** The title filter: none when the filter is null or empty. */
  predicate TitleMatches(s: SeriesModel, filterQuery: Option<string>) {
    IsNullOrEmpty(filterQuery) || Contains(s.titleWatched, filterQuery.value)
  }

  /** The filtered series, sorted only when both the column and the order are given. */
  function AdminQuery(series: seq<SeriesModel>, input: AdminRequestDto,
                      orderBy: (seq<SeriesModel>, string) -> seq<SeriesModel>): seq<SeriesModel>
  {
    var filtered := Where(series, s => TitleMatches(s, input.filterQuery));
    if !IsNullOrEmpty(input.sortColumn) && !IsNullOrEmpty(input.sortOrder)
    then orderBy(filtered, Series.OrderClause(input.sortColumn, input.sortOrder))
    else filtered
  }

  /** The titles of the query, each once, in the order they first appear. */
  function DistinctTitles(query: seq<SeriesModel>): seq<string> {
    Distinct(Select(query, (s: SeriesModel) => s.titleWatched))
  }

  /** A title is listed once, and exactly when some series that passes the filter carries it. */
  lemma DistinctTitlesSpec(series: seq<SeriesModel>, input: AdminRequestDto,
                           orderBy: (seq<SeriesModel>, string) -> seq<SeriesModel>)
    requires Series.IsPermutingSort(orderBy)
    ensures NoDuplicates(DistinctTitles(AdminQuery(series, input, orderBy)))
    ensures forall title :: title in DistinctTitles(AdminQuery(series, input, orderBy)) <==>
              exists s :: s in series && TitleMatches(s, input.filterQuery) && s.titleWatched == title
  {
    var filtered := Where(series, s => TitleMatches(s, input.filterQuery));
    var query := AdminQuery(series, input, orderBy);
    assert multiset(query) == multiset(filtered);
    var titles := Select(query, (s: SeriesModel) => s.titleWatched);
    forall title ensures title in DistinctTitles(query) <==>
                         exists s :: s in series && TitleMatches(s, input.filterQuery) && s.titleWatched == title
    {
      if title in DistinctTitles(query) {
        assert title in titles;
        var i :| 0 <= i < |titles| && titles[i] == title;
        var s := query[i];
        assert s in multiset(filtered);
        assert s in filtered;
        assert multiset(filtered)[s] > 0;
      }
      if exists s :: s in series && TitleMatches(s, input.filterQuery) && s.titleWatched == title {
        var s :| s in series && TitleMatches(s, input.filterQuery) && s.titleWatched == title;
        assert multiset(filtered)[s] == multiset(series)[s] > 0;
        assert s in multiset(query);
        var i :| 0 <= i < |query| && query[i] == s;
        assert titles[i] == title;
      }
    }
  }

  /** The query parameters the admin listing's links echo. */
  function AdminLinkParams(input: AdminRequestDto): QueryParams {
    [ ("SortColumn", NullToEmpty(input.sortColumn)),
      ("SortOrder", NullToEmpty(input.sortOrder)),
      ("FilterQuery", NullToEmpty(input.filterQuery)) ]
  }

  /**
   * Past the 32-bit range the offset wraps: page 21474837 of a one-title
   * list, at 100 per page, skips a negative count and serves that title
   * again instead of an empty page.
   */
  lemma SkipOffsetOverflow()
    ensures PageAsWritten(["A"], 21474837, 100) == ["A"]
    ensures Page(["A"], 21474837, 100) == []
  {
    assert Wrap32(21474837 * 100) == -2147483596;
  }

  /**
   * The user listing's offset wraps too: page 3 at 1431655766 per page has
   * the offset 4294967298, which wraps to 2, so the accounts from the third
   * on are served where the exact page is empty.
   */
  lemma UsersSkipOverflow(users: seq<UserSummary>)
    requires 3 <= |users| <= 1431655768
    ensures PageAsWritten(users, 3, 1431655766) == users[2..]
    ensures Page(users, 3, 1431655766) == []
  {
    assert Wrap32(3 * 1431655766) == 2;
  }

  /** Every cached title list is the distinct titles of a fresh query for its request. */
  ghost predicate TitlesCacheCoherent(lists: map<string, seq<string>>, series: seq<SeriesModel>,
                                      cacheKeyOf: AdminRequestDto -> string,
                                      orderBy: (seq<SeriesModel>, string) -> seq<SeriesModel>)
  {
    forall input :: cacheKeyOf(input) in lists ==>
      lists[cacheKeyOf(input)] == DistinctTitles(AdminQuery(series, input, orderBy))
  }

  /** Caching a fresh title list under a key that identifies its request keeps the cache coherent. */
  lemma TitlesCachePutKeepsCoherent(lists: map<string, seq<string>>, series: seq<SeriesModel>,
                                    cacheKeyOf: AdminRequestDto -> string,
                                    orderBy: (seq<SeriesModel>, string) -> seq<SeriesModel>,
                                    input: AdminRequestDto)
    requires KeyIdentifiesRequest(cacheKeyOf)
    requires TitlesCacheCoherent(lists, series, cacheKeyOf, orderBy)
    ensures TitlesCacheCoherent(lists[cacheKeyOf(input) := DistinctTitles(AdminQuery(series, input, orderBy))],
                                series, cacheKeyOf, orderBy)
  {
    var lists' := lists[cacheKeyOf(input) := DistinctTitles(AdminQuery(series, input, orderBy))];
    forall other | cacheKeyOf(other) in lists'
      ensures lists'[cacheKeyOf(other)] == DistinctTitles(AdminQuery(series, other, orderBy))
    {
      if cacheKeyOf(other) == cacheKeyOf(input) {
        assert other == input;
      }
    }
  }

  // ---------------------------------------------------------------------
  // The service.
  // ---------------------------------------------------------------------

  class AdminService {
    const context: Database
    const distributedCache: DistributedCache

    constructor (context: Database, distributedCache: DistributedCache)
      ensures this.context == context && this.distributedCache == distributedCache
    {
      this.context := context;
      this.distributedCache := distributedCache;
    }

    /**
     * One page of user accounts. Invalid paging is refused with a message;
     * the page comes from the cache or from the store (and is then cached,
     * even when empty); an empty page is reported with the total count.
     */
    method GetAllUsers(baseUrl: string, rel: string, action: string, pageIndex: int, pageSize: int,
                       urlEncode: string -> string)
      returns (r: RestDto<seq<UserSummary>>)
      modifies distributedCache
      ensures distributedCache.seriesPages == old(distributedCache.seriesPages)
      ensures distributedCache.titleLists == old(distributedCache.titleLists)
      ensures pageIndex < 0 || pageSize <= 0 ==>
                r == Series.Bare([], Some(InvalidPaging)) && distributedCache.userPages == old(distributedCache.userPages)
      ensures pageIndex >= 0 && pageSize > 0 ==>
                var key := UsersCacheKey(pageIndex, pageSize);
                var all := UserProjection(context.users);
                var totalPages := CeilDiv(|all|, pageSize);
                var users := if key in old(distributedCache.userPages) then old(distributedCache.userPages)[key]
                             else Page(all, pageIndex, pageSize);
                && (key in old(distributedCache.userPages) ==>
                      distributedCache.userPages == old(distributedCache.userPages))
                && (key !in old(distributedCache.userPages) ==>
                      distributedCache.userPages == old(distributedCache.userPages)[key := users])
                && (users == [] ==> r == Series.Bare([], Some(NoUsersMessage(pageIndex, pageSize, |all|))))
                && (users != [] ==>
                      r == RestDto(users, Some(pageIndex), Some(pageSize), Some(|all|), Some(totalPages),
                                   Some(UsersRetrieved),
                                   PaginationLinks(baseUrl, action, pageIndex, pageSize, totalPages, None, urlEncode)))
      ensures UsersCacheCoherent(old(distributedCache.userPages), context.users) ==>
                && UsersCacheCoherent(distributedCache.userPages, context.users)
                && (pageIndex >= 0 && pageSize > 0 ==>
                      && r.data == Page(UserProjection(context.users), pageIndex, pageSize)
                      && (r.data != [] <==> pageIndex < CeilDiv(|context.users|, pageSize)))
    {
      if pageIndex < 0 || pageSize <= 0 {
        return Series.Bare([], Some(InvalidPaging));
      }
      var usersQuery := UserProjection(context.users);
      var totalUsers := |usersQuery|;
      var cacheKey := UsersCacheKey(pageIndex, pageSize);
      ghost var coherent := UsersCacheCoherent(distributedCache.userPages, context.users);
      var users: seq<UserSummary>;
      if cacheKey in distributedCache.userPages {
        users := distributedCache.userPages[cacheKey];
      } else {
        users := Page(usersQuery, pageIndex, pageSize);
        if coherent {
          UsersCachePutKeepsCoherent(distributedCache.userPages, context.users, pageIndex, pageSize);
        }
        distributedCache.userPages := distributedCache.userPages[cacheKey := users];
      }
      PageNonEmptyIff(usersQuery, pageIndex, pageSize);
      if users == [] {
        return Series.Bare([], Some(NoUsersMessage(pageIndex, pageSize, totalUsers)));
      }
      var totalPages := CeilDiv(totalUsers, pageSize);
      var links := GeneratePaginationLinks(baseUrl, rel, action, pageIndex, pageSize, totalPages, None, urlEncode);
      r := RestDto(users, Some(pageIndex), Some(pageSize), Some(totalUsers), Some(totalPages),
                   Some(UsersRetrieved), links);
    }

    /**
     * One page of the distinct titles of all series. The whole title list
     * is cached under the request's key; paging happens in memory.
     */
    method GetAllSeries(input: AdminRequestDto, baseUrl: string, rel: string, action: string,
                        cacheKeyOf: AdminRequestDto -> string, urlEncode: string -> string,
                        orderBy: (seq<SeriesModel>, string) -> seq<SeriesModel>)
      returns (r: RestDto<seq<string>>)
      requires input.pageSize > 0
      requires Series.IsPermutingSort(orderBy)
      requires distributedCache.Valid()
      modifies distributedCache
      ensures distributedCache.Valid()
      ensures distributedCache.seriesPages == old(distributedCache.seriesPages)
      ensures distributedCache.userPages == old(distributedCache.userPages)
      ensures var key := cacheKeyOf(input);
              var titles := if key in old(distributedCache.titleLists) then old(distributedCache.titleLists)[key]
                            else DistinctTitles(AdminQuery(context.series, input, orderBy));
              var totalPages := CeilDiv(|titles|, input.pageSize);
              && (key in old(distributedCache.titleLists) ==>
                    distributedCache.titleLists == old(distributedCache.titleLists))
              && (key !in old(distributedCache.titleLists) ==>
                    distributedCache.titleLists == old(distributedCache.titleLists)[key := titles])
              && r == RestDto(Page(titles, input.pageIndex, input.pageSize), Some(input.pageIndex),
                              Some(input.pageSize), Some(|titles|), Some(totalPages), Some(TitlesRetrieved),
                              PaginationLinks(baseUrl, action, input.pageIndex, input.pageSize, totalPages,
                                              Some(AdminLinkParams(input)), urlEncode))
      ensures NoDuplicates(r.data)
      ensures KeyIdentifiesRequest(cacheKeyOf) &&
              TitlesCacheCoherent(old(distributedCache.titleLists), context.series, cacheKeyOf, orderBy) ==>
                && TitlesCacheCoherent(distributedCache.titleLists, context.series, cacheKeyOf, orderBy)
                && r.data == Page(DistinctTitles(AdminQuery(context.series, input, orderBy)),
                                  input.pageIndex, input.pageSize)
    {
      var query := AdminQuery(context.series, input, orderBy);
      var cacheKey := cacheKeyOf(input);
      ghost var coherent := KeyIdentifiesRequest(cacheKeyOf) &&
                            TitlesCacheCoherent(distributedCache.titleLists, context.series, cacheKeyOf, orderBy);
      var uniqueTitles: seq<string>;
      if cacheKey in distributedCache.titleLists {
        uniqueTitles := distributedCache.titleLists[cacheKey];
      } else {
        uniqueTitles := DistinctTitles(query);
        if coherent {
          TitlesCachePutKeepsCoherent(distributedCache.titleLists, context.series, cacheKeyOf, orderBy, input);
        }
        distributedCache.titleLists := distributedCache.titleLists[cacheKey := uniqueTitles];
      }
      var paginatedTitles := Page(uniqueTitles, input.pageIndex, input.pageSize);
      PageKeepsNoDuplicates(uniqueTitles, input.pageIndex, input.pageSize);
      var totalRecords := |uniqueTitles|;
      var totalPages := CeilDiv(totalRecords, input.pageSize);
      var links := GeneratePaginationLinks(baseUrl, rel, action, input.pageIndex, input.pageSize, totalPages,
                                           Some(AdminLinkParams(input)), urlEncode);
      r := RestDto(paginatedTitles, Some(input.pageIndex), Some(input.pageSize), Some(totalRecords),
                   Some(totalPages), Some(TitlesRetrieved), links);
    }
  }
}
