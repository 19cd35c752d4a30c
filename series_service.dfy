/**
 * The per-user series service: the paged, filtered, sorted and cached
 * listing, and the single-record create, read, update and delete.
 */
module Series {
  import opened Wrappers
  import opened Strings
  import opened Dtos
  import opened Linq
  import opened Pagination
  import opened Requests
  import opened Persistence

  const Created: string := "The series has been successfully created"
  const SuccessfulRetrieval: string := "Successful retrieval"
  const UpdateNotFound: string := "Series does not exist in the database, please try again!"
  const UpdateConflict: string :=
    "A concurrency error occurred. The series has been removed or updated, please refresh and try again "
  const Updated: string := "The series has been successfully updated."
  const DeleteNotFound: string := "Series does not exist! Please try again"
  const DeleteConflict: string := "Concurrency error! The series has been updated, please refresh and try again"
  const Deleted: string := "The series has been successfully deleted."

  /** The message of an empty listing; a null user id reads as empty. */
  function NoSeriesMessage(userId: Option<string>): string {
    "No series for the user with the UserID: " + NullToEmpty(userId)
  }

  /** An envelope holding only `data` and `message`, as the error paths build it. */
  function Bare<T>(data: T, message: Option<string>): RestDto<T> {
    RestDto(data, None, None, None, None, message, [])
  }

  // ---------------------------------------------------------------------
  // The listing query.
  // ---------------------------------------------------------------------

  /** Owned by the requesting user (a null user owns nothing) and, if a filter is given, titled to contain it. */
  predicate InListing(s: SeriesModel, userId: Option<string>, filterQuery: Option<string>) {
    && userId.Some? && s.userId == userId.value
    && (IsNullOrEmpty(filterQuery) || Contains(s.titleWatched, filterQuery.value))
  }

  /** The records the listing counts and pages, in store order. */
  function ListingQuery(series: seq<SeriesModel>, userId: Option<string>, filterQuery: Option<string>): seq<SeriesModel> {
    Where(series, s => InListing(s, userId, filterQuery))
  }

  /** The ordering text handed to the dynamic sort: `"{SortColumn} {SortOrder}"`. */
  function OrderClause(sortColumn: Option<string>, sortOrder: Option<string>): string {
    NullToEmpty(sortColumn) + " " + NullToEmpty(sortOrder)
  }

  /** The dynamic sort reorders and never adds or drops a record. */
  ghost predicate IsPermutingSort(orderBy: (seq<SeriesModel>, string) -> seq<SeriesModel>) {
    forall s, clause :: multiset(orderBy(s, clause)) == multiset(s)
  }

  /** The query parameters the listing's links echo, nulls replaced by empty strings. */
  function ListingLinkParams(input: RequestDto): QueryParams {
    [ ("SortColumn", NullToEmpty(input.sortColumn)),
      ("SortOrder", NullToEmpty(input.sortOrder)),
      ("UserID", NullToEmpty(input.userId)),
      ("FilterQuery", NullToEmpty(input.filterQuery)) ]
  }

  /** The record count is the number of the user's records that pass the title filter. */
  lemma ListingCount(series: seq<SeriesModel>, userId: Option<string>, filterQuery: Option<string>)
    ensures forall x :: x in ListingQuery(series, userId, filterQuery) <==> x in series && InListing(x, userId, filterQuery)
    ensures |ListingQuery(series, userId, filterQuery)| <= |series|
    ensures forall x :: multiset(ListingQuery(series, userId, filterQuery))[x] ==
                        if InListing(x, userId, filterQuery) then multiset(series)[x] else 0
  {
    var q := ListingQuery(series, userId, filterQuery);
    forall x ensures x in q <==> x in series && InListing(x, userId, filterQuery) {
      assert x in q <==> multiset(q)[x] > 0;
      assert x in series <==> multiset(series)[x] > 0;
    }
  }

  /** The page a cache miss computes: the listing sorted by the request's clause, then sliced. */
  function FreshPage(series: seq<SeriesModel>, input: RequestDto,
                     orderBy: (seq<SeriesModel>, string) -> seq<SeriesModel>): seq<SeriesModel>
  {
    Page(orderBy(ListingQuery(series, input.userId, input.filterQuery),
                 OrderClause(input.sortColumn, input.sortOrder)),
         input.pageIndex, input.pageSize)
  }

  /** A fresh page lists only the user's matching records, at most a page of them, and is empty exactly past the last page. */
  lemma FreshPageSpec(series: seq<SeriesModel>, input: RequestDto,
                      orderBy: (seq<SeriesModel>, string) -> seq<SeriesModel>)
    requires IsPermutingSort(orderBy)
    requires input.pageIndex >= 0 && input.pageSize > 0
    ensures var matching := ListingQuery(series, input.userId, input.filterQuery);
            var page := FreshPage(series, input, orderBy);
            && |page| <= input.pageSize
            && multiset(page) <= multiset(matching)
            && (forall x :: x in page ==> x in series && InListing(x, input.userId, input.filterQuery))
            && (page != [] <==> input.pageIndex < CeilDiv(|matching|, input.pageSize))
  {
    var matching := ListingQuery(series, input.userId, input.filterQuery);
    var ordered := orderBy(matching, OrderClause(input.sortColumn, input.sortOrder));
    var page := FreshPage(series, input, orderBy);
    assert multiset(ordered) == multiset(matching);
    assert |ordered| == |matching| by {
      assert |multiset(ordered)| == |multiset(matching)|;
    }
    PageIsSlice(ordered, input.pageIndex, input.pageSize);
    PageIsSubMultiset(ordered, input.pageIndex, input.pageSize);
    PageNonEmptyIff(ordered, input.pageIndex, input.pageSize);
    ListingCount(series, input.userId, input.filterQuery);
    forall x | x in page ensures x in series && InListing(x, input.userId, input.filterQuery) {
      assert x in multiset(page);
      assert multiset(matching)[x] > 0;
    }
  }

  /**
   * The listing's offset `PageIndex * PageSize` is an unchecked 32-bit
   * product: page 42949673 at 100 per page has the offset 4294967300, which
   * wraps to 4, so records 4 to 103 of the sorted listing are served where
   * the exact page is empty (a record count is itself a 32-bit `int`).
   */
  lemma ListingSkipOverflow(ordered: seq<SeriesModel>)
    requires 104 <= |ordered| <= IntMax
    ensures PageAsWritten(ordered, 42949673, 100) == ordered[4..104]
    ensures Page(ordered, 42949673, 100) == []
  {
    assert Wrap32(42949673 * 100) == 4;
    assert 42949673 * 100 > |ordered|;
  }

  /** Every cached page is the page a cache miss would compute for its request. */
  ghost predicate SeriesCacheCoherent(pages: map<string, seq<SeriesModel>>, series: seq<SeriesModel>,
                                      cacheKeyOf: RequestDto -> string,
                                      orderBy: (seq<SeriesModel>, string) -> seq<SeriesModel>)
  {
    forall input: RequestDto :: input.pageIndex >= 0 && input.pageSize > 0 && cacheKeyOf(input) in pages ==>
      pages[cacheKeyOf(input)] == FreshPage(series, input, orderBy)
  }

  /** Caching a fresh page under a key that identifies its request keeps the cache coherent. */
  lemma SeriesCachePutKeepsCoherent(pages: map<string, seq<SeriesModel>>, series: seq<SeriesModel>,
                                    cacheKeyOf: RequestDto -> string,
                                    orderBy: (seq<SeriesModel>, string) -> seq<SeriesModel>,
                                    input: RequestDto)
    requires KeyIdentifiesRequest(cacheKeyOf)
    requires SeriesCacheCoherent(pages, series, cacheKeyOf, orderBy)
    ensures SeriesCacheCoherent(pages[cacheKeyOf(input) := FreshPage(series, input, orderBy)],
                                series, cacheKeyOf, orderBy)
  {
    var pages' := pages[cacheKeyOf(input) := FreshPage(series, input, orderBy)];
    forall other: RequestDto | other.pageIndex >= 0 && other.pageSize > 0 && cacheKeyOf(other) in pages'
      ensures pages'[cacheKeyOf(other)] == FreshPage(series, other, orderBy)
    {
      if cacheKeyOf(other) == cacheKeyOf(input) {
        assert other == input;
      }
    }
  }

  // ---------------------------------------------------------------------
  // The update merge.
  // ---------------------------------------------------------------------

  /**
   * The update's merge: a null title, genre or provider and a zero season
   * keep the stored value; identity and owner are never changed.
   */
  function Merge(stored: SeriesModel, model: SeriesDto): SeriesModel {
    stored.(
      titleWatched := model.titleWatched.GetOr(stored.titleWatched),
      genre := model.genre.GetOr(stored.genre),
      provider := model.providerWatched.GetOr(stored.provider),
      seasonWatched := if model.seasonWatched != 0 then model.seasonWatched else stored.seasonWatched)
  }

  /** Field by field: what is supplied replaces, what is absent stays; merging twice is merging once. */
  lemma MergeSemantics(stored: SeriesModel, model: SeriesDto)
    ensures var r := Merge(stored, model);
            && r.seriesId == stored.seriesId && r.userId == stored.userId
            && (model.titleWatched.None? ==> r.titleWatched == stored.titleWatched)
            && (model.titleWatched.Some? ==> r.titleWatched == model.titleWatched.value)
            && (model.genre.None? ==> r.genre == stored.genre)
            && (model.genre.Some? ==> r.genre == model.genre.value)
            && (model.providerWatched.None? ==> r.provider == stored.provider)
            && (model.providerWatched.Some? ==> r.provider == model.providerWatched.value)
            && (model.seasonWatched == 0 ==> r.seasonWatched == stored.seasonWatched)
            && (model.seasonWatched != 0 ==> r.seasonWatched == model.seasonWatched)
    ensures Merge(Merge(stored, model), model) == Merge(stored, model)
  {
  }

  /**
   * The sentinel ambiguity: an update asking for season 0 is
   * indistinguishable from one that leaves the season alone.
   */
  lemma SeasonZeroIsNoChange(stored: SeriesModel, model: SeriesDto)
    requires model.seasonWatched == 0
    ensures Merge(stored, model).seasonWatched == stored.seasonWatched
    ensures Merge(stored, model) == Merge(stored, model.(seasonWatched := stored.seasonWatched))
  {
  }

  // ---------------------------------------------------------------------
  // Single-record lookups.
  // ---------------------------------------------------------------------

  /** The update's lookup: owner and id must both match; a null owner matches nothing. */
  predicate IsOwnedRecord(s: SeriesModel, userId: Option<string>, id: int) {
    userId.Some? && s.userId == userId.value && s.seriesId == id
  }

  function FindOwned(series: seq<SeriesModel>, userId: Option<string>, id: int): Option<nat> {
    FirstIndex(series, s => IsOwnedRecord(s, userId, id))
  }

  /** The delete's and the read's lookup: by id alone. */
  function FindById(series: seq<SeriesModel>, id: int): Option<nat> {
    FirstIndex(series, (s: SeriesModel) => s.seriesId == id)
  }

  /** The record with `id`, if any. */
  function SeriesById(series: seq<SeriesModel>, id: int): (r: Option<SeriesModel>)
    ensures r.Some? ==> r.value in series && r.value.seriesId == id
    ensures r.None? ==> forall i :: 0 <= i < |series| ==> series[i].seriesId != id
  {
    match FindById(series, id)
    case Some(i) => Some(series[i])
    case None => None
  }

  /** The owner check of the update finds a record only when the id is present and owned by the user. */
  lemma FindOwnedIff(series: seq<SeriesModel>, userId: Option<string>, id: int)
    ensures FindOwned(series, userId, id).Some? <==>
            userId.Some? && exists i :: 0 <= i < |series| && series[i].seriesId == id && series[i].userId == userId.value
  {
    if FindOwned(series, userId, id).Some? {
      var i := FindOwned(series, userId, id).value;
      assert IsOwnedRecord(series[i], userId, id);
    } else if userId.Some? {
      forall i | 0 <= i < |series| ensures !(series[i].seriesId == id && series[i].userId == userId.value) {
        assert !IsOwnedRecord(series[i], userId, id);
      }
    }
  }

  /** With distinct ids the delete's lookup and the update's differ only in the owner check. */
  lemma FindOwnedRefinesFindById(series: seq<SeriesModel>, userId: Option<string>, id: int)
    requires forall i, j :: 0 <= i < j < |series| ==> series[i].seriesId != series[j].seriesId
    ensures FindOwned(series, userId, id).Some? ==> FindOwned(series, userId, id) == FindById(series, id)
  {
    var o, b := FindOwned(series, userId, id), FindById(series, id);
    if o.Some? {
      assert series[o.value].seriesId == id;
      assert b.Some?;
      assert series[b.value].seriesId == id;
    }
  }

  /** The remainder after removing position `i`. */
  function RemoveAt<T>(s: seq<T>, i: nat): (r: seq<T>)
    requires i < |s|
    ensures |r| == |s| - 1
    ensures multiset(r) + multiset{s[i]} == multiset(s)
  {
    assert s == s[..i] + [s[i]] + s[i + 1..];
    s[..i] + s[i + 1..]
  }

  // ---------------------------------------------------------------------
  // The service.
  // ---------------------------------------------------------------------

  class SeriesService {
    const context: Database
    const distributedCache: DistributedCache

    constructor (context: Database, distributedCache: DistributedCache)
      ensures this.context == context && this.distributedCache == distributedCache
    {
      this.context := context;
      this.distributedCache := distributedCache;
    }

    /**
     * Inserts a record built from the input; the store gives it the next
     * identity value. The input has passed its required-member checks, so
     * its strings are not null.
     */
    method CreateSeries(input: SeriesDto) returns (r: RestDto<SeriesModel>)
      requires context.Valid()
      requires input.userId.Some? && input.titleWatched.Some? && input.providerWatched.Some? && input.genre.Some?
      modifies context
      ensures context.Valid()
      ensures r.data == SeriesModel(old(context.nextSeriesId), input.userId.value, input.titleWatched.value,
                                    input.seasonWatched, input.providerWatched.value, input.genre.value)
      ensures context.series == old(context.series) + [r.data]
      ensures context.nextSeriesId == old(context.nextSeriesId) + 1
      ensures context.users == old(context.users)
      ensures SeriesById(context.series, r.data.seriesId) == Some(r.data)
      ensures r == Bare(r.data, Some(Created))
    {
      var newSeries := SeriesModel(context.nextSeriesId, input.userId.value, input.titleWatched.value,
                                   input.seasonWatched, input.providerWatched.value, input.genre.value);
      context.series := context.series + [newSeries];
      context.nextSeriesId := context.nextSeriesId + 1;
      r := Bare(newSeries, Some(Created));
      var found := SeriesById(context.series, newSeries.seriesId);
      assert found == Some(newSeries) by {
        var i := FindById(context.series, newSeries.seriesId);
        assert context.series[|context.series| - 1].seriesId == newSeries.seriesId;
        assert i.Some?;
        assert i.value == |context.series| - 1;
      }
    }

    /**
     * One page of the user's series. Invalid paging gives an empty result
     * with no message; no matching record gives an empty result with a
     * message naming the user; otherwise the page comes from the cache, or
     * is computed (filtered, sorted, sliced) and cached.
     */
    method GetSeries(input: RequestDto, baseUrl: string, rel: string, action: string,
                     cacheKeyOf: RequestDto -> string, urlEncode: string -> string,
                     orderBy: (seq<SeriesModel>, string) -> seq<SeriesModel>)
      returns (r: RestDto<seq<SeriesModel>>)
      requires IsPermutingSort(orderBy)
      modifies distributedCache
      ensures distributedCache.userPages == old(distributedCache.userPages)
      ensures distributedCache.titleLists == old(distributedCache.titleLists)
      ensures input.pageIndex < 0 || input.pageSize <= 0 ==>
                r == Bare([], None) && distributedCache.seriesPages == old(distributedCache.seriesPages)
      ensures input.pageIndex >= 0 && input.pageSize > 0 ==>
                var matching := ListingQuery(context.series, input.userId, input.filterQuery);
                var key := cacheKeyOf(input);
                var totalPages := CeilDiv(|matching|, input.pageSize);
                && (|matching| == 0 ==>
                      && r == RestDto([], Some(input.pageIndex), Some(input.pageSize), Some(0), None,
                                      Some(NoSeriesMessage(input.userId)), [])
                      && distributedCache.seriesPages == old(distributedCache.seriesPages))
                && (|matching| > 0 ==>
                      && r.pageIndex == Some(input.pageIndex) && r.pageSize == Some(input.pageSize)
                      && r.recordCount == Some(|matching|) && r.totalPages == Some(totalPages)
                      && r.message == Some(SuccessfulRetrieval)
                      && r.links == PaginationLinks(baseUrl, action, input.pageIndex, input.pageSize, totalPages,
                                                    Some(ListingLinkParams(input)), urlEncode)
                      && (key in old(distributedCache.seriesPages) ==>
                            && r.data == old(distributedCache.seriesPages)[key]
                            && distributedCache.seriesPages == old(distributedCache.seriesPages))
                      && (key !in old(distributedCache.seriesPages) ==>
                            && r.data == FreshPage(context.series, input, orderBy)
                            && distributedCache.seriesPages == old(distributedCache.seriesPages)[key := r.data]))
      ensures KeyIdentifiesRequest(cacheKeyOf) &&
              SeriesCacheCoherent(old(distributedCache.seriesPages), context.series, cacheKeyOf, orderBy) ==>
                && SeriesCacheCoherent(distributedCache.seriesPages, context.series, cacheKeyOf, orderBy)
                && (input.pageIndex >= 0 && input.pageSize > 0 ==>
                      r.data == FreshPage(context.series, input, orderBy))
    {
      if input.pageIndex < 0 || input.pageSize <= 0 {
        return Bare([], None);
      }
      var query := ListingQuery(context.series, input.userId, input.filterQuery);
      var recordCount := |query|;
      if recordCount == 0 {
        return RestDto([], Some(input.pageIndex), Some(input.pageSize), Some(recordCount), None,
                       Some(NoSeriesMessage(input.userId)), []);
      }
      var totalPages := CeilDiv(recordCount, input.pageSize);
      var cacheKey := cacheKeyOf(input);
      ghost var coherent := KeyIdentifiesRequest(cacheKeyOf) &&
                            SeriesCacheCoherent(distributedCache.seriesPages, context.series, cacheKeyOf, orderBy);
      var result: seq<SeriesModel>;
      if cacheKey in distributedCache.seriesPages {
        result := distributedCache.seriesPages[cacheKey];
      } else {
        result := Page(orderBy(query, OrderClause(input.sortColumn, input.sortOrder)), input.pageIndex, input.pageSize);
        if coherent {
          SeriesCachePutKeepsCoherent(distributedCache.seriesPages, context.series, cacheKeyOf, orderBy, input);
        }
        distributedCache.seriesPages := distributedCache.seriesPages[cacheKey := result];
      }
      var links := GeneratePaginationLinks(baseUrl, rel, action, input.pageIndex, input.pageSize, totalPages,
                                           Some(ListingLinkParams(input)), urlEncode);
      r := RestDto(result, Some(input.pageIndex), Some(input.pageSize), Some(recordCount), Some(totalPages),
                   Some(SuccessfulRetrieval), links);
    }

    /**
     * Merges the input into the user's record with the input's id. A record
     * of another user, or none, is "not found"; a concurrency failure
     * reported by the store leaves the table as it was.
     */
    method UpdateSeries(model: SeriesDto, baseUrl: string, rel: string, action: string,
                        urlEncode: string -> string, concurrencyFailure: bool)
      returns (r: RestDto<Option<SeriesModel>>)
      requires context.Valid()
      modifies context
      ensures context.Valid()
      ensures context.users == old(context.users) && context.nextSeriesId == old(context.nextSeriesId)
      ensures var found := FindOwned(old(context.series), model.userId, model.id);
              && (found.None? ==>
                    r == Bare(None, Some(UpdateNotFound)) && context.series == old(context.series))
              && (found.Some? && concurrencyFailure ==>
                    r == Bare(None, Some(UpdateConflict)) && context.series == old(context.series))
              && (found.Some? && !concurrencyFailure ==>
                    var merged := Merge(old(context.series)[found.value], model);
                    && context.series == old(context.series)[found.value := merged]
                    && r == RestDto(Some(merged), None, None, None, None, Some(Updated),
                                    PaginationLinks(baseUrl, action, 0, 1, 1, None, urlEncode)))
    {
      var found := FindOwned(context.series, model.userId, model.id);
      if found.None? {
        return Bare(None, Some(UpdateNotFound));
      }
      var series := Merge(context.series[found.value], model);
      if concurrencyFailure {
        return Bare(None, Some(UpdateConflict));
      }
      context.series := context.series[found.value := series];
      var links := GeneratePaginationLinks(baseUrl, rel, action, 0, 1, 1, None, urlEncode);
      r := RestDto(Some(series), None, None, None, None, Some(Updated), links);
    }

    /**
     * Removes the record with `id`, whoever owns it, and returns it. No
     * record, or a concurrency failure, leaves the table as it was.
     */
    method DeleteSeries(id: int, concurrencyFailure: bool) returns (r: RestDto<Option<SeriesModel>>)
      requires context.Valid()
      modifies context
      ensures context.Valid()
      ensures context.users == old(context.users) && context.nextSeriesId == old(context.nextSeriesId)
      ensures var found := FindById(old(context.series), id);
              && (found.None? ==>
                    r == Bare(None, Some(DeleteNotFound)) && context.series == old(context.series))
              && (found.Some? && concurrencyFailure ==>
                    r == Bare(None, Some(DeleteConflict)) && context.series == old(context.series))
              && (found.Some? && !concurrencyFailure ==>
                    && r == Bare(Some(old(context.series)[found.value]), Some(Deleted))
                    && context.series == RemoveAt(old(context.series), found.value)
                    && SeriesById(context.series, id).None?)
    {
      var found := FindById(context.series, id);
      if found.None? {
        return Bare(None, Some(DeleteNotFound));
      }
      var series := context.series[found.value];
      if concurrencyFailure {
        return Bare(None, Some(DeleteConflict));
      }
      ghost var before := context.series;
      context.series := RemoveAt(context.series, found.value);
      r := Bare(Some(series), Some(Deleted));
      forall i | 0 <= i < |context.series| ensures context.series[i].seriesId != id {
        if i < found.value {
          assert context.series[i] == before[i];
        } else {
          assert context.series[i] == before[i + 1];
        }
      }
    }

    /** The record with `id`, or null. */
    method GetSeriesById(id: int) returns (r: Option<SeriesModel>)
      ensures r == SeriesById(context.series, id)
      ensures r.Some? ==> r.value in context.series && r.value.seriesId == id
      ensures r.None? ==> forall i :: 0 <= i < |context.series| ==> context.series[i].seriesId != id
    {
      r := SeriesById(context.series, id);
    }
  }
}
