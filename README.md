# WatchNest API: paging, listing and series records

WatchNest is a web API that keeps, for each user, a list of the TV series
they have watched: the title, the season reached, the streaming provider
and the genre. This project models the logic behind its listing and record
endpoints, and proves what that logic guarantees.

- **Pagination links** (`PaginationHelper.GeneratePaginationLinks`). For
  page `pageIndex` of `totalPages` the helper emits:
  - a "self" link;
  - a "next" link when a later page exists;
  - a "previous" link when an earlier page exists.

  Each href is `baseUrl?` followed by URL-encoded `key=value` pairs. The
  pairs come from a dictionary seeded with `pageIndex` and `pageSize` and
  then assigned the caller's extra parameters in order. The local `BuildUrl`
  loop is modelled as a method with a loop invariant. The dictionary is an
  insertion-ordered association list whose indexer overwrites a key in place.
- **The per-user series service** (`SeriesService`). The store (`Database`)
  and the distributed cache (`DistributedCache`) are classes whose fields the
  methods update.
  - The listing validates paging, keeps the user's records, filters titles by
    substring, counts them and computes the number of pages. It then serves
    the page from the cache, or sorts, slices and caches it.
  - Update merges the non-null and non-zero fields of the input into the
    user's record.
  - Delete removes a record by id, whoever owns it.
  - Create appends a record with the next identity value.
  - Read fetches a record by id.
- **The administrator's listings** (`AdminService`).
  - The user listing pages the `(Id, UserName)` projection and caches each
    page under the key `Users-{pageIndex}-{pageSize}`.
  - The title listing filters all series, sorts them if asked, takes the
    distinct titles, caches the whole list and pages it in memory.
- **The sort-column allow-list** (`SortColumnValidatorAttribute.IsValid`) and
  the listing request record (`RequestDTO`): its defaults, its annotations and
  `Validate`.

The cache is a map with no expiry. For each cache the model defines a
*coherence* invariant: every cached entry equals what a cache miss would
compute for its request. It proves that the listings preserve coherence
whenever the cache key identifies the request. For the user listing this
needs no assumption on the key, because distinct valid page coordinates give
distinct keys (`Admin.UsersCacheKeyInjective`). Like every statement about
pages here, it takes the store's row order as fixed (see "## Left out").
Under coherence a cache hit returns exactly the fresh page. Create, Update and Delete do not touch the cache,
so coherence is a statement about an unchanged series table. After a
mutation a cached page can be stale until it expires, which the model does
not represent.

The request's allow-list is built from the input record `SeriesDTO`, but the
listing sorts the stored entity `SeriesModel`.
- `SortColumns.AllowListAdmitsNonColumns` proves that "Id" and
  "ProviderWatched" pass the allow-list but name no column of the stored
  entity. A listing sorted by either reaches the dynamic sort with a column
  it cannot resolve.
- `SortColumns.AllowListRefusesColumns` proves that the entity's own
  "SeriesID" and "Provider" are refused.

Modules: `Wrappers` (Option), `Strings` (integer rendering and parsing, join,
substring, ordinal ignore-case comparison, 32-bit wrap-around), `Dtos`,
`Linq`, `Pagination`, `SortColumns`, `Requests`, `Persistence`, `Series`,
`Admin`.

## Model

| member | source | states |
|---|---|---|
| Pagination.BuildUrl | Extensions/PaginationHelper.cs:13-30 | The URL is `baseUrl?` plus the encoded pairs of the dictionary seeded with `pageIndex` and `pageSize` and then assigned every extra parameter in order. The loop invariant ties each step to `PutAll` over the extras seen so far. |
| Pagination.GeneratePaginationLinks | Extensions/PaginationHelper.cs:8-51 | The links grown by the conditional `Add`s are exactly `PaginationLinks`: self, then next if `pageIndex + 1 < totalPages`, then previous if `pageIndex > 0`, each of type `action`. `rel` is never used. |
| Pagination.PaginationLinksShape | Extensions/PaginationHelper.cs:11-45 | There are 1 to 3 links. The first is the only "self" link and points at `pageIndex`. "next" (for `pageIndex + 1`) is present iff `pageIndex + 1 < totalPages`; "previous" (last, for `pageIndex - 1`) iff `pageIndex > 0`. Every link's type is `action`. There is exactly one link iff `pageIndex <= 0` and `pageIndex + 1 >= totalPages`. |
| Pagination.LinkScenarios | Extensions/PaginationHelper.cs:33-45 | First page of one gives [self]. First page of three gives [self, next]. Last page of three gives [self, previous]. |
| Pagination.PutLookup | Extensions/PaginationHelper.cs:24 | After the indexer assignment `d[k] = v`, `k` holds `v` and every other key keeps its value. |
| Pagination.PutKeepsUniqueKeys | Extensions/PaginationHelper.cs:24 | The indexer never creates a duplicate key. |
| Pagination.PutAllKeepsUniqueKeys | Extensions/PaginationHelper.cs:15-26 | After all extras are assigned, keys are still distinct and the seeded keys keep their leading positions. |
| Pagination.PutAllAppendsNewKeys | Extensions/PaginationHelper.cs:20-26 | Distinct extras with keys that are new are appended in the caller's order. |
| Pagination.ExtrasInCallerOrder | Extensions/PaginationHelper.cs:15-26 | With distinct extra keys other than `pageIndex` and `pageSize`, the parameters are `pageIndex`, `pageSize`, then the extras in order. |
| Pagination.ExtrasOverwriteInPlace | Extensions/PaginationHelper.cs:15-26 | An extra with an existing key overwrites it in place. Keys stay distinct, `pageIndex` and `pageSize` stay first, and every key maps to the last value assigned. |
| Pagination.PutAllLookup | Extensions/PaginationHelper.cs:20-26 | After the loop, a key holds its extra value if the extras contain it, otherwise its seeded value. |
| Pagination.LinksDifferOnlyInPageIndex | Extensions/PaginationHelper.cs:13-45 | The query parameters of any two links of one listing agree position by position except in the value of `pageIndex`. |
| Pagination.PageIndexReadBack | Extensions/PaginationHelper.cs:17 | Unless an extra overrides it, a link's `pageIndex` parameter is the decimal rendering of its index, and parsing it gives the index back. |
| Pagination.NextLinkOverflow | Extensions/PaginationHelper.cs:36-39 | As written, in 32-bit arithmetic, `int.MaxValue + 1` wraps to `int.MinValue`, so the "next" test passes on page `int.MaxValue` of 1. |
| Pagination.NextLinkExact | Extensions/PaginationHelper.cs:36-39 | Below `int.MaxValue` the 32-bit test and the exact test agree. A "next" link of the exact test always points at a 32-bit index. |
| Strings.IntToStringRoundTrip | Extensions/PaginationHelper.cs:17-18 | Parsing the rendering of an integer gives the integer back. |
| Strings.IntToStringInjective | Models/Implementation/AdminService.cs:72 | Different integers render as different strings. |
| Strings.SeparatorSplit | Models/Implementation/AdminService.cs:72 | A string of the form `a-b` with no dash in `a` splits uniquely at its first dash. |
| Strings.Wrap32 | Extensions/PaginationHelper.cs:36 | An unchecked `int` result is in 32-bit range, congruent to the exact value modulo 2^32, and equal to it when it fits. |
| Strings.EqualsIgnoreCaseIsEquivalence | Attribute/SortColumnValidatorAttribute.cs:19 | Ordinal ignore-case equality is reflexive, symmetric and transitive. |
| Linq.Where | Models/Implementation/SeriesService.cs:55-61 | A filter keeps exactly the elements satisfying the predicate, each as often as in the input. |
| Linq.FirstIndex | Models/Implementation/SeriesService.cs:117-118 | `FirstOrDefault` finds the first element satisfying the predicate, or none when none does. |
| Linq.CeilDiv | Models/Implementation/SeriesService.cs:80 | The page count is the least `r` with `n <= r * d`: enough pages for every record, and no empty one. |
| Linq.Distinct | Models/Implementation/AdminService.cs:132 | `Distinct` has no duplicates, the same elements as its input, and no more of them. |
| Linq.PageIsSlice | Models/Implementation/SeriesService.cs:87-90 | A page is the slice from `pageIndex * pageSize`, clamped to the input, of at most `pageSize` elements. |
| Linq.PageNonEmptyIff | Models/Implementation/AdminService.cs:137-140 | A page is non-empty exactly when its index is below the page count. |
| Linq.PageLocates | Models/Implementation/SeriesService.cs:80-90 | Element `j` appears at position `j % n` of page `j / n`, and that page is below the page count. |
| Linq.PageKeepsNoDuplicates | Models/Implementation/AdminService.cs:132-137 | A page of a duplicate-free list is duplicate-free. |
| Linq.PageIsSubMultiset | Models/Implementation/SeriesService.cs:87-90 | A page holds only input elements, none more often than the input. |
| Linq.TwentyFiveInPagesOfTen | Models/Implementation/SeriesService.cs:80-90 | 25 records in pages of 10 give 3 pages of 10, 10 and 5, and page 3 is empty. |
| SortColumns.FindFirst | Attribute/SortColumnValidatorAttribute.cs:18-19 | The search returns the first property whose name equals the value ignoring case, or none when no name matches. |
| SortColumns.IsValid | Attribute/SortColumnValidatorAttribute.cs:11-27 | Success iff the entity type is set, the value is a string, and the first name match is a `string` or `int` property. Every failure carries "Value must match an existing column.". |
| SortColumns.RejectsNullAndNonStrings | Attribute/SortColumnValidatorAttribute.cs:13-15 | A null entity type, a null value or a non-string value fails with the fixed message. |
| SortColumns.CaseInsensitive | Attribute/SortColumnValidatorAttribute.cs:19 | Names equal ignoring case are judged alike. |
| SortColumns.FindFirstIgnoresCase | Attribute/SortColumnValidatorAttribute.cs:18-19 | The search result is the same for names equal ignoring case. |
| SortColumns.FindFirstFinds | Attribute/SortColumnValidatorAttribute.cs:18-19 | When property `i` is the first name match, the search returns `i`. |
| SortColumns.TitleWatchedAccepted | DTO/RequestDTO.cs:16-18 | The default column "TitleWatched", and "titlewatched", pass the allow-list built from the input record. |
| SortColumns.OtherTypesRejected | Attribute/SortColumnValidatorAttribute.cs:21 | `RowVersion` (a byte array) and `ApiUsers` (a navigation) match by name but are rejected. |
| SortColumns.OnlyFirstMatchExamined | Attribute/SortColumnValidatorAttribute.cs:18-21 | When the first name match is not sortable, a later sortable match does not help. |
| SortColumns.AcceptsIffSomeSortable | Attribute/SortColumnValidatorAttribute.cs:18-24 | With names distinct ignoring case, a value is accepted iff some `string` or `int` property has that name ignoring case. |
| SortColumns.AllowListAdmitsNonColumns | DTO/RequestDTO.cs:16-18 | "Id" and "ProviderWatched" pass the input-record allow-list but name no property of the stored entity. |
| SortColumns.AllowListRefusesColumns | DTO/RequestDTO.cs:16-18 | The stored entity's "SeriesID" and "Provider" are sortable columns, but the input-record allow-list refuses them. |
| Requests.Validate | DTO/RequestDTO.cs:29-34 | At most one result. None iff the sort column is non-null and accepted by the given entity's allow-list. A result carries the fixed message. |
| Requests.DefaultRequestAnnotations | DTO/RequestDTO.cs:9-27 | The defaults (0, 10, "TitleWatched", "ASC", null, null) pass the range and column checks. `Validate` gives nothing. The null default user fails the required check, and any non-blank user passes it. |
| Requests.BlankUserIdRejected | DTO/RequestDTO.cs:25-27 | Every null, empty or white-space-only user id fails the annotations. |
| Requests.PageSizeBounds | DTO/RequestDTO.cs:12-14 | The page size passes its range check iff it is in 1..100, so 1 and 100 pass and 0 and 101 fail. |
| Series.ListingCount | Models/Implementation/SeriesService.cs:55-63 | The counted records are exactly the stored records of the requesting user whose title contains a non-empty filter, each with its stored multiplicity. |
| Series.FreshPageSpec | Models/Implementation/SeriesService.cs:85-90 | Under a permuting sort, a freshly computed page holds at most `pageSize` of the counted records. It is empty exactly when `pageIndex` is at or past the page count. |
| Series.SeriesCachePutKeepsCoherent | Models/Implementation/SeriesService.cs:82-92 | If the key identifies the request, caching the fresh page keeps every cached page equal to its fresh page. |
| Series.MergeSemantics | Models/Implementation/SeriesService.cs:129-132 | The merge keeps id and owner. A non-null title, genre or provider replaces the stored one, and a null one keeps it. A non-zero season replaces, zero keeps. Merging twice equals merging once. |
| Series.SeasonZeroIsNoChange | Models/Implementation/SeriesService.cs:132 | An update asking for season 0 cannot be told from one that leaves the season alone. |
| Series.SeriesById | Models/Implementation/SeriesService.cs:197-211 | The result is a stored record with the id, or none when no record has it. |
| Series.FindOwnedIff | Models/Implementation/SeriesService.cs:117-118 | The update finds a record iff the user id is non-null and a record with the id belongs to that user. |
| Series.FindOwnedRefinesFindById | Models/Implementation/SeriesService.cs:162 | With distinct ids, when the owner-checked lookup succeeds, the delete's lookup by id finds the same record. |
| Series.RemoveAt | Models/Implementation/SeriesService.cs:172 | Removing one record shortens the table by one and removes exactly that occurrence. |
| Series.SeriesService.CreateSeries | Models/Implementation/SeriesService.cs:22-41 | The record built from the input gets the next identity value and is appended, and the identity counter advances by one. Ids stay distinct, the record reads back by its id, and the message is the creation message. |
| Series.SeriesService.GetSeries | Models/Implementation/SeriesService.cs:45-112 | Invalid paging gives empty data and no message, with the cache untouched. No matching record gives the message naming the user and a record count of 0, with no page count, no links and the cache untouched. Otherwise the count, page count, links and message are as described. On a hit the data is the cached page and the cache is unchanged; on a miss it is the fresh page, and the cache maps the key to it. Coherence is preserved, and under it the data is always the fresh page. |
| Series.SeriesService.UpdateSeries | Models/Implementation/SeriesService.cs:115-157 | Not found gives null data with its message and an unchanged table. A concurrency failure gives null data with its message and an unchanged table. Otherwise only the found record is replaced by the merge, which is returned with the success message and the links of page 0 of 1. |
| Series.SeriesService.DeleteSeries | Models/Implementation/SeriesService.cs:160-193 | Not found, or a concurrency failure, gives null data with its message and an unchanged table. Otherwise exactly the found record is removed and returned, and no record with the id remains. |
| Series.SeriesService.GetSeriesById | Models/Implementation/SeriesService.cs:197-211 | The result is the record with the id, or null when there is none; nothing changes. |
| Admin.UsersCacheKeyInjective | Models/Implementation/AdminService.cs:72 | Distinct non-negative `(pageIndex, pageSize)` pairs give distinct `Users-{i}-{s}` keys. |
| Admin.ProjectionCommutesWithPage | Models/Implementation/AdminService.cs:63-81 | Paging the `(Id, UserName)` projection gives the projection of the same page of accounts, so projecting before `Skip`/`Take` selects the same accounts as paging first. |
| Admin.UsersCachePutKeepsCoherent | Models/Implementation/AdminService.cs:72-84 | Caching a fresh page of users never overwrites another page's entry, so every cached page stays equal to its fresh page. |
| Admin.DistinctTitlesSpec | Models/Implementation/AdminService.cs:115-132 | Under a permuting sort the title list has no duplicates. A title is listed iff some stored series whose title contains the filter carries it; with no filter, any series counts. |
| Admin.TitlesCachePutKeepsCoherent | Models/Implementation/AdminService.cs:127-135 | If the key identifies the request, caching a fresh title list keeps every cached list equal to its fresh list. |
| Linq.PageAsWrittenAgrees | Models/Implementation/AdminService.cs:137 | When `pageIndex * pageSize` fits in 32 bits, the page with the 32-bit offset is the exact page. |
| Series.ListingSkipOverflow | Models/Implementation/SeriesService.cs:88 | As written, page 42949673 at 100 per page has an offset that wraps to 4, so records 4 to 103 of the sorted listing are served; the exact page is empty. |
| Admin.UsersSkipOverflow | Models/Implementation/AdminService.cs:79 | As written, page 3 at 1431655766 per page has an offset that wraps to 2, so the accounts from the third on are served; the exact page is empty. |
| Admin.SkipOffsetOverflow | Models/Implementation/AdminService.cs:137 | As written, page 21474837 at 100 per page of a one-title list serves that title again, because the offset wraps negative. The exact page is empty. |
| Admin.AdminService.GetAllUsers | Models/Implementation/AdminService.cs:53-109 | Invalid paging gives the fixed message and leaves the cache untouched. Otherwise the page comes from the cache or from the projection, and a miss caches it, even when empty. An empty page gives the message with the total and nothing else. A non-empty page gives the count, the page count, the links and the success message. Coherence is preserved, and under it the data is the fresh page, non-empty iff `pageIndex` is below the page count. |
| Admin.AdminService.GetAllSeries | Models/Implementation/AdminService.cs:113-166 | On a miss the title list is computed and cached, and on a hit it is the cached list. The data is a page of that list, with no duplicates. The record count, page count and links, which echo sort column, sort order and filter, come from that list. Coherence is preserved, and under it the data is a page of the fresh list. |

## Left out

- `HttpUtility.UrlEncode` is a function parameter. The model does not fix its definition.
- The cache key of a listing request comes from a request extension that is not part of this model, so it is a function parameter. Coherence results assume only that it identifies the request.
- The dynamic `OrderBy` on a `"{SortColumn} {SortOrder}"` string is a function parameter that must permute its input. No comparator is modelled. The exception it raises for a column it cannot resolve is not modelled.
- Database behaviour:
  - SQL collation is not modelled. Equality and `Contains` are ordinal, whereas a case-insensitive collation would match differently.
  - EF Core's handling of an `OrderBy` followed by `Distinct` is not modelled. The title list keeps first occurrences in the order of the sorted query.
- The offset `pageIndex * pageSize` of all three listings is an unchecked 32-bit product in the source. The as-written page `Linq.PageAsWritten` and the lemmas in "## Findings" state what it does; the service methods compute the exact page. Where the product wraps negative, the database rejects the offset of the per-user and user listings, and that error path is not modelled; where it wraps to a non-negative offset, the source serves a wrong page.
- `DbUpdateConcurrencyException` is a boolean parameter. `RowVersion` and the `ApiUsers` navigation are not fields of the modelled record.
- Row order: each table is a fixed sequence, and a query without an ordering returns its rows in that sequence on every call. The user listing pages with no ordering, the title list comes from a `Distinct` with no guaranteed order, and the series sort column need not be unique. The source can therefore page differently on each call, and the statements that a page equals a freshly computed page (the listings and the cache coherence results) hold only for that fixed order.
- Pagination.GeneratePaginationLinks: tests `pageIndex + 1 < totalPages` in exact arithmetic, so at `pageIndex = int.MaxValue` it emits no "next" link where the source's 32-bit test emits one to page -2147483648. `Pagination.NextLinkShownAsWritten` states the test as written. The listings that build their links with it (`Series.SeriesService.GetSeries`, `Admin.AdminService.GetAllUsers`, `Admin.AdminService.GetAllSeries`) inherit the difference.
- Admin.AdminService.GetAllSeries: pages the title list with the exact offset `pageIndex * pageSize`, so where that product leaves the 32-bit range it returns the exact (empty) page while the source re-serves titles from the wrapped offset. `Linq.PageAsWritten` states the page as written, and `Linq.PageAsWrittenAgrees` shows the two agree whenever the offset fits.
- Series.SeriesService.GetSeries: on a cache miss pages the sorted listing with the exact offset, so where `PageIndex * PageSize` leaves the 32-bit range it returns the exact page, while the source fails (negative wrap) or serves the page at the wrapped offset (`Series.ListingSkipOverflow`).
- Admin.AdminService.GetAllUsers: on a cache miss pages the accounts with the exact offset, so where `pageIndex * pageSize` leaves the 32-bit range it reports no users, while the source fails (negative wrap) or serves the accounts at the wrapped offset (`Admin.UsersSkipOverflow`).
- Integers are rendered with the invariant culture's minus sign. The source's `ToString()` and string interpolation use the current culture, which can render a negative `pageIndex` differently; negative indices reach the links only through the unvalidated admin title listing and the wrapped "next" link.
- Cache expiry (three minutes) and cache serialization are not modelled. Entries live until overwritten, and the three kinds of cached value are three maps.
- `SortOrderValidator` is not part of this model. The request's annotations cover the page-size range, the sort column and the required user id.
- Ignore-case comparison and white space are modelled for ASCII only. No Unicode case folding is modelled.
- `AdminService.DeleteUserAsync` (Identity, transactions), controllers, Identity, JWT and the start-up configuration are outside the modelled core.
- Admin.AdminService.GetAllSeries: requires a positive page size. The admin request record, which would carry such a constraint, is not part of this model. With a page size of 0 the source's floating-point page count has no integer value.
- Series.SeriesService.CreateSeries: requires non-null input strings. This is what the input record's required annotations give the service. The store's own column checks are not modelled.
- `Math.Ceiling` over `double` is replaced by exact integer ceiling division, which agrees for all 32-bit counts and positive sizes.

## Findings

| source | as written | input that shows it | evidently intended | confidence | as-written member | corrected member |
|---|---|---|---|---|---|---|
| Models/Implementation/AdminService.cs:137 | `uniqueTitles.Skip(input.PageIndex * input.PageSize)` multiplies in unchecked 32-bit `int`; a product past `int.MaxValue` wraps, either negative (`Skip` of a negative count skips nothing) or to a small non-negative offset (42949673 × 100 wraps to 4) | `PageIndex = 21474837`, `PageSize = 100` over one title: the page returns the first title again | a page past the end is empty, so the page is non-empty iff `pageIndex < totalPages` | medium, not executed | Admin.SkipOffsetOverflow | Linq.PageNonEmptyIff |
| Models/Implementation/SeriesService.cs:88 | `.Skip(input.PageIndex * input.PageSize)` multiplies in unchecked 32-bit `int`; `PageSize` is at most 100 but `PageIndex` is unbounded | `PageIndex = 42949673`, `PageSize = 100` over at least 104 matching records: the offset wraps to 4 and records 4 to 103 are served with "Successful retrieval" | a page past the end is empty | medium, not executed | Series.ListingSkipOverflow | Series.FreshPageSpec |
| Models/Implementation/AdminService.cs:79 | `.Skip(pageIndex * pageSize)` multiplies in unchecked 32-bit `int`; neither factor has an upper bound | `pageIndex = 3`, `pageSize = 1431655766` over at least 3 accounts: the offset wraps to 2 and the accounts from the third on are served | a page past the end is empty | medium, not executed | Admin.UsersSkipOverflow | Linq.PageNonEmptyIff |
| Extensions/PaginationHelper.cs:36 | `pageIndex + 1 < totalPages` in unchecked 32-bit `int`; at `int.MaxValue` the sum wraps to `int.MinValue` | `pageIndex = int.MaxValue`, `totalPages = 1`: a "next" link to page -2147483648 is emitted | "next" iff a later page exists | medium, not executed | Pagination.NextLinkOverflow | Pagination.PaginationLinksShape |
