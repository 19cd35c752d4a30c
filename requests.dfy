/**
 * The listing request record: its defaults, the constraints its annotations
 * place on it, and its `Validate` method; and the admin listing request.
 */
module Requests {
  import opened Wrappers
  import SortColumns

  /** A per-user listing request; `SortColumn`, `SortOrder`, `FilterQuery` and `UserID` are nullable. */
  datatype RequestDto = RequestDto(
    pageIndex: int,
    pageSize: int,
    sortColumn: Option<string>,
    sortOrder: Option<string>,
    filterQuery: Option<string>,
    userId: Option<string>)

  /**
   * The admin listing request. Its declaration is not part of this model;
   * these are the members the admin listing reads.
   */
  datatype AdminRequestDto = AdminRequestDto(
    pageIndex: int,
    pageSize: int,
    sortColumn: Option<string>,
    sortOrder: Option<string>,
    filterQuery: Option<string>)

  /** A request with every member at its default value. */
  function DefaultRequest(): RequestDto {
    RequestDto(0, 10, Some("TitleWatched"), Some("ASC"), None, None)
  }

  const MinPageSize: int := 1
  const MaxPageSize: int := 100

  /** The range annotation on `PageSize`. */
  predicate PageSizeInRange(r: RequestDto) {
    MinPageSize <= r.pageSize <= MaxPageSize
  }

  /** White space as `string.IsNullOrWhiteSpace` sees it, for the ASCII range. */
  predicate IsWhiteSpace(c: char) {
    c == ' ' || c == '\t' || c == '\n' || c == '\r' || c == '\U{000B}' || c == '\U{000C}'
  }

  /** The required annotation on a string member: not null, not empty, not only white space. */
  predicate RequiredPresent(s: Option<string>) {
    s.Some? && exists i | 0 <= i < |s.value| :: !IsWhiteSpace(s.value[i])
  }

  /** The column check on `SortColumn`, against the input record's properties. */
  function SortColumnCheck(r: RequestDto): Option<SortColumns.ValidationResult> {
    SortColumns.IsValid(Some(SortColumns.SeriesDtoType), AsValue(r.sortColumn))
  }

  /** A nullable string handed to a validator as an object. */
  function AsValue(s: Option<string>): (v: SortColumns.Value)
    ensures s.None? ==> v == SortColumns.Null
    ensures s.Some? ==> v == SortColumns.Text(s.value)
  {
    if s.Some? then SortColumns.Text(s.value) else SortColumns.Null
  }

  /**
   * The annotations that model binding checks before a listing runs (the
   * sort-order check is not part of this model). `PageIndex` carries none.
   */
  predicate SatisfiesAnnotations(r: RequestDto) {
    PageSizeInRange(r) && SortColumnCheck(r).None? && RequiredPresent(r.userId)
  }

  /**
   * `Validate`: the sort column checked against the request's own entity
   * type; no result when it passes, exactly one when it fails.
   */
  function Validate(r: RequestDto, entityType: SortColumns.EntityType): (results: seq<SortColumns.ValidationResult>)
    ensures |results| <= 1
    ensures results == [] <==> r.sortColumn.Some? && SortColumns.Accepts(entityType, r.sortColumn.value)
    ensures results != [] ==> results[0].errorMessage == SortColumns.ErrorMessage
  {
    var result := SortColumns.IsValid(Some(entityType), AsValue(r.sortColumn));
    if result.Some? then [result.value] else []
  }

  /**
   * The defaults: page 0 of size 10, sorted by "TitleWatched" ascending,
   * unfiltered. The page size and the column pass their checks, but the
   * default user is null, so a request must name its user.
   */
  lemma DefaultRequestAnnotations(userId: string)
    requires exists i | 0 <= i < |userId| :: !IsWhiteSpace(userId[i])
    ensures PageSizeInRange(DefaultRequest())
    ensures SortColumnCheck(DefaultRequest()).None?
    ensures Validate(DefaultRequest(), SortColumns.SeriesDtoType) == []
    ensures !SatisfiesAnnotations(DefaultRequest())
    ensures SatisfiesAnnotations(DefaultRequest().(userId := Some(userId)))
  {
    SortColumns.TitleWatchedAccepted();
  }

  /** An empty or white-space-only user id fails the required check just as a null one does. */
  lemma BlankUserIdRejected(r: RequestDto)
    requires r.userId.None? || forall i | 0 <= i < |r.userId.value| :: IsWhiteSpace(r.userId.value[i])
    ensures !SatisfiesAnnotations(r)
  {
  }

  /** A page size outside 1..100 fails its range check; 1 and 100 pass. */
  lemma PageSizeBounds(r: RequestDto)
    ensures PageSizeInRange(r) <==> 1 <= r.pageSize <= 100
    ensures PageSizeInRange(r.(pageSize := 1)) && PageSizeInRange(r.(pageSize := 100))
    ensures !PageSizeInRange(r.(pageSize := 0)) && !PageSizeInRange(r.(pageSize := 101))
  {
  }
}
