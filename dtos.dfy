/**
 * The records exchanged by the services: the stored series entity, the
 * series input record, hypermedia links, the response envelope and the
 * user projection.
 */
module Dtos {
  import opened Wrappers

  /**
   * A stored series (the `Series` table). The concurrency token and the
   * navigation to the owning user are not part of the value.
   */
  datatype SeriesModel = SeriesModel(
    seriesId: int,
    userId: string,
    titleWatched: string,
    seasonWatched: int,
    provider: string,
    genre: string)

  /**
   * The series input record. Its string members are declared non-nullable
   * but model binding can leave them null, and the update treats null as
   * "not supplied", so they are nullable here.
   */
  datatype SeriesDto = SeriesDto(
    id: int,
    userId: Option<string>,
    titleWatched: Option<string>,
    seasonWatched: int,
    providerWatched: Option<string>,
    genre: Option<string>)

  /** A hypermedia link: target, relation, and the HTTP action it stands for. */
  datatype LinkDto = LinkDto(href: string, rel: string, linkType: string)

  /** The response envelope; absent paging fields are null. */
  datatype RestDto<T> = RestDto(
    data: T,
    pageIndex: Option<int>,
    pageSize: Option<int>,
    recordCount: Option<int>,
    totalPages: Option<int>,
    message: Option<string>,
    links: seq<LinkDto>)

  /** A user account as far as the listings read it. */
  datatype ApiUser = ApiUser(id: string, userName: Option<string>)

  /** The `(Id, UserName)` projection that the user listing returns. */
  datatype UserSummary = UserSummary(id: string, userName: Option<string>)
}
