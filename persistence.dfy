/**
 * The two collaborators the services share: the relational store (the
 * series table, the user accounts and the identity counter) and the
 * distributed look-aside cache.
 */
module Persistence {
  import opened Dtos
  import opened Linq

  /** The store as the services see it. */
  class Database {
    /** The series table, in the order the store returns it. */
    var series: seq<SeriesModel>
    /** The user accounts. */
    var users: seq<ApiUser>
    /** The identity value the store will give the next series it inserts. */
    var nextSeriesId: int

    /** Series ids are a primary key: distinct, and below the next identity value. */
    ghost predicate Valid()
      reads this
    {
      && (forall i :: 0 <= i < |series| ==> series[i].seriesId < nextSeriesId)
      && (forall i, j :: 0 <= i < j < |series| ==> series[i].seriesId != series[j].seriesId)
    }

    constructor (users: seq<ApiUser>)
      ensures Valid()
      ensures series == [] && this.users == users && nextSeriesId == 1
    {
      series := [];
      this.users := users;
      nextSeriesId := 1;
    }
  }

  /** A cache-key function that tells requests apart: no two requests share a key. */
  ghost predicate KeyIdentifiesRequest<R(!new)>(cacheKeyOf: R -> string) {
    forall a, b :: cacheKeyOf(a) == cacheKeyOf(b) ==> a == b
  }

  /**
   * The look-aside cache, one map per kind of value stored in it. Expiry is
   * not modelled: an entry, once written, is served until overwritten.
   */
  class DistributedCache {
    /** Pages of a user's series listing. */
    var seriesPages: map<string, seq<SeriesModel>>
    /** Pages of the user listing. */
    var userPages: map<string, seq<UserSummary>>
    /** Distinct-title lists of the admin series listing. */
    var titleLists: map<string, seq<string>>

    /** Every cached title list is free of duplicates. */
    ghost predicate Valid()
      reads this
    {
      forall k :: k in titleLists ==> NoDuplicates(titleLists[k])
    }

    constructor ()
      ensures Valid()
      ensures seriesPages == map[] && userPages == map[] && titleLists == map[]
    {
      seriesPages := map[];
      userPages := map[];
      titleLists := map[];
    }
  }
}
