/**
 * Hypermedia links for a paged listing: a "self" link, a "next" link when a
 * later page exists and a "previous" link when an earlier one does, each an
 * URL whose query string carries the page index, the page size and the
 * caller's extra parameters.
 */
module Pagination {
  import opened Wrappers
  import opened Strings
  import opened Dtos

  /**
   * Query parameters as a `Dictionary<string, string>` holds them: each key
   * once, enumerated in insertion order (nothing is ever removed).
   */
  type QueryParams = seq<(string, string)>

  function Keys(d: QueryParams): (r: seq<string>)
    ensures |r| == |d|
    ensures forall i :: 0 <= i < |d| ==> r[i] == d[i].0
  {
    if d == [] then [] else [d[0].0] + Keys(d[1..])
  }

  predicate UniqueKeys(d: QueryParams) {
    forall i, j :: 0 <= i < j < |d| ==> d[i].0 != d[j].0
  }

  /** The value stored under `k`, or null. */
  function Lookup(d: QueryParams, k: string): (r: Option<string>)
    ensures r.Some? <==> k in Keys(d)
  {
    if d == [] then None else if d[0].0 == k then Some(d[0].1) else Lookup(d[1..], k)
  }

  /**
   * The indexer assignment `d[k] = v`: a key already present keeps its
   * position and takes the new value, a new key is added last.
   */
  function Put(d: QueryParams, k: string, v: string): (r: QueryParams)
    ensures k in Keys(d) ==> Keys(r) == Keys(d)
    ensures k !in Keys(d) ==> Keys(r) == Keys(d) + [k]
  {
    if d == [] then [(k, v)]
    else if d[0].0 == k then [(k, v)] + d[1..]
    else
      assert Keys(d) == [d[0].0] + Keys(d[1..]);
      [d[0]] + Put(d[1..], k, v)
  }

  /** After `d[k] = v`, `k` holds `v` and every other key what it held. */
  lemma {:induction false} PutLookup(d: QueryParams, k: string, v: string, k': string)
    ensures Lookup(Put(d, k, v), k') == if k' == k then Some(v) else Lookup(d, k')
    decreases |d|
  {
    if d != [] && d[0].0 != k {
      PutLookup(d[1..], k, v, k');
    }
  }

  lemma {:induction false} PutKeepsUniqueKeys(d: QueryParams, k: string, v: string)
    requires UniqueKeys(d)
    ensures UniqueKeys(Put(d, k, v))
    decreases |d|
  {
    if d != [] && d[0].0 != k {
      PutKeepsUniqueKeys(d[1..], k, v);
      var r := Put(d, k, v);
      var rest := Put(d[1..], k, v);
      assert d[0].0 !in Keys(d[1..]) by {
        forall i | 0 <= i < |d[1..]| ensures Keys(d[1..])[i] != d[0].0 {
          assert d[1..][i] == d[i + 1];
        }
      }
      assert d[0].0 !in Keys(rest);
      forall i, j | 0 <= i < j < |r| ensures r[i].0 != r[j].0 {
        if i == 0 {
          assert r[j].0 == Keys(rest)[j - 1];
        } else {
          assert r[i] == rest[i - 1] && r[j] == rest[j - 1];
        }
      }
    }
  }

  /** The dictionary after assigning every pair of `extra`, first to last. */
  function PutAll(d: QueryParams, extra: QueryParams): QueryParams {
    if extra == [] then d
    else
      var last := extra[|extra| - 1];
      Put(PutAll(d, extra[..|extra| - 1]), last.0, last.1)
  }

  /** The two parameters every link starts with. */
  function InitialParams(index: int, pageSize: int): QueryParams {
    [("pageIndex", IntToString(index)), ("pageSize", IntToString(pageSize))]
  }

  /** The query parameters of the link to page `index`. */
  function QueryParamsFor(index: int, pageSize: int, additionalParams: Option<QueryParams>): QueryParams {
    PutAll(InitialParams(index, pageSize), additionalParams.GetOr([]))
  }

  /** `key=value` with both sides URL-encoded. */
  function EncodePair(urlEncode: string -> string, kv: (string, string)): string {
    urlEncode(kv.0) + "=" + urlEncode(kv.1)
  }

  /** The encoded pairs joined with `&`. */
  function QueryString(urlEncode: string -> string, q: QueryParams): string {
    Join("&", seq(|q|, i requires 0 <= i < |q| => EncodePair(urlEncode, q[i])))
  }

  /** The URL of the link to page `index`. */
  function PageUrl(baseUrl: string, index: int, pageSize: int, additionalParams: Option<QueryParams>,
                   urlEncode: string -> string): string
  {
    baseUrl + "?" + QueryString(urlEncode, QueryParamsFor(index, pageSize, additionalParams))
  }

  /** The links for page `pageIndex` of `totalPages`: self, then next, then previous. */
  function PaginationLinks(baseUrl: string, action: string, pageIndex: int, pageSize: int, totalPages: int,
                           additionalParams: Option<QueryParams>, urlEncode: string -> string): seq<LinkDto>
  {
    [LinkDto(PageUrl(baseUrl, pageIndex, pageSize, additionalParams, urlEncode), "self", action)]
    + (if pageIndex + 1 < totalPages
       then [LinkDto(PageUrl(baseUrl, pageIndex + 1, pageSize, additionalParams, urlEncode), "next", action)]
       else [])
    + (if pageIndex > 0
       then [LinkDto(PageUrl(baseUrl, pageIndex - 1, pageSize, additionalParams, urlEncode), "previous", action)]
       else [])
  }

  // ---------------------------------------------------------------------
  // The helper as the source runs it.
  // ---------------------------------------------------------------------

  /** Fills the parameter dictionary pair by pair, then joins it behind `baseUrl?`. */
  method BuildUrl(baseUrl: string, index: int, pageSize: int, additionalParams: Option<QueryParams>,
                  urlEncode: string -> string)
    returns (url: string)
    ensures url == PageUrl(baseUrl, index, pageSize, additionalParams, urlEncode)
  {
    var queryParams := [("pageIndex", IntToString(index)), ("pageSize", IntToString(pageSize))];
    if additionalParams.Some? {
      var extra := additionalParams.value;
      for i := 0 to |extra|
        invariant queryParams == PutAll(InitialParams(index, pageSize), extra[..i])
      {
        assert extra[..i + 1][..i] == extra[..i];
        queryParams := Put(queryParams, extra[i].0, extra[i].1);
      }
      assert extra[..|extra|] == extra;
    }
    var queryString := Join("&", seq(|queryParams|, i requires 0 <= i < |queryParams| => EncodePair(urlEncode, queryParams[i])));
    url := baseUrl + "?" + queryString;
  }

  /**
   * The links for one page. `rel` is accepted and never used: every link
   * carries `action` as its type.
   */
  method GeneratePaginationLinks(baseUrl: string, rel: string, action: string, pageIndex: int, pageSize: int,
                                 totalPages: int, additionalParams: Option<QueryParams>, urlEncode: string -> string)
    returns (links: seq<LinkDto>)
    ensures links == PaginationLinks(baseUrl, action, pageIndex, pageSize, totalPages, additionalParams, urlEncode)
  {
    links := [];
    var selfUrl := BuildUrl(baseUrl, pageIndex, pageSize, additionalParams, urlEncode);
    links := links + [LinkDto(selfUrl, "self", action)];
    if pageIndex + 1 < totalPages {
      var nextUrl := BuildUrl(baseUrl, pageIndex + 1, pageSize, additionalParams, urlEncode);
      links := links + [LinkDto(nextUrl, "next", action)];
    }
    if pageIndex > 0 {
      var previousUrl := BuildUrl(baseUrl, pageIndex - 1, pageSize, additionalParams, urlEncode);
      links := links + [LinkDto(previousUrl, "previous", action)];
    }
  }

  // ---------------------------------------------------------------------
  // What the links promise.
  // ---------------------------------------------------------------------

  predicate HasRel(links: seq<LinkDto>, rel: string) {
    exists i :: 0 <= i < |links| && links[i].rel == rel
  }

  function Rels(links: seq<LinkDto>): (r: seq<string>)
    ensures |r| == |links|
    ensures forall i :: 0 <= i < |links| ==> r[i] == links[i].rel
  {
    seq(|links|, i requires 0 <= i < |links| => links[i].rel)
  }

  /**
   * One to three links; exactly one "self" link, first, for the current
   * page; "next" (for `pageIndex + 1`) iff `pageIndex + 1 < totalPages`;
   * "previous" (for `pageIndex - 1`) iff `pageIndex > 0`; every link's type
   * is `action`.
   */
  lemma PaginationLinksShape(baseUrl: string, action: string, pageIndex: int, pageSize: int, totalPages: int,
                             additionalParams: Option<QueryParams>, urlEncode: string -> string)
    ensures var links := PaginationLinks(baseUrl, action, pageIndex, pageSize, totalPages, additionalParams, urlEncode);
            && 1 <= |links| <= 3
            && links[0] == LinkDto(PageUrl(baseUrl, pageIndex, pageSize, additionalParams, urlEncode), "self", action)
            && (forall i :: 0 <= i < |links| ==> (links[i].rel == "self" <==> i == 0))
            && (forall i :: 0 <= i < |links| ==> links[i].linkType == action)
            && (HasRel(links, "next") <==> pageIndex + 1 < totalPages)
            && (HasRel(links, "previous") <==> pageIndex > 0)
            && (pageIndex + 1 < totalPages ==>
                  links[1] == LinkDto(PageUrl(baseUrl, pageIndex + 1, pageSize, additionalParams, urlEncode), "next", action))
            && (pageIndex > 0 ==>
                  links[|links| - 1] == LinkDto(PageUrl(baseUrl, pageIndex - 1, pageSize, additionalParams, urlEncode), "previous", action))
            && (|links| == 1 <==> pageIndex <= 0 && pageIndex + 1 >= totalPages)
  {
    var links := PaginationLinks(baseUrl, action, pageIndex, pageSize, totalPages, additionalParams, urlEncode);
    if pageIndex + 1 < totalPages {
      assert links[1].rel == "next";
    }
    if pageIndex > 0 {
      assert links[|links| - 1].rel == "previous";
    }
  }

  /** First page of one, first page of three, last page of three: the relations of their links. */
  lemma LinkScenarios(baseUrl: string, action: string, pageSize: int, additionalParams: Option<QueryParams>,
                      urlEncode: string -> string)
    ensures Rels(PaginationLinks(baseUrl, action, 0, pageSize, 1, additionalParams, urlEncode)) == ["self"]
    ensures Rels(PaginationLinks(baseUrl, action, 0, pageSize, 3, additionalParams, urlEncode)) == ["self", "next"]
    ensures Rels(PaginationLinks(baseUrl, action, 2, pageSize, 3, additionalParams, urlEncode)) == ["self", "previous"]
  {
  }

  // ---------------------------------------------------------------------
  // What the query strings promise.
  // ---------------------------------------------------------------------

  lemma {:induction false} PutAllKeepsUniqueKeys(d: QueryParams, extra: QueryParams)
    requires UniqueKeys(d)
    ensures UniqueKeys(PutAll(d, extra))
    ensures |PutAll(d, extra)| >= |d| && Keys(PutAll(d, extra))[..|d|] == Keys(d)
    decreases |extra|
  {
    if extra != [] {
      var front := extra[..|extra| - 1];
      var last := extra[|extra| - 1];
      PutAllKeepsUniqueKeys(d, front);
      PutKeepsUniqueKeys(PutAll(d, front), last.0, last.1);
    }
  }

  /**
   * With distinct extra keys other than `pageIndex` and `pageSize`, the
   * parameters are `pageIndex`, `pageSize`, then the extras in the caller's
   * order.
   */
  lemma {:induction false} PutAllAppendsNewKeys(d: QueryParams, extra: QueryParams)
    requires UniqueKeys(extra)
    requires forall i :: 0 <= i < |extra| ==> extra[i].0 !in Keys(d)
    ensures PutAll(d, extra) == d + extra
    decreases |extra|
  {
    if extra != [] {
      var front := extra[..|extra| - 1];
      var last := extra[|extra| - 1];
      assert d + front + [last] == d + extra by {
        assert extra == front + [last];
      }
      assert UniqueKeys(front);
      PutAllAppendsNewKeys(d, front);
      assert last.0 !in Keys(d + front) by {
        forall i | 0 <= i < |d + front| ensures Keys(d + front)[i] != last.0 {
          if i < |d| {
            assert (d + front)[i] == d[i];
            assert Keys(d)[i] == d[i].0;
          } else {
            assert (d + front)[i] == extra[i - |d|];
          }
        }
      }
      AppendNewKey(d + front, last.0, last.1);
    }
  }

  lemma {:induction false} AppendNewKey(d: QueryParams, k: string, v: string)
    requires k !in Keys(d)
    ensures Put(d, k, v) == d + [(k, v)]
    decreases |d|
  {
    if d != [] {
      assert Keys(d) == [d[0].0] + Keys(d[1..]);
      AppendNewKey(d[1..], k, v);
      assert d == [d[0]] + d[1..];
    }
  }

  lemma ExtrasInCallerOrder(index: int, pageSize: int, extra: QueryParams)
    requires UniqueKeys(extra)
    requires forall i :: 0 <= i < |extra| ==> extra[i].0 != "pageIndex" && extra[i].0 != "pageSize"
    ensures QueryParamsFor(index, pageSize, Some(extra)) == InitialParams(index, pageSize) + extra
  {
    assert Keys(InitialParams(index, pageSize)) == ["pageIndex", "pageSize"];
    PutAllAppendsNewKeys(InitialParams(index, pageSize), extra);
  }

  /**
   * An extra parameter overwrites a key already present instead of adding it
   * twice: the keys stay distinct, `pageIndex` and `pageSize` stay first,
   * and the value of every key is the last one assigned.
   */
  lemma {:induction false} ExtrasOverwriteInPlace(index: int, pageSize: int, extra: QueryParams, k: string)
    requires UniqueKeys(extra)
    ensures var q := QueryParamsFor(index, pageSize, Some(extra));
            && UniqueKeys(q)
            && |q| >= 2 && Keys(q)[..2] == ["pageIndex", "pageSize"]
            && Lookup(q, k) == if k in Keys(extra) then Lookup(extra, k) else Lookup(InitialParams(index, pageSize), k)
  {
    var init := InitialParams(index, pageSize);
    assert Keys(init) == ["pageIndex", "pageSize"];
    PutAllKeepsUniqueKeys(init, extra);
    PutAllLookup(init, extra, k);
  }

  lemma {:induction false} PutAllLookup(d: QueryParams, extra: QueryParams, k: string)
    requires UniqueKeys(extra)
    ensures Lookup(PutAll(d, extra), k) == if k in Keys(extra) then Lookup(extra, k) else Lookup(d, k)
    decreases |extra|
  {
    if extra != [] {
      var front := extra[..|extra| - 1];
      var last := extra[|extra| - 1];
      assert extra == front + [last];
      assert Keys(extra) == Keys(front) + [last.0];
      assert UniqueKeys(front);
      PutAllLookup(d, front, k);
      PutLookup(PutAll(d, front), last.0, last.1, k);
      assert last.0 !in Keys(front) by {
        forall i | 0 <= i < |front| ensures Keys(front)[i] != last.0 {
          assert front[i] == extra[i];
        }
      }
      LookupAfterLast(front, last, k);
    }
  }

  /** Looking up in `front + [last]` when `last`'s key is new. */
  lemma {:induction false} LookupAfterLast(front: QueryParams, last: (string, string), k: string)
    requires last.0 !in Keys(front)
    ensures Lookup(front + [last], k) == if k in Keys(front) then Lookup(front, k) else if k == last.0 then Some(last.1) else None
    decreases |front|
  {
    if front != [] {
      assert (front + [last])[1..] == front[1..] + [last];
      assert Keys(front) == [front[0].0] + Keys(front[1..]);
      LookupAfterLast(front[1..], last, k);
    }
  }

  /** Two pages' parameters agree position by position except in the value of `pageIndex`, which comes first. */
  predicate DifferOnlyInPageIndex(a: QueryParams, b: QueryParams) {
    && |a| == |b| >= 1
    && a[0].0 == "pageIndex" && b[0].0 == "pageIndex"
    && forall i :: 1 <= i < |a| ==> a[i] == b[i]
  }

  lemma {:induction false} PutPreservesDifferOnlyInPageIndex(a: QueryParams, b: QueryParams, k: string, v: string)
    requires DifferOnlyInPageIndex(a, b)
    ensures DifferOnlyInPageIndex(Put(a, k, v), Put(b, k, v))
  {
    assert a[1..] == b[1..];
  }

  lemma {:induction false} PutAllPreservesDifferOnlyInPageIndex(a: QueryParams, b: QueryParams, extra: QueryParams)
    requires DifferOnlyInPageIndex(a, b)
    ensures DifferOnlyInPageIndex(PutAll(a, extra), PutAll(b, extra))
    decreases |extra|
  {
    if extra != [] {
      var last := extra[|extra| - 1];
      PutAllPreservesDifferOnlyInPageIndex(a, b, extra[..|extra| - 1]);
      PutPreservesDifferOnlyInPageIndex(PutAll(a, extra[..|extra| - 1]), PutAll(b, extra[..|extra| - 1]), last.0, last.1);
    }
  }

  /** All links of one listing share the page size and the extra parameters; only `pageIndex` differs. */
  lemma LinksDifferOnlyInPageIndex(i: int, j: int, pageSize: int, additionalParams: Option<QueryParams>)
    ensures DifferOnlyInPageIndex(QueryParamsFor(i, pageSize, additionalParams), QueryParamsFor(j, pageSize, additionalParams))
  {
    PutAllPreservesDifferOnlyInPageIndex(InitialParams(i, pageSize), InitialParams(j, pageSize), additionalParams.GetOr([]));
  }

  /** Unless an extra parameter overrides it, the link to page `index` carries `index`, readable back from the URL. */
  lemma PageIndexReadBack(index: int, pageSize: int, additionalParams: Option<QueryParams>)
    requires additionalParams.Some? ==> UniqueKeys(additionalParams.value) && "pageIndex" !in Keys(additionalParams.value)
    ensures Lookup(QueryParamsFor(index, pageSize, additionalParams), "pageIndex") == Some(IntToString(index))
    ensures ParseInt(IntToString(index)) == index
  {
    var extra := additionalParams.GetOr([]);
    ExtrasOverwriteInPlace(index, pageSize, extra, "pageIndex");
    assert Lookup(InitialParams(index, pageSize), "pageIndex") == Some(IntToString(index));
    IntToStringRoundTrip(index);
  }

  // ---------------------------------------------------------------------
  // The next-link test as written, in 32-bit arithmetic.
  // ---------------------------------------------------------------------

  /** `pageIndex + 1 < totalPages` evaluated on C# `int`s: the sum wraps at `int.MaxValue`. */
  predicate NextLinkShownAsWritten(pageIndex: int, totalPages: int) {
    Wrap32(pageIndex + 1) < totalPages
  }

  /** At `int.MaxValue` the sum wraps to `int.MinValue`, so a "next" link appears on the last page. */
  lemma NextLinkOverflow()
    ensures NextLinkShownAsWritten(IntMax, 1)
    ensures Wrap32(IntMax + 1) == IntMin
    ensures !(IntMax + 1 < 1)
  {
  }

  /**
   * Below `int.MaxValue` the written test and the exact one agree, and a
   * "next" link of the exact test always points at a 32-bit page index.
   */
  lemma NextLinkExact(pageIndex: int, totalPages: int)
    requires IsInt32(pageIndex) && IsInt32(totalPages)
    ensures pageIndex < IntMax ==> (NextLinkShownAsWritten(pageIndex, totalPages) <==> pageIndex + 1 < totalPages)
    ensures pageIndex + 1 < totalPages ==> IsInt32(pageIndex + 1)
  {
  }
}
