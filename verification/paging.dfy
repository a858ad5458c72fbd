/** Listing a user's links (api/browselinks.go): reading integer query
    parameters, filtering the links with `Link.Matches`, and cutting one
    page out of the result. The search branch's Elasticsearch query is not
    modelled; its outcome is an input. */
module Paging {
  import opened Wrappers
  import opened Http
  import opened Text
  import opened Records
  import LinkApi

  /** `getQueryInt`: the default for an absent or empty parameter, the
      parsed value for an integer, and the default with `ok` false (the
      handler has written a 400) for anything else. */
  function GetQueryInt(q: Query, name: string, def: int): (r: (int, bool))
    ensures |QueryGet(q, name)| == 0 ==> r == (def, true)
    ensures |QueryGet(q, name)| > 0 && Atoi(QueryGet(q, name)).Some? ==> r == (Atoi(QueryGet(q, name)).value, true)
    ensures Atoi(QueryGet(q, name)).None? && |QueryGet(q, name)| > 0 ==> r == (def, false)
  {
    var s := QueryGet(q, name);
    if |s| == 0 then (def, true)
    else match Atoi(s)
      case Some(v) => (v, true)
      case None => (def, false)
  }

  /** A parameter written as a 64-bit integer reads back as that integer. */
  lemma GetQueryIntRoundTrip(q: Query, name: string, def: int, i: int)
    requires MinInt64 <= i <= MaxInt64
    ensures GetQueryInt(q[name := [IntToDecimal(i)]], name, def) == (i, true)
  {
    AtoiRoundTrip(i);
  }

  /** 64-bit two's-complement wrap-around of Go's `int`. */
  function Wrap64(x: int): (r: int)
    ensures MinInt64 <= r <= MaxInt64
    ensures MinInt64 <= x <= MaxInt64 ==> r == x
  {
    (x - MinInt64) % 0x1_0000_0000_0000_0000 + MinInt64
  }

  /** What `paginate` hands back: nil (no paging asked for), a slice, or a
      panic from slicing out of range. */
  datatype Paged<T> = Unpaged | Slice(items: seq<T>) | SlicePanic

  /** Page `page` of size `size` (both positive), with unbounded arithmetic:
      the links from index (page-1)*size up to page*size, cut at the end of
      the list, and empty when the start lies past the end. */
  function PageOf<T>(links: seq<T>, page: int, size: int): (r: seq<T>)
    requires page > 0 && size > 0
    ensures |r| <= size
    ensures (page - 1) * size >= |links| ==> r == []
    ensures (page - 1) * size < |links| ==>
              r == links[(page - 1) * size .. if page * size < |links| then page * size else |links|]
  {
    var from := (page - 1) * size;
    var to := page * size;
    assert 0 <= from && to == from + size by {
      assert (page - 1) * size == page * size - size;
      assert (page - 1) * size >= 0 * size;
    }
    if from < |links| then (if to < |links| then links[from..to] else links[from..]) else []
  }

  /** The cut `paginate` makes as written, with Go's 64-bit products:
      a product that wraps can give a negative start index or an end
      below the start, and slicing with those panics. */
  function CutAsWritten<T>(links: seq<T>, page: int, size: int): (r: Paged<T>)
    requires page > 0 && size > 0
  {
    var from := Wrap64((page - 1) * size);
    var to := Wrap64(page * size);
    if from < |links| then
      if to < |links| then (if 0 <= from <= to then Slice(links[from..to]) else SlicePanic)
      else (if 0 <= from then Slice(links[from..]) else SlicePanic)
    else Slice([])
  }

  /** While page*size fits in 64 bits the code as written cuts exactly
      `PageOf`. */
  lemma CutAsWrittenAgrees<T>(links: seq<T>, page: int, size: int)
    requires page > 0 && size > 0 && page * size <= MaxInt64
    ensures CutAsWritten(links, page, size) == Slice(PageOf(links, page, size))
  {
    assert 0 <= (page - 1) * size <= page * size;
  }

  /** A page and a page size whose product wraps to 2^64, i.e. to 0: the
      start wraps to -2^62, below the list's length, the end to 0, and
      slicing from a negative index panics instead of answering with an
      empty page. */
  lemma CutAsWrittenPanics<T>(links: seq<T>)
    requires 0 < |links| <= MaxInt64
    ensures CutAsWritten(links, 4, 0x4000_0000_0000_0000) == SlicePanic
    ensures PageOf(links, 4, 0x4000_0000_0000_0000) == []
  {
    assert Wrap64(3 * 0x4000_0000_0000_0000) == -0x4000_0000_0000_0000;
    assert Wrap64(4 * 0x4000_0000_0000_0000) == 0;
  }

  /** `paginate`: `page` (default 0) and `pagesize` (default 10) from the
      query; a bad parameter stops it with `ok` false; a non-positive page
      or size leaves the list unpaged (nil); otherwise the list is cut with
      Go's 64-bit products, which is the exact page while page*pagesize
      fits in 64 bits and can be a slicing panic beyond. */
  function Paginate<T>(q: Query, links: seq<T>): (r: (Paged<T>, bool))
    ensures var (page, pok) := GetQueryInt(q, "page", 0);
            var (size, sok) := GetQueryInt(q, "pagesize", 10);
            && (r.1 <==> pok && sok)
            && (!r.1 ==> r.0 == Unpaged)
            && (r.1 && (page <= 0 || size <= 0) ==> r.0 == Unpaged)
            && (r.1 && page > 0 && size > 0 ==> r.0 == CutAsWritten(links, page, size))
            && (r.1 && page > 0 && size > 0 && page * size <= MaxInt64 ==> r.0 == Slice(PageOf(links, page, size)))
  {
    var (page, pok) := GetQueryInt(q, "page", 0);
    if !pok then (Unpaged, false)
    else
      var (size, sok) := GetQueryInt(q, "pagesize", 10);
      if !sok then (Unpaged, false)
      else if page > 0 && size > 0 then
        if page * size <= MaxInt64 then
          CutAsWrittenAgrees(links, page, size);
          (CutAsWritten(links, page, size), true)
        else (CutAsWritten(links, page, size), true)
      else (Unpaged, true)
  }

  /** Without `page` and `pagesize` parameters nothing is cut. */
  lemma PaginateDefaults<T>(links: seq<T>)
    ensures Paginate(map[], links) == (Unpaged, true)
  {
  }

  /** Pages 1..k of size `size` laid end to end. */
  function Pages<T>(links: seq<T>, k: nat, size: int): seq<T>
    requires size > 0
  {
    if k == 0 then [] else Pages(links, k - 1, size) + PageOf(links, k, size)
  }

  /** The first k pages are exactly the first k*size links. */
  lemma {:induction false} PagesArePrefix<T>(links: seq<T>, k: nat, size: int)
    requires size > 0
    ensures Pages(links, k, size) == links[..if k * size < |links| then k * size else |links|]
  {
    if k > 0 {
      PagesArePrefix(links, k - 1, size);
      var a := if (k - 1) * size < |links| then (k - 1) * size else |links|;
      var b := if k * size < |links| then k * size else |links|;
      assert (k - 1) * size <= k * size;
      if (k - 1) * size < |links| {
        assert links[..a] + links[a..b] == links[..b];
      }
    }
  }

  /** Pages 1..ceil(n/size) partition the list: laid end to end, in order,
      they are the whole list, and each page is the run of links starting
      where the previous one stopped. */
  lemma PagesPartition<T>(links: seq<T>, size: int)
    requires size > 0
    ensures var pageCount := (|links| + size - 1) / size;
            Pages(links, pageCount, size) == links
  {
    var pageCount := (|links| + size - 1) / size;
    PagesArePrefix(links, pageCount, size);
    assert pageCount * size >= |links|;
  }

  /** The filter of `filterLinks`: the matching links, converted, in order. */
  function Matching(links: seq<DbLink>, keep: DbLink -> bool): (r: seq<ApiLink>)
    ensures |r| <= |links|
  {
    if |links| == 0 then []
    else
      var rest := Matching(links[..|links| - 1], keep);
      if keep(links[|links| - 1]) then rest + [LinkApi.DbToApiLink(links[|links| - 1])] else rest
  }

  /** Every kept link comes from a matching input link. */
  lemma {:induction false} MatchingSound(links: seq<DbLink>, keep: DbLink -> bool)
    ensures forall a :: a in Matching(links, keep) ==>
              exists l :: l in links && keep(l) && a == LinkApi.DbToApiLink(l)
  {
    if |links| > 0 {
      var init := links[..|links| - 1];
      MatchingSound(init, keep);
      forall a | a in Matching(links, keep)
        ensures exists l :: l in links && keep(l) && a == LinkApi.DbToApiLink(l)
      {
        if a in Matching(init, keep) {
          var l :| l in init && keep(l) && a == LinkApi.DbToApiLink(l);
          assert l in links;
        } else {
          assert links[|links| - 1] in links;
        }
      }
    }
  }

  /** All input links match exactly when all are kept. */
  lemma {:induction false} MatchingAll(links: seq<DbLink>, keep: DbLink -> bool)
    requires forall k :: 0 <= k < |links| ==> keep(links[k])
    ensures |Matching(links, keep)| == |links|
  {
    if |links| > 0 {
      MatchingAll(links[..|links| - 1], keep);
    }
  }

  /** `filterLinks`: the links for which `Link.Matches` holds with the
      query's `domain` and `tag` values and the `exclusivetags` flag,
      converted and in order; an empty list, never nil, when none match. */
  method FilterLinks(q: Query, links: seq<DbLink>,
                     matches: (DbLink, seq<string>, seq<string>, bool) -> bool)
    returns (filtered: seq<ApiLink>)
    ensures filtered == Matching(links, FilterOf(q, matches))
  {
    var keep := FilterOf(q, matches);
    filtered := [];
    var i := 0;
    while i < |links|
      invariant 0 <= i <= |links|
      invariant filtered == Matching(links[..i], keep)
    {
      assert links[..i + 1][..i] == links[..i];
      if keep(links[i]) {
        filtered := filtered + [LinkApi.DbToApiLink(links[i])];
      }
      i := i + 1;
    }
    assert links[..i] == links;
  }

  /** `Link.Matches` applied to the request's filter parameters. */
  function FilterOf(q: Query, matches: (DbLink, seq<string>, seq<string>, bool) -> bool): DbLink -> bool {
    var domains := QueryAll(q, "domain").GetOr([]);
    var tags := QueryAll(q, "tag").GetOr([]);
    var exclusive := |QueryGet(q, "exclusivetags")| > 0;
    l => matches(l, domains, tags, exclusive)
  }

  /** The body of a `BrowseLinks` answer. */
  datatype ListResponse = ListResponse(links: Paged<ApiLink>, totalCount: int)

  /** The links `BrowseLinks` pages over: without a `search` parameter
      the user's links (`dbLinks`, `None` when listing failed), filtered;
      with one, the search result (`searched`, `None` when it failed). */
  function Listed(q: Query, dbLinks: Option<seq<DbLink>>, searched: Option<seq<ApiLink>>,
                  matches: (DbLink, seq<string>, seq<string>, bool) -> bool): (r: Option<seq<ApiLink>>)
    ensures |QueryGet(q, "search")| == 0 ==>
              r == if dbLinks.None? then None else Some(Matching(dbLinks.value, FilterOf(q, matches)))
    ensures |QueryGet(q, "search")| > 0 ==> r == searched
  {
    if |QueryGet(q, "search")| == 0 then
      (if dbLinks.None? then None else Some(Matching(dbLinks.value, FilterOf(q, matches))))
    else searched
  }

  /** `BrowseLinks`: 500 when listing or searching fails, 400 for a bad
      paging parameter, else 200 with the total count taken before the
      page is cut. `None` is a handler that panicked while cutting the
      page, so no reply is written. */
  function BrowseLinks(q: Query, dbLinks: Option<seq<DbLink>>, searched: Option<seq<ApiLink>>,
                       matches: (DbLink, seq<string>, seq<string>, bool) -> bool)
    : (r: Option<Reply<ListResponse>>)
    ensures |QueryGet(q, "search")| == 0 && dbLinks.None? ==> r == Some(Status(StatusInternalServerError))
    ensures |QueryGet(q, "search")| > 0 && searched.None? ==> r == Some(Status(StatusInternalServerError))
    ensures r == Some(Status(StatusInternalServerError)) <==> Listed(q, dbLinks, searched, matches).None?
    ensures r == Some(Status(StatusBadRequest)) <==>
              Listed(q, dbLinks, searched, matches).Some? && !Paginate(q, Listed(q, dbLinks, searched, matches).value).1
    ensures r.None? <==>
              Listed(q, dbLinks, searched, matches).Some?
              && Paginate(q, Listed(q, dbLinks, searched, matches).value) == (SlicePanic, true)
    ensures Listed(q, dbLinks, searched, matches).Some? ==>
              var all := Listed(q, dbLinks, searched, matches).value;
              var (page, ok) := Paginate(q, all);
              ok && page != SlicePanic ==> r == Some(Json(StatusOK, ListResponse(page, |all|)))
    ensures r.Some? && r.value.Json? ==>
              r.value.status == StatusOK && r.value.body.links != SlicePanic
  {
    match Listed(q, dbLinks, searched, matches)
    case None => Some(Status(StatusInternalServerError))
    case Some(all) =>
      var (page, ok) := Paginate(q, all);
      if !ok then Some(Status(StatusBadRequest))
      else if page == SlicePanic then None
      else Some(Json(StatusOK, ListResponse(page, |all|)))
  }

  /** While page*pagesize fits in 64 bits, a listing that succeeds
      answers 200 with exactly page `page` of the links (`PageOf`, whose
      pages partition the list by `PagesPartition`) and their total
      count. */
  lemma BrowseLinksServesPage(q: Query, dbLinks: Option<seq<DbLink>>, searched: Option<seq<ApiLink>>,
                              matches: (DbLink, seq<string>, seq<string>, bool) -> bool, page: int, size: int)
    requires Listed(q, dbLinks, searched, matches).Some?
    requires GetQueryInt(q, "page", 0) == (page, true) && GetQueryInt(q, "pagesize", 10) == (size, true)
    requires page > 0 && size > 0 && page * size <= MaxInt64
    ensures var all := Listed(q, dbLinks, searched, matches).value;
            BrowseLinks(q, dbLinks, searched, matches) == Some(Json(StatusOK, ListResponse(Slice(PageOf(all, page, size)), |all|)))
  {
  }

  /** A search with page 4 of size 2^62 over a non-empty result: the
      wrapped start index is negative, so the handler panics instead of
      answering. */
  lemma BrowseLinksWrappedPagePanics(q: Query, searched: seq<ApiLink>,
                                     matches: (DbLink, seq<string>, seq<string>, bool) -> bool)
    requires |QueryGet(q, "search")| > 0 && 0 < |searched| <= MaxInt64
    requires GetQueryInt(q, "page", 0) == (4, true)
    requires GetQueryInt(q, "pagesize", 10) == (0x4000_0000_0000_0000, true)
    ensures BrowseLinks(q, None, Some(searched), matches) == None
  {
    CutAsWrittenPanics(searched);
  }
}
