/** The link handlers of api/link.go: conversion between the database link
    and its JSON form, and the field-merge rules of saving and editing.
    The link table is a map from id to link; the scraper's fetch, URL
    parsing, HTML unescaping and the clock are parameters; the outcome of
    each database write is an input flag. Indexing into Elasticsearch
    happens after the reply and is not modelled. */
module LinkApi {
  import opened Wrappers
  import opened Http
  import opened Records
  import opened LinkRows
  import WebReader

  /** What the handlers get from outside: URL parsing, the page a URL
      serves, HTML unescaping and the current Unix time. */
  datatype Env = Env(
    parseUrl: string -> Option<Url>,
    fetch: string -> WebReader.Page,
    unescape: string -> string,
    now: int)

  /** Whether the database accepted the link write and the tag write. */
  datatype Writes = Writes(linkOk: bool, tagsOk: bool)

  type LinkStore = map<int, DbLink>

  /** `dbToAPILink`. */
  function DbToApiLink(l: DbLink): (a: ApiLink)
    ensures l.url.None? ==> a.urlText == "" && a.domain == ""
    ensures l.url.Some? ==> a.urlText == l.url.value.text && a.domain == l.url.value.host
    ensures a.tags.Some?
    ensures l.tags.Some? ==> a.tags == l.tags
    ensures l.tags.None? ==> a.tags == Some([])
    ensures a.id == l.id && a.title == l.title && a.description == l.description
    ensures a.timestamp == l.timestamp
    ensures a.owner == 0 && a.html == ""
  {
    var urlText := if l.url.Some? then l.url.value.text else "";
    var domain := if l.url.Some? then l.url.value.host else "";
    ApiLink(l.id, l.title, l.description, l.timestamp, urlText, domain,
            Some(l.tags.GetOr([])), 0, "")
  }

  /** `apiToDBLink`: a URL that does not parse becomes nil. */
  function ApiToDbLink(parseUrl: string -> Option<Url>, user: int, a: ApiLink): (l: DbLink)
    ensures l.id == a.id && l.title == a.title && l.description == a.description
    ensures l.timestamp == a.timestamp && l.tags == a.tags
    ensures l.url == parseUrl(a.urlText)
    ensures l.owner == user
  {
    DbLink(a.id, a.title, a.description, a.timestamp, parseUrl(a.urlText), a.tags, user)
  }

  /** `apiLink.Copy`: every field but the owner and the HTML body. */
  function Copy(a: ApiLink): (c: ApiLink)
    ensures c.(owner := a.owner, html := a.html) == a
    ensures c.owner == 0 && c.html == ""
  {
    ApiLink(a.id, a.title, a.description, a.timestamp, a.urlText, a.domain, a.tags, 0, "")
  }

  /** Converting to JSON and back gives the link again, as long as its URL
      prints to a string that parses back to it and it has tags. */
  lemma DbApiRoundTrip(parseUrl: string -> Option<Url>, l: DbLink)
    requires l.url.Some? && parseUrl(l.url.value.text) == l.url
    requires l.tags.Some?
    ensures ApiToDbLink(parseUrl, l.owner, DbToApiLink(l)) == l
  {
  }

  /** A converted link is already what `Copy` makes, so copying it changes
      nothing, and copying twice is copying once. */
  lemma CopyFixesConverted(l: DbLink, a: ApiLink)
    ensures Copy(DbToApiLink(l)) == DbToApiLink(l)
    ensures Copy(Copy(a)) == Copy(a)
  {
  }

  /** The link `SaveLink` starts from: the JSON body of a POST, otherwise
      the `url`, `title`, `description` and every `tag` of the query. */
  function SaveInput(m: Method, body: Result<ApiLink>, q: Query): (r: Result<ApiLink>)
    ensures m == POST ==> r == body
    ensures m != POST ==>
              r.Ok? && r.value.urlText == QueryGet(q, "url") && r.value.title == QueryGet(q, "title")
              && r.value.description == QueryGet(q, "description") && r.value.tags == QueryAll(q, "tag")
  {
    if m == POST then body
    else Ok(EmptyApiLink.(urlText := QueryGet(q, "url"), title := QueryGet(q, "title"),
                          description := QueryGet(q, "description"), tags := QueryAll(q, "tag")))
  }

  /** A supplied value replaces the scraped one only when it is non-empty. */
  function Prefer(input: string, scraped: string): (r: string)
    ensures |input| > 0 ==> r == input
    ensures |input| == 0 ==> r == scraped
  {
    if |input| > 0 then input else scraped
  }

  /** `scrapeLink` on a link: its title and description from the page its
      URL serves. */
  function Scrape(env: Env, u: Url): (string, string) {
    WebReader.ScrapeLink(u.text, env.fetch(u.text), env.unescape)
  }

  /** `SaveLink`. A body that does not decode or a URL that does not parse
      answers 400 with the store untouched. Otherwise the link gets the
      scraped title and description, overridden by non-empty input, and is
      inserted under `newId`; its tags are then attached. Either write
      failing answers 500. */
  function SaveLink(env: Env, m: Method, body: Result<ApiLink>, q: Query, user: int,
                    newId: int, w: Writes, store: LinkStore): (r: (Reply<ApiLink>, LinkStore))
    requires newId !in store
    ensures r.0.Code() == StatusBadRequest <==>
              SaveInput(m, body, q).Err? || env.parseUrl(SaveInput(m, body, q).value.urlText).None?
    ensures r.0.Code() == StatusBadRequest ==> r.1 == store
    ensures r.1 != store ==> r.1.Keys == store.Keys + {newId}
                             && forall id :: id in store && id != newId ==> r.1[id] == store[id]
    ensures r.0.Code() == StatusCreated <==> r.0.Code() != StatusBadRequest && w.linkOk && w.tagsOk
    ensures r.0.Code() == StatusCreated ==>
              var input := SaveInput(m, body, q).value;
              var u := env.parseUrl(input.urlText).value;
              var scraped := Scrape(env, u);
              r.0.Json? && newId in r.1 && r.0.body == DbToApiLink(r.1[newId])
              && r.1[newId] == DbLink(newId, Prefer(input.title, scraped.0), Prefer(input.description, scraped.1),
                                      env.now, Some(u), input.tags, user)
  {
    var input := SaveInput(m, body, q);
    if input.Err? then (Status(StatusBadRequest), store)
    else
      match env.parseUrl(input.value.urlText)
      case None => (Status(StatusBadRequest), store)
      case Some(u) =>
        var scraped := Scrape(env, u);
        var link := BlankLink(user).(url := Some(u),
                                     title := Prefer(input.value.title, scraped.0),
                                     description := Prefer(input.value.description, scraped.1),
                                     timestamp := env.now);
        if !w.linkOk then (Status(StatusInternalServerError), store)
        else
          var inserted := link.(id := newId);
          if !w.tagsOk then (Status(StatusInternalServerError), store[newId := inserted])
          else
            var saved := inserted.(tags := input.value.tags);
            (Json(StatusCreated, DbToApiLink(saved)), store[newId := saved])
  }

  /** A saved link never has an empty title when its URL prints non-empty:
      the supplied title, else the page's, else the URL itself. */
  lemma SavedTitleNonEmpty(env: Env, m: Method, body: Result<ApiLink>, q: Query, user: int,
                           newId: int, w: Writes, store: LinkStore)
    requires newId !in store
    requires SaveLink(env, m, body, q, user, newId, w, store).0.Code() == StatusCreated
    requires |env.parseUrl(SaveInput(m, body, q).value.urlText).value.text| > 0
    ensures |SaveLink(env, m, body, q, user, newId, w, store).0.body.title| > 0
  {
    var u := env.parseUrl(SaveInput(m, body, q).value.urlText).value;
    var scraped := Scrape(env, u);
    assert |scraped.0| > 0;
  }

  /** `EditLink` on `link`, the stored link the route names (the link
      middleware only lets through links that scanned, so its URL is set).
      A non-empty URL in the body replaces the link's URL and must parse.
      The page is scraped again: the scraped title and description replace
      the stored ones unless the body's are non-empty. The timestamp is
      refreshed. */
  function EditLink(env: Env, body: Result<ApiLink>, link: DbLink, w: Writes, store: LinkStore)
    : (r: (Reply<ApiLink>, LinkStore))
    requires link.url.Some?
    ensures r.0.Code() == StatusBadRequest <==>
              body.Err? || (|body.value.urlText| > 0 && env.parseUrl(body.value.urlText).None?)
    ensures r.0.Code() == StatusOK <==> r.0.Code() != StatusBadRequest && w.linkOk && w.tagsOk
    ensures r.0.Code() == StatusInternalServerError <==> r.0.Code() != StatusBadRequest && !(w.linkOk && w.tagsOk)
    ensures r.0.Code() != StatusOK ==> r.1 == store || (w.linkOk && !w.tagsOk)
    ensures r.1.Keys == store.Keys + (if r.1 == store then {} else {link.id})
    ensures forall id :: id in store && id != link.id ==> id in r.1 && r.1[id] == store[id]
    ensures r.0.Code() == StatusOK ==>
              var input := body.value;
              var u := if |input.urlText| > 0 then env.parseUrl(input.urlText).value else link.url.value;
              var scraped := Scrape(env, u);
              r.0.Json? && link.id in r.1 && r.0.body == DbToApiLink(r.1[link.id])
              && r.1[link.id] == link.(url := Some(u),
                                       title := Prefer(input.title, scraped.0),
                                       description := Prefer(input.description, scraped.1),
                                       timestamp := env.now, tags := input.tags)
  {
    if body.Err? then (Status(StatusBadRequest), store)
    else
      var input := body.value;
      var parsed := if |input.urlText| > 0 then env.parseUrl(input.urlText) else link.url;
      match parsed
      case None => (Status(StatusBadRequest), store)
      case Some(u) =>
        var scraped := Scrape(env, u);
        var edited := link.(url := Some(u),
                            title := Prefer(input.title, scraped.0),
                            description := Prefer(input.description, scraped.1),
                            timestamp := env.now);
        if !w.linkOk then (Status(StatusInternalServerError), store)
        else if !w.tagsOk then (Status(StatusInternalServerError), store[link.id := edited])
        else
          var saved := edited.(tags := input.tags);
          (Json(StatusOK, DbToApiLink(saved)), store[link.id := saved])
  }

  /** An edit that names no URL keeps the link's URL. */
  lemma EditKeepsUrl(env: Env, body: Result<ApiLink>, link: DbLink, w: Writes, store: LinkStore)
    requires link.url.Some? && body.Ok? && body.value.urlText == ""
    ensures EditLink(env, body, link, w, store).0.Code() == StatusOK ==>
              EditLink(env, body, link, w, store).0.body.urlText == link.url.value.text
  {
  }

  /** `GetLink`: the stored link as JSON. */
  function GetLinkReply(link: DbLink): (r: Reply<ApiLink>)
    ensures r == Json(StatusOK, DbToApiLink(link))
  {
    Json(StatusOK, DbToApiLink(link))
  }

  /** The link `GetLink` answers with reads back as the stored link. */
  lemma GetLinkReplyRoundTrip(parseUrl: string -> Option<Url>, link: DbLink)
    requires link.url.Some? && parseUrl(link.url.value.text) == link.url
    requires link.tags.Some?
    ensures ApiToDbLink(parseUrl, link.owner, GetLinkReply(link).body) == link
  {
    DbApiRoundTrip(parseUrl, link);
  }

  /** `DeleteLink`: 204 and the link gone, or 500 and nothing changed. The
      search-index delete that follows may fail without changing the reply. */
  function DeleteLink(link: DbLink, deleteOk: bool, store: LinkStore): (r: (Reply<ApiLink>, LinkStore))
    ensures deleteOk ==> r.0 == Status(StatusNoContent) && link.id !in r.1
                         && forall id :: id in store && id != link.id ==> id in r.1 && r.1[id] == store[id]
    ensures !deleteOk ==> r.0 == Status(StatusInternalServerError) && r.1 == store
  {
    if deleteOk then (Status(StatusNoContent), store - {link.id})
    else (Status(StatusInternalServerError), store)
  }

  /** `AccessLink`: GET, PUT and DELETE go to their handlers; any other
      method panics (`None`). */
  function AccessLink(env: Env, m: Method, body: Result<ApiLink>, link: DbLink, w: Writes, store: LinkStore)
    : (r: Option<(Reply<ApiLink>, LinkStore)>)
    requires link.url.Some?
    ensures r.None? <==> m !in {GET, PUT, DELETE}
    ensures m == GET ==> r == Some((GetLinkReply(link), store))
    ensures m == PUT ==> r == Some(EditLink(env, body, link, w, store))
    ensures m == DELETE ==> r == Some(DeleteLink(link, w.linkOk, store))
  {
    match RouteOf(m)
    case ToGet => Some((GetLinkReply(link), store))
    case ToEdit => Some(EditLink(env, body, link, w, store))
    case ToDelete => Some(DeleteLink(link, w.linkOk, store))
    case Panic => None
  }
}
