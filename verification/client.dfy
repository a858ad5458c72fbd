/** The application component of the web frontend (frontend/src/lindeb.js)
    and the older one it replaced (frontend/src/components/lindeb.js): the
    headers sent with every request, how a failed response becomes an
    error, the two tag caches, the link list on screen and its page count.
    Requests are left out: each operation takes the decoded response, with
    `None` for a response that was not ok. */
module Client {
  import opened Wrappers
  import opened Text
  import opened Records
  import Auth
  import Paging
  import Http

  // ---------------------------------------------------------------------
  // Request headers
  // ---------------------------------------------------------------------

  /** The stored login: the user's id and authentication token. */
  datatype Session = Session(id: int, authToken: string)

  const JsonContentType := "application/json"

  /** The headers of an API request: an `Authorization` header only while a
      user is logged in, and always a JSON content type. */
  datatype Headers = Headers(authorization: Option<string>, contentType: string)

  /** The `headers` getter of both application components. */
  function RequestHeaders(session: Option<Session>): (h: Headers)
    ensures h.contentType == JsonContentType
    ensures h.authorization.Some? <==> session.Some?
    ensures session.Some? ==>
              h.authorization.value == "LINDEB-TOKEN user=" + IntToDecimal(session.value.id) + " token=" + session.value.authToken
  {
    match session
    case None => Headers(None, JsonContentType)
    case Some(s) => Headers(Some(Auth.HeaderText(IntToDecimal(s.id), s.authToken, "")), JsonContentType)
  }

  /** The header the frontend sends for a logged-in user authenticates
      exactly that user at the server, for a non-negative 64-bit id and a
      token of ASCII letters that the user holds. */
  lemma HeadersAuthenticate(users: seq<Auth.User>, u: Auth.User, token: string)
    requires 0 <= u.id <= MaxInt64 && Auth.UserById(users, u.id) == Some(u)
    requires |token| > 0 && AllLetters(token) && token in u.tokens
    ensures Auth.GetUser(RequestHeaders(Some(Session(u.id, token))).authorization.value, users) == Some(u)
  {
    Auth.GetUserRoundTrip(users, u, token, "");
  }

  /** `isAuthenticated`: whether login data is stored, not whether the
      server still accepts it. */
  function IsAuthenticated(session: Option<Session>): (b: bool)
    ensures b <==> session.Some?
  {
    session.Some?
  }

  /** A component that counts itself logged in is exactly one whose
      requests carry an `Authorization` header. */
  lemma AuthenticatedSendsHeader(session: Option<Session>)
    ensures IsAuthenticated(session) <==> RequestHeaders(session).authorization.Some?
  {
  }

  // ---------------------------------------------------------------------
  // Failed responses
  // ---------------------------------------------------------------------

  /** What `throwError` does with a failed response: throw an error with a
      message, or forget the stored user and return normally. */
  datatype Failure = Throw(message: string) | ForgetUser

  const LoggingIn := "logging in"

  /** `throwError`: the login form gets its own texts for 401 and 409; every
      other case goes through the general mapping, where 401 forgets the
      stored login instead of throwing. */
  function ThrowError(action: string, status: int, statusText: string, text: string): (f: Failure)
    ensures f.ForgetUser? <==> status == 401 && action != LoggingIn
    ensures action == LoggingIn && status == 401 ==> f == Throw("Invalid username or password")
    ensures action == LoggingIn && status == 409 ==> f == Throw("Username is already in use")
    ensures status == 400 ==> f == Throw("Bad request: " + text)
    ensures status == 413 ==> f == Throw(text)
    ensures status == 429 ==> f == Throw("Rate limit encountered: Please wait before re-sending request")
    ensures status == 500 ==> f == Throw("Internal server error")
    ensures status == 502 ==> f == Throw("Could not connect to lindeb backend")
    ensures status !in {400, 401, 409, 413, 429, 500, 502} ==> f == Throw("Unknown error: " + statusText + ": " + text)
    ensures status == 409 && action != LoggingIn ==> f == Throw("Unknown error: " + statusText + ": " + text)
  {
    if action == LoggingIn && status == 401 then Throw("Invalid username or password")
    else if action == LoggingIn && status == 409 then Throw("Username is already in use")
    else if status == 400 then Throw("Bad request: " + text)
    else if status == 401 then ForgetUser
    else if status == 413 then Throw(text)
    else if status == 429 then Throw("Rate limit encountered: Please wait before re-sending request")
    else if status == 500 then Throw("Internal server error")
    else if status == 502 then Throw("Could not connect to lindeb backend")
    else Throw("Unknown error: " + statusText + ": " + text)
  }

  /** Logging in only changes the answer to 401 and 409: any other status
      gets the same error as for any other action. */
  lemma LoginErrorsFallThrough(other: string, status: int, statusText: string, text: string)
    requires status != 401 && status != 409
    ensures ThrowError(LoggingIn, status, statusText, text) == ThrowError(other, status, statusText, text)
  {
  }

  // ---------------------------------------------------------------------
  // Tag caches
  // ---------------------------------------------------------------------

  /** `tagsByID` and `tagsByName`. */
  datatype Caches = Caches(byId: map<int, Tag>, byName: map<string, Tag>)

  /** The two caches index the same tags, each under its own id and its
      own name. */
  predicate Consistent(c: Caches) {
    && (forall id :: id in c.byId ==>
          c.byId[id].id == id && c.byId[id].name in c.byName && c.byName[c.byId[id].name] == c.byId[id])
    && (forall n :: n in c.byName ==>
          c.byName[n].name == n && c.byName[n].id in c.byId && c.byId[c.byName[n].id] == c.byName[n])
  }

  /** `new Map(tags.map(tag => [key(tag), tag]))`: a later tag with the same
      key replaces an earlier one. */
  function Index<K(==)>(tags: seq<Tag>, key: Tag -> K): (m: map<K, Tag>)
    ensures forall k :: 0 <= k < |tags| ==> key(tags[k]) in m
    ensures forall x :: x in m ==> m[x] in tags && key(m[x]) == x
    decreases |tags|
  {
    if |tags| == 0 then map[]
    else
      var last := tags[|tags| - 1];
      Index(tags[..|tags| - 1], key)[key(last) := last]
  }

  predicate DistinctKeys<K(==)>(tags: seq<Tag>, key: Tag -> K) {
    forall i, j :: 0 <= i < j < |tags| ==> key(tags[i]) != key(tags[j])
  }

  /** With distinct keys every tag is found under its own key. */
  lemma {:induction false} IndexFinds<K>(tags: seq<Tag>, key: Tag -> K)
    requires DistinctKeys(tags, key)
    ensures forall k :: 0 <= k < |tags| ==> Index(tags, key)[key(tags[k])] == tags[k]
    decreases |tags|
  {
    if |tags| > 0 {
      var init := tags[..|tags| - 1];
      IndexFinds(init, key);
      forall k | 0 <= k < |tags|
        ensures Index(tags, key)[key(tags[k])] == tags[k]
      {
        if k < |tags| - 1 {
          assert init[k] == tags[k];
        }
      }
    }
  }

  function IdOf(t: Tag): int { t.id }
  function NameOf(t: Tag): string { t.name }

  /** The caches `updateTags` (and the older `login`) builds from the
      fetched tag list; a null list counts as empty. */
  function CachesOf(raw: Option<seq<Tag>>): (c: Caches)
    ensures raw.None? ==> c == Caches(map[], map[])
    ensures raw.Some? ==> forall k :: 0 <= k < |raw.value| ==>
              raw.value[k].id in c.byId && raw.value[k].name in c.byName
  {
    var tags := raw.GetOr([]);
    Caches(Index(tags, IdOf), Index(tags, NameOf))
  }

  /** A list with distinct ids and distinct names, as the server keeps them,
      gives consistent caches holding every tag under its id and its name. */
  lemma CachesOfDistinct(tags: seq<Tag>)
    requires DistinctKeys(tags, IdOf) && DistinctKeys(tags, NameOf)
    ensures Consistent(CachesOf(Some(tags)))
    ensures forall k :: 0 <= k < |tags| ==>
              CachesOf(Some(tags)).byId[tags[k].id] == tags[k] && CachesOf(Some(tags)).byName[tags[k].name] == tags[k]
  {
    var c := CachesOf(Some(tags));
    IndexFinds(tags, IdOf);
    IndexFinds(tags, NameOf);
    assert forall k :: 0 <= k < |tags| ==> c.byId[IdOf(tags[k])] == tags[k];
    assert forall k :: 0 <= k < |tags| ==> c.byName[NameOf(tags[k])] == tags[k];
    forall id | id in c.byId
      ensures c.byId[id].name in c.byName && c.byName[c.byId[id].name] == c.byId[id]
    {
      var k :| 0 <= k < |tags| && tags[k] == c.byId[id];
      assert NameOf(tags[k]) == tags[k].name;
    }
    forall n | n in c.byName
      ensures c.byName[n].id in c.byId && c.byId[c.byName[n].id] == c.byName[n]
    {
      var k :| 0 <= k < |tags| && tags[k] == c.byName[n];
      assert IdOf(tags[k]) == tags[k].id;
    }
  }

  /** `saveTag` as written, after an ok response carrying `saved`: the saved
      tag goes under its id and its name; for an update (a submitted tag
      with an id) the entry under the SUBMITTED name is dropped first. */
  function SaveTagAsWritten(c: Caches, submitted: Tag, saved: Option<Tag>): (r: Caches)
    ensures saved.None? ==> r == c
    ensures saved.Some? ==> r.byId == c.byId[saved.value.id := saved.value]
    ensures saved.Some? ==> saved.value.name in r.byName && r.byName[saved.value.name] == saved.value
    ensures saved.Some? ==> forall n :: n != saved.value.name && !(submitted.id != 0 && n == submitted.name) ==>
              (n in r.byName <==> n in c.byName) && (n in c.byName ==> r.byName[n] == c.byName[n])
  {
    match saved
    case None => c
    case Some(t) =>
      var byName := if submitted.id != 0 then c.byName - {submitted.name} else c.byName;
      Caches(c.byId[t.id := t], byName[t.name := t])
  }

  /** The tag editor submits the edited tag, whose name is the NEW one. A
      rename of tag 1 from "a" to "b" then leaves "a" in the name cache,
      pointing at a tag named "a" that no longer exists. */
  lemma RenameLeavesStaleName()
    ensures var prior := Tag(1, "a", "", 7);
            var renamed := Tag(1, "b", "", 7);
            var before := Caches(map[1 := prior], map["a" := prior]);
            var after := SaveTagAsWritten(before, renamed, Some(renamed));
            && Consistent(before)
            && "a" in after.byName && after.byName["a"] == prior
            && after.byId[1] == renamed
            && !Consistent(after)
  {
    var prior := Tag(1, "a", "", 7);
    var renamed := Tag(1, "b", "", 7);
    var after := SaveTagAsWritten(Caches(map[1 := prior], map["a" := prior]), renamed, Some(renamed));
    assert after.byName["a"].id in after.byId && after.byId[after.byName["a"].id] != after.byName["a"];
  }

  /** `saveTag` with the evident intent: for an update, the entry under the
      tag's CACHED (old) name is dropped before the saved tag goes in. */
  function SaveTag(c: Caches, submitted: Tag, saved: Option<Tag>): (r: Caches)
    ensures saved.None? ==> r == c
    ensures saved.Some? ==> r.byId == c.byId[saved.value.id := saved.value]
    ensures saved.Some? ==> saved.value.name in r.byName && r.byName[saved.value.name] == saved.value
  {
    match saved
    case None => c
    case Some(t) =>
      var byName :=
        if submitted.id != 0 && submitted.id in c.byId then c.byName - {c.byId[submitted.id].name} else c.byName;
      Caches(c.byId[t.id := t], byName[t.name := t])
  }

  /** The corrected `saveTag` keeps the caches consistent, given what the
      server guarantees: an update keeps the id, an addition gets a fresh
      id, and the saved name is not another tag's. */
  lemma SaveTagKeepsConsistent(c: Caches, submitted: Tag, t: Tag)
    requires Consistent(c)
    requires submitted.id != 0 ==> t.id == submitted.id
    requires submitted.id == 0 ==> t.id !in c.byId
    requires t.name in c.byName ==> c.byName[t.name].id == t.id
    ensures Consistent(SaveTag(c, submitted, Some(t)))
  {
    var r := SaveTag(c, submitted, Some(t));
    forall id | id in r.byId
      ensures r.byId[id].id == id && r.byId[id].name in r.byName && r.byName[r.byId[id].name] == r.byId[id]
    {
      if id != t.id {
        var prior := c.byId[id];
        assert prior.name != t.name;
        if submitted.id != 0 && submitted.id in c.byId {
          assert prior.name != c.byId[submitted.id].name;
        }
      }
    }
    forall n | n in r.byName
      ensures r.byName[n].name == n && r.byName[n].id in r.byId && r.byId[r.byName[n].id] == r.byName[n]
    {
      if n != t.name {
        var prior := c.byName[n];
        assert prior.id in c.byId && c.byId[prior.id] == prior;
        if submitted.id != 0 && submitted.id in c.byId {
          assert n != c.byId[submitted.id].name;
        }
      }
    }
  }

  /** `deleteTag` after an ok response: the tag's id and its cached name
      are removed; an id not in the cache throws (`None`) and the caches
      stay as they were. */
  function DeleteTag(c: Caches, id: int): (r: Option<Caches>)
    ensures r.Some? <==> id in c.byId
    ensures r.Some? ==> r.value.byId.Keys == c.byId.Keys - {id}
    ensures r.Some? ==> r.value.byName.Keys == c.byName.Keys - {c.byId[id].name}
    ensures r.Some? ==> forall k :: k in r.value.byId ==> r.value.byId[k] == c.byId[k]
    ensures r.Some? ==> forall n :: n in r.value.byName ==> r.value.byName[n] == c.byName[n]
  {
    if id !in c.byId then None
    else Some(Caches(c.byId - {id}, c.byName - {c.byId[id].name}))
  }

  /** Deleting a tag keeps the caches consistent, and nothing refers to
      the deleted tag afterwards. */
  lemma DeleteTagKeepsConsistent(c: Caches, id: int)
    requires Consistent(c) && id in c.byId
    ensures Consistent(DeleteTag(c, id).value)
    ensures forall n :: n in DeleteTag(c, id).value.byName ==> DeleteTag(c, id).value.byName[n].id != id
  {
  }

  // ---------------------------------------------------------------------
  // The link list
  // ---------------------------------------------------------------------

  /** The index of the first link with the given id. */
  function FirstWithId(links: seq<ApiLink>, id: int): (i: Option<nat>)
    ensures i.Some? ==> i.value < |links| && links[i.value].id == id
    ensures i.Some? ==> forall k :: 0 <= k < i.value ==> links[k].id != id
    ensures i.None? <==> forall k :: 0 <= k < |links| ==> links[k].id != id
  {
    if |links| == 0 then None
    else if links[0].id == id then Some(0)
    else
      match FirstWithId(links[1..], id)
      case None => None
      case Some(k) => Some(k + 1)
  }

  /** The list without its first link with id `id`; unchanged when there is
      none. */
  function WithoutFirst(links: seq<ApiLink>, id: int): (r: seq<ApiLink>)
    ensures FirstWithId(links, id).None? ==> r == links
    ensures FirstWithId(links, id).Some? ==>
              |r| == |links| - 1 && r == links[..FirstWithId(links, id).value] + links[FirstWithId(links, id).value + 1..]
  {
    match FirstWithId(links, id)
    case None => links
    case Some(i) => links[..i] + links[i + 1..]
  }

  /** The list with its first link of `body`'s id replaced by `body`;
      unchanged when there is none. */
  function WithFirstReplaced(links: seq<ApiLink>, body: ApiLink): (r: seq<ApiLink>)
    ensures |r| == |links|
    ensures FirstWithId(links, body.id).None? ==> r == links
    ensures FirstWithId(links, body.id).Some? ==>
              forall k :: 0 <= k < |links| ==>
                r[k] == if k == FirstWithId(links, body.id).value then body else links[k]
  {
    match FirstWithId(links, body.id)
    case None => links
    case Some(i) => links[i := body]
  }

  /** `deleteLink`'s loop over the list, stopping at the first link with
      the id. The older component runs it whatever the response; the newer
      one only after an ok response. */
  method RemoveLink(links: seq<ApiLink>, id: int) returns (r: seq<ApiLink>)
    ensures r == WithoutFirst(links, id)
  {
    var i := 0;
    while i < |links|
      invariant 0 <= i <= |links|
      invariant forall k :: 0 <= k < i ==> links[k].id != id
    {
      if links[i].id == id {
        return links[..i] + links[i + 1..];
      }
      i := i + 1;
    }
    return links;
  }

  /** `updateLink`'s loop over the list, replacing the first link with the
      response's id. */
  method ReplaceLink(links: seq<ApiLink>, body: ApiLink) returns (r: seq<ApiLink>)
    ensures r == WithFirstReplaced(links, body)
  {
    var i := 0;
    while i < |links|
      invariant 0 <= i <= |links|
      invariant forall k :: 0 <= k < i ==> links[k].id != body.id
    {
      if links[i].id == body.id {
        return links[i := body];
      }
      i := i + 1;
    }
    return links;
  }

  /** `checkForNewTags`: whether a tag refresh starts, the loop stopping at
      the first tag missing from the name cache. A link without tags
      starts none. */
  method CheckForNewTags(byName: map<string, Tag>, tags: Option<seq<string>>) returns (refresh: bool)
    ensures refresh <==> tags.Some? && exists k :: 0 <= k < |tags.value| && tags.value[k] !in byName
  {
    if tags.None? {
      return false;
    }
    var ts := tags.value;
    var i := 0;
    while i < |ts|
      invariant 0 <= i <= |ts|
      invariant forall k :: 0 <= k < i ==> ts[k] in byName
    {
      if ts[i] !in byName {
        return true;
      }
      i := i + 1;
    }
    return false;
  }

  /** The newer `updateLink` after an ok response: the new tags check, then
      the list update. */
  method UpdateLink(c: Caches, links: seq<ApiLink>, body: ApiLink) returns (r: seq<ApiLink>, refresh: bool)
    ensures |r| == |links|
    ensures r == WithFirstReplaced(links, body)
    ensures refresh <==> body.tags.Some? && exists k :: 0 <= k < |body.tags.value| && body.tags.value[k] !in c.byName
  {
    refresh := CheckForNewTags(c.byName, body.tags);
    r := ReplaceLink(links, body);
  }

  // ---------------------------------------------------------------------
  // Opening the list and switching pages
  // ---------------------------------------------------------------------

  /** JavaScript's unary `+` on a query value, for decimal integers: an
      empty or blank string is 0, an optionally signed run of digits is its
      value, and anything else is `None` (not a number). */
  function JsNumber(s: string): (n: Option<int>)
    ensures |s| > 0 && AllDigits(s) ==> n == Some(DecimalValue(s))
    ensures Trim(s, IsJsSpace) == "" ==> n == Some(0)
  {
    var t := Trim(s, IsJsSpace);
    if |t| == 0 then Some(0)
    else if AllDigits(t) then Some(DecimalValue(t))
    else if t[0] == '-' && |t| > 1 && AllDigits(t[1..]) then Some(0 - DecimalValue(t[1..]) as int)
    else if t[0] == '+' && |t| > 1 && AllDigits(t[1..]) then Some(DecimalValue(t[1..]))
    else None
  }

  /** `Math.ceil(a / b)` for a non-zero divisor. */
  function CeilDiv(a: int, b: int): (r: int)
    requires b != 0
    ensures b > 0 ==> (r - 1) * b < a <= r * b
    ensures b < 0 ==> r * b <= a < (r - 1) * b
  {
    if b > 0 then -((-a) / b) else a / b
  }

  /** The page count of the list: `None` when the page size is not a
      number or is 0 (the division gives NaN or Infinity). */
  function PageCount(totalCount: int, pageSize: Option<int>): (pages: Option<int>)
    ensures pages.Some? <==> pageSize.Some? && pageSize.value != 0
    ensures pages.Some? && pageSize.value > 0 ==>
              (pages.value - 1) * pageSize.value < totalCount <= pages.value * pageSize.value
  {
    match pageSize
    case None => None
    case Some(size) => if size == 0 then None else Some(CeilDiv(totalCount, size))
  }

  /** The link list `openLinkList` shows: the links, the page (only the
      newer component records it) and the page count. */
  datatype ListView = ListView(links: seq<ApiLink>, page: Option<int>, pages: Option<int>)

  /** `openLinkList`'s defaults: page 1 and page size 10 when the query has
      none; whatever it has is kept. */
  function WithDefaults(q: Http.Query): (r: Http.Query)
    ensures "page" in r && "pagesize" in r
    ensures forall k :: k in q ==> k in r && r[k] == q[k]
    ensures "page" !in q ==> r["page"] == ["1"]
    ensures "pagesize" !in q ==> r["pagesize"] == ["10"]
    ensures forall k :: k in r ==> k in q || k == "page" || k == "pagesize"
  {
    var q1 := if "page" in q then q else q["page" := ["1"]];
    if "pagesize" in q1 then q1 else q1["pagesize" := ["10"]]
  }

  /** The newer `openLinkList`, given the query it sends and the decoded
      answer (links and total count), or `None` for a failed request. */
  function OpenLinkList(q: Http.Query, response: Option<(seq<ApiLink>, int)>): (r: Option<ListView>)
    ensures r.Some? <==> response.Some?
    ensures r.Some? ==> r.value.links == response.value.0
    ensures r.Some? ==> r.value.page == JsNumber(Http.QueryGet(WithDefaults(q), "page"))
    ensures r.Some? ==> r.value.pages == PageCount(response.value.1, JsNumber(Http.QueryGet(WithDefaults(q), "pagesize")))
  {
    match response
    case None => None
    case Some((links, total)) =>
      var sent := WithDefaults(q);
      Some(ListView(links, JsNumber(Http.QueryGet(sent, "page")), PageCount(total, JsNumber(Http.QueryGet(sent, "pagesize")))))
  }

  /** The older `openLinkList`: no error check and no page recorded. */
  function OpenLinkListOld(q: Http.Query, links: seq<ApiLink>, totalCount: int): (r: ListView)
    ensures r.page.None? && r.links == links
    ensures r.pages == PageCount(totalCount, JsNumber(Http.QueryGet(WithDefaults(q), "pagesize")))
  {
    ListView(links, None, PageCount(totalCount, JsNumber(Http.QueryGet(WithDefaults(q), "pagesize"))))
  }

  lemma DecimalOneAndTen()
    ensures JsNumber("1") == Some(1) && JsNumber("10") == Some(10)
  {
    var one, ten := "1", "10";
    assert AllDigits(one) by { assert one[0] == '1'; }
    assert DecimalValue(one) == 1 by {
      assert one[..0] == "" && one[0] == '1';
    }
    assert AllDigits(ten) by { assert ten[0] == '1' && ten[1] == '0'; }
    assert DecimalValue(ten) == 10 by {
      assert ten[..1] == one && ten[1] == '0';
    }
  }

  /** With neither parameter in the query, the list opens on page 1 with
      ceil(total/10) pages. */
  lemma OpenLinkListDefaults(links: seq<ApiLink>, total: int)
    ensures OpenLinkList(map[], Some((links, total))) == Some(ListView(links, Some(1), Some(CeilDiv(total, 10))))
  {
    var sent := WithDefaults(map[]);
    assert Http.QueryGet(sent, "page") == "1";
    assert Http.QueryGet(sent, "pagesize") == "10";
    DecimalOneAndTen();
  }

  /** `switchPage`: a page below 1 or above the page count throws (`None`);
      any other page is opened. A page count that is not a number compares
      false, so then only a page below 1 throws. */
  function SwitchPage(to: int, pages: Option<int>): (r: Option<int>)
    ensures r.None? <==> to < 1 || (pages.Some? && to > pages.value)
    ensures r.Some? ==> r.value == to
  {
    if to < 1 || (pages.Some? && to > pages.value) then None else Some(to)
  }

  /** For a positive page size, the page count is exactly the number of
      non-empty pages the server cuts, so every page `switchPage` lets
      through shows links and the first one past it shows none. */
  lemma PagesShowLinks<T>(links: seq<T>, size: int)
    requires size > 0
    ensures var pages := PageCount(|links|, Some(size));
            && pages.Some?
            && (forall n :: SwitchPage(n, pages).Some? ==> Paging.PageOf(links, n, size) != [])
            && Paging.PageOf(links, pages.value + 1, size) == []
  {
    var pc := CeilDiv(|links|, size);
    forall n | SwitchPage(n, Some(pc)).Some?
      ensures Paging.PageOf(links, n, size) != []
    {
      assert (n - 1) * size <= (pc - 1) * size;
    }
  }
}
