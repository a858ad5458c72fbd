/** The tag handlers of api/tag.go over an abstract tag table (id to tag)
    and link table. Each database write's outcome is an input; the search
    index's deletes report their failures as a set of link ids. */
module TagApi {
  import opened Wrappers
  import opened Http
  import opened Records
  import LinkApi

  type TagStore = map<int, Tag>

  /** The `links` field of a tag's JSON: absent for the tag alone; with
      `include-links`, `null` when no link carries the tag (Go's nil
      slice) and the list otherwise. */
  datatype LinksField = Omitted | NullLinks | Links(list: seq<ApiLink>)

  /** A tag, optionally with its links (the `include-links` form). */
  datatype TagBody = TagBody(tag: Tag, links: LinksField)

  /** `GetTagByName` finds a tag of `user` called `name`. */
  predicate NameTaken(store: TagStore, user: int, name: string) {
    exists id :: id in store && store[id].owner == user && store[id].name == name
  }

  /** No two tags of one user share a name (the table's UNIQUE key). */
  predicate NamesUnique(store: TagStore) {
    forall a, b :: a in store && b in store && a != b && store[a].owner == store[b].owner ==>
                     store[a].name != store[b].name
  }

  /** Every tag sits under its own id. */
  predicate KeyedById(store: TagStore) {
    forall id :: id in store ==> store[id].id == id
  }

  /** `AddTag`: the body's id is ignored and the owner is the current user;
      a name the user already has answers 409; otherwise the tag is
      inserted under the fresh id the database hands out. */
  function AddTag(store: TagStore, user: int, body: Result<Tag>, newId: int, insertOk: bool)
    : (r: (Reply<TagBody>, TagStore))
    requires newId !in store
    ensures body.Err? ==> r == (Status(StatusBadRequest), store)
    ensures body.Ok? && NameTaken(store, user, body.value.name) ==> r == (Status(StatusConflict), store)
    ensures body.Ok? && !NameTaken(store, user, body.value.name) && !insertOk ==>
              r == (Status(StatusInternalServerError), store)
    ensures r.0.Code() == StatusCreated <==> body.Ok? && !NameTaken(store, user, body.value.name) && insertOk
    ensures r.0.Code() == StatusCreated ==>
              var t := Tag(newId, body.value.name, body.value.description, user);
              r.0 == Json(StatusCreated, TagBody(t, Omitted)) && r.1 == store[newId := t]
  {
    if body.Err? then (Status(StatusBadRequest), store)
    else
      var t := body.value.(id := 0, owner := user);
      if NameTaken(store, user, t.name) then (Status(StatusConflict), store)
      else if !insertOk then (Status(StatusInternalServerError), store)
      else
        var inserted := t.(id := newId);
        (Json(StatusCreated, TagBody(inserted, Omitted)), store[newId := inserted])
  }

  /** `EditTag` on `tag`, the stored tag of `user` the route names. A
      non-empty name renames it unless some tag of the user, itself
      included, already has that name (409); a non-empty description
      replaces the old one. */
  function EditTag(store: TagStore, user: int, tag: Tag, body: Result<Tag>, updateOk: bool)
    : (r: (Reply<TagBody>, TagStore))
    requires tag.id in store && store[tag.id] == tag && tag.owner == user
    ensures body.Err? ==> r == (Status(StatusBadRequest), store)
    ensures r.0.Code() == StatusBadRequest <==> body.Err?
    ensures r.0.Code() == StatusInternalServerError <==>
              body.Ok? && !(|body.value.name| > 0 && NameTaken(store, user, body.value.name)) && !updateOk
    ensures r.0.Code() == StatusConflict <==>
              body.Ok? && |body.value.name| > 0 && NameTaken(store, user, body.value.name)
    ensures r.0.Code() != StatusOK ==> r.1 == store
    ensures r.0.Code() == StatusOK <==> r.0.Code() !in {StatusBadRequest, StatusConflict} && updateOk
    ensures r.0.Code() == StatusOK ==>
              var edited := tag.(name := if |body.value.name| > 0 then body.value.name else tag.name,
                                 description := if |body.value.description| > 0 then body.value.description
                                                else tag.description);
              r.0 == Json(StatusOK, TagBody(edited, Omitted)) && r.1 == store[tag.id := edited]
  {
    if body.Err? then (Status(StatusBadRequest), store)
    else
      var input := body.value;
      if |input.name| > 0 && NameTaken(store, user, input.name) then (Status(StatusConflict), store)
      else
        var renamed := if |input.name| > 0 then tag.(name := input.name) else tag;
        var edited := if |input.description| > 0 then renamed.(description := input.description) else renamed;
        if !updateOk then (Status(StatusInternalServerError), store)
        else (Json(StatusOK, TagBody(edited, Omitted)), store[tag.id := edited])
  }

  /** Renaming a tag to its own current name is refused as a conflict. */
  lemma RenameToOwnNameConflicts(store: TagStore, user: int, tag: Tag, updateOk: bool)
    requires tag.id in store && store[tag.id] == tag && tag.owner == user && |tag.name| > 0
    ensures EditTag(store, user, tag, Ok(tag), updateOk).0 == Status(StatusConflict)
  {
    assert NameTaken(store, user, tag.name);
  }

  /** Adding keeps tag names unique per user and every tag under its id. */
  lemma AddTagKeepsNamesUnique(store: TagStore, user: int, body: Result<Tag>, newId: int, insertOk: bool)
    requires newId !in store && NamesUnique(store) && KeyedById(store)
    ensures NamesUnique(AddTag(store, user, body, newId, insertOk).1)
    ensures KeyedById(AddTag(store, user, body, newId, insertOk).1)
  {
    var r := AddTag(store, user, body, newId, insertOk);
    if r.0.Code() == StatusCreated {
      var t := Tag(newId, body.value.name, body.value.description, user);
      forall a, b | a in r.1 && b in r.1 && a != b && r.1[a].owner == r.1[b].owner
        ensures r.1[a].name != r.1[b].name
      {
        if a == newId {
          assert !(store[b].owner == user && store[b].name == t.name);
        } else if b == newId {
          assert !(store[a].owner == user && store[a].name == t.name);
        }
      }
    }
  }

  /** Editing keeps tag names unique per user and every tag under its id. */
  lemma EditTagKeepsNamesUnique(store: TagStore, user: int, tag: Tag, body: Result<Tag>, updateOk: bool)
    requires tag.id in store && store[tag.id] == tag && tag.owner == user
    requires NamesUnique(store) && KeyedById(store)
    ensures NamesUnique(EditTag(store, user, tag, body, updateOk).1)
    ensures KeyedById(EditTag(store, user, tag, body, updateOk).1)
  {
    var r := EditTag(store, user, tag, body, updateOk);
    if r.0.Code() == StatusOK {
      var edited := r.0.body.tag;
      forall a, b | a in r.1 && b in r.1 && a != b && r.1[a].owner == r.1[b].owner
        ensures r.1[a].name != r.1[b].name
      {
        if a == tag.id && |body.value.name| > 0 {
          assert !(store[b].owner == user && store[b].name == body.value.name);
        } else if b == tag.id && |body.value.name| > 0 {
          assert !(store[a].owner == user && store[a].name == body.value.name);
        }
      }
    }
  }

  /** Which query `ListTags` runs. */
  datatype TagQuery = ByName(names: seq<string>) | AllTags

  /** `ListTags`: by name when the query has at least one `tag` value,
      otherwise every tag of the user; `run` is the database's answer
      (`None` on an error, answered with 500). */
  function ListTags(q: Query, run: TagQuery -> Option<seq<Tag>>): (r: Reply<seq<Tag>>)
    ensures var chosen := if |QueryAll(q, "tag").GetOr([])| > 0 then ByName(q["tag"]) else AllTags;
            && (run(chosen).None? ==> r == Status(StatusInternalServerError))
            && (run(chosen).Some? ==> r == Json(StatusOK, run(chosen).value))
  {
    var names := QueryAll(q, "tag").GetOr([]);
    var chosen := if |names| > 0 then ByName(names) else AllTags;
    match run(chosen)
    case None => Status(StatusInternalServerError)
    case Some(tags) => Json(StatusOK, tags)
  }

  /** `GetTag`: the tag, with its links as JSON when `include-links` is
      set: `null` when the tag has none, since nothing is appended to the
      nil slice. When fetching them fails the 500 is written first, so the
      answer is a 500. */
  function GetTag(q: Query, tag: Tag, tagged: Option<seq<DbLink>>): (r: Reply<TagBody>)
    ensures |QueryGet(q, "include-links")| == 0 ==> r == Json(StatusOK, TagBody(tag, Omitted))
    ensures |QueryGet(q, "include-links")| > 0 && tagged.None? ==> r == Status(StatusInternalServerError)
    ensures |QueryGet(q, "include-links")| > 0 && tagged.Some? && |tagged.value| == 0 ==>
              r == Json(StatusOK, TagBody(tag, NullLinks))
    ensures |QueryGet(q, "include-links")| > 0 && tagged.Some? && |tagged.value| > 0 ==>
              r.Json? && r.body.tag == tag && r.body.links.Links? && |r.body.links.list| == |tagged.value|
              && forall k :: 0 <= k < |tagged.value| ==> r.body.links.list[k] == LinkApi.DbToApiLink(tagged.value[k])
  {
    if |QueryGet(q, "include-links")| == 0 then Json(StatusOK, TagBody(tag, Omitted))
    else match tagged
      case None => Status(StatusInternalServerError)
      case Some(ls) =>
        if |ls| == 0 then Json(StatusOK, TagBody(tag, NullLinks))
        else Json(StatusOK, TagBody(tag, Links(seq(|ls|, k requires 0 <= k < |ls| => LinkApi.DbToApiLink(ls[k])))))
  }

  /** The number of errors the link loop of `DeleteTag` collects: one per
      failed database delete and one per failed index delete. */
  function DeleteErrors(links: seq<DbLink>, dbFails: set<int>, indexFails: set<int>): nat {
    if |links| == 0 then 0
    else DeleteErrors(links[..|links| - 1], dbFails, indexFails)
         + (if links[|links| - 1].id in dbFails then 1 else 0)
         + (if links[|links| - 1].id in indexFails then 1 else 0)
  }

  lemma {:induction false} NoDeleteErrors(links: seq<DbLink>, dbFails: set<int>, indexFails: set<int>)
    ensures DeleteErrors(links, dbFails, indexFails) == 0 <==>
              forall k :: 0 <= k < |links| ==> links[k].id !in dbFails && links[k].id !in indexFails
  {
    if |links| > 0 {
      NoDeleteErrors(links[..|links| - 1], dbFails, indexFails);
    }
  }

  /** `names` without any entry equal to `name`, in order. */
  function Without(names: seq<string>, name: string): (r: seq<string>)
    ensures name !in r
    ensures forall x :: x in r <==> x in names && x != name
    ensures |r| <= |names|
    ensures name !in names ==> r == names
  {
    if |names| == 0 then []
    else if names[0] == name then Without(names[1..], name)
    else [names[0]] + Without(names[1..], name)
  }

  /** A link as the `LinkTag` table's `ON DELETE CASCADE` leaves it once
      `tag` is deleted: a link of the tag's owner no longer carries its
      name; names are unique per user only, so other users' links keep
      theirs. */
  function Untagged(link: DbLink, tag: Tag): (r: DbLink)
    ensures r.owner == tag.owner && r.tags.Some? ==> tag.name !in r.tags.value
    ensures r.tags.None? <==> link.tags.None?
    ensures r.tags.Some? ==> forall x :: x in r.tags.value <==> x in link.tags.value && (x != tag.name || link.owner != tag.owner)
    ensures r == link.(tags := r.tags)
  {
    if link.owner == tag.owner && link.tags.Some? then link.(tags := Some(Without(link.tags.value, tag.name)))
    else link
  }

  /** What `DeleteTag` may answer and leave behind: 204 exactly when the
      tag delete succeeds and, with `delete-links`, the links were fetched
      and every delete of them succeeded; otherwise 500 with the tags
      kept. Without the cascade, or when fetching failed, the links are
      kept; with it, exactly the tagged links whose database delete
      succeeded are gone. The links that remain are untouched, except
      that after a 204 the tag's name is gone from its owner's links. */
  ghost predicate DeleteOutcome(q: Query, tagged: Option<seq<DbLink>>, dbFails: set<int>, indexFails: set<int>,
                                tagDeleteOk: bool, tag: Tag, links: LinkApi.LinkStore, tags: TagStore,
                                reply: Reply<TagBody>, links': LinkApi.LinkStore, tags': TagStore)
  {
    var cascade := |QueryGet(q, "delete-links")| > 0;
    && (reply.Code() == StatusNoContent <==>
          tagDeleteOk && (!cascade || (tagged.Some? && DeleteErrors(tagged.value, dbFails, indexFails) == 0)))
    && (reply.Code() != StatusNoContent ==> reply.Code() == StatusInternalServerError && tags' == tags)
    && (reply.Code() == StatusNoContent ==> tags' == tags - {tag.id})
    && (!cascade || tagged.None? ==> links'.Keys == links.Keys)
    && (cascade && tagged.Some? ==>
          forall id :: id in links' <==>
            id in links && !(exists k :: 0 <= k < |tagged.value| && tagged.value[k].id == id && id !in dbFails))
    && (forall id :: id in links' ==>
          links'[id] == if reply.Code() == StatusNoContent then Untagged(links[id], tag) else links[id])
  }

  /** After a 204 no remaining link of the tag's owner carries its name. */
  lemma DeletedTagLeavesNoLink(q: Query, tagged: Option<seq<DbLink>>, dbFails: set<int>, indexFails: set<int>,
                               tagDeleteOk: bool, tag: Tag, links: LinkApi.LinkStore, tags: TagStore,
                               reply: Reply<TagBody>, links': LinkApi.LinkStore, tags': TagStore)
    requires DeleteOutcome(q, tagged, dbFails, indexFails, tagDeleteOk, tag, links, tags, reply, links', tags')
    requires reply.Code() == StatusNoContent
    ensures tag.id !in tags'
    ensures forall id :: id in links' && links'[id].owner == tag.owner && links'[id].tags.Some? ==>
                           tag.name !in links'[id].tags.value
  {
    forall id | id in links' && links'[id].owner == tag.owner && links'[id].tags.Some?
      ensures tag.name !in links'[id].tags.value
    {
      assert links'[id] == Untagged(links[id], tag);
    }
  }

  /** The link loop of `DeleteTag`: every tagged link whose database
      delete succeeds leaves the store, the rest stay as they were, and
      each failed database or index delete counts one error. */
  method DeleteTaggedLinks(ls: seq<DbLink>, dbFails: set<int>, indexFails: set<int>, links: LinkApi.LinkStore)
    returns (errors: nat, links': LinkApi.LinkStore)
    ensures errors == DeleteErrors(ls, dbFails, indexFails)
    ensures forall id :: id in links' <==>
              id in links && !(exists k :: 0 <= k < |ls| && ls[k].id == id && id !in dbFails)
    ensures forall id :: id in links' ==> links'[id] == links[id]
  {
    links' := links;
    errors := 0;
    var i := 0;
    while i < |ls|
      invariant 0 <= i <= |ls|
      invariant errors == DeleteErrors(ls[..i], dbFails, indexFails)
      invariant forall id :: id in links' <==>
                  id in links && !(exists k :: 0 <= k < i && ls[k].id == id && id !in dbFails)
      invariant forall id :: id in links' ==> links'[id] == links[id]
    {
      assert ls[..i + 1][..i] == ls[..i];
      if ls[i].id !in dbFails {
        links' := links' - {ls[i].id};
      } else {
        errors := errors + 1;
      }
      if ls[i].id in indexFails {
        errors := errors + 1;
      }
      i := i + 1;
    }
    assert ls[..i] == ls;
  }

  /** `DeleteTag`. With `delete-links`, every link carrying the tag is
      deleted first (`tagged`, `None` when fetching them failed); any
      failure there answers 500 and keeps the tag, though the links whose
      delete succeeded stay deleted. Then the tag is deleted. */
  method DeleteTag(q: Query, tag: Tag, tagged: Option<seq<DbLink>>, dbFails: set<int>, indexFails: set<int>,
                   tagDeleteOk: bool, links: LinkApi.LinkStore, tags: TagStore)
    returns (reply: Reply<TagBody>, links': LinkApi.LinkStore, tags': TagStore)
    ensures DeleteOutcome(q, tagged, dbFails, indexFails, tagDeleteOk, tag, links, tags, reply, links', tags')
  {
    links' := links;
    tags' := tags;
    if |QueryGet(q, "delete-links")| > 0 {
      if tagged.None? {
        return Status(StatusInternalServerError), links', tags';
      }
      var errors;
      errors, links' := DeleteTaggedLinks(tagged.value, dbFails, indexFails, links);
      if errors > 0 {
        return Status(StatusInternalServerError), links', tags';
      }
    }
    if !tagDeleteOk {
      return Status(StatusInternalServerError), links', tags';
    }
    tags' := tags - {tag.id};
    var kept := links';
    links' := map id | id in kept :: Untagged(kept[id], tag);
    assert links'.Keys == kept.Keys;
    reply := Status(StatusNoContent);
  }

  /** `AccessTag`: GET, PUT and DELETE go to their handlers; any other
      method panics (`None`). */
  method AccessTag(m: Method, q: Query, user: int, tag: Tag, body: Result<Tag>, writeOk: bool,
                   tagged: Option<seq<DbLink>>, dbFails: set<int>, indexFails: set<int>,
                   links: LinkApi.LinkStore, tags: TagStore)
    returns (r: Option<(Reply<TagBody>, LinkApi.LinkStore, TagStore)>)
    requires tag.id in tags && tags[tag.id] == tag && tag.owner == user
    ensures r.None? <==> m !in {GET, PUT, DELETE}
    ensures m == GET ==> r == Some((GetTag(q, tag, tagged), links, tags))
    ensures m == PUT ==> r == Some((EditTag(tags, user, tag, body, writeOk).0, links, EditTag(tags, user, tag, body, writeOk).1))
    ensures m == DELETE ==>
              r.Some? && DeleteOutcome(q, tagged, dbFails, indexFails, writeOk, tag, links, tags, r.value.0, r.value.1, r.value.2)
  {
    match RouteOf(m)
    case ToGet => r := Some((GetTag(q, tag, tagged), links, tags));
    case ToEdit =>
      var e := EditTag(tags, user, tag, body, writeOk);
      r := Some((e.0, links, e.1));
    case ToDelete =>
      var reply, links', tags' := DeleteTag(q, tag, tagged, dbFails, indexFails, writeOk, links, tags);
      r := Some((reply, links', tags'));
    case Panic => r := None;
  }
}
