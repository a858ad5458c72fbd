/** The records the Go backend passes around: the database link and tag
    (db/link.go, db/tag.go), the JSON link of the API (api/link.go) and the
    parsed URL they carry. Pointers to the database handle and to the
    owning user are reduced to the owner's id. */
module Records {
  import opened Wrappers

  /** A parsed `*url.URL`, reduced to what the handlers read from it: its
      `String()` and its `Hostname()`. */
  datatype Url = Url(text: string, host: string)

  /** `db.Link`. `url` is nil (`None`) only for a link built from a URL that
      did not parse; `tags` is nil (`None`) until tags are attached. */
  datatype DbLink = DbLink(
    id: int,
    title: string,
    description: string,
    timestamp: int,
    url: Option<Url>,
    tags: Option<seq<string>>,
    owner: int)

  /** `apiLink`, the JSON shape of a link. A nil `Tags` slice is `None`;
      `owner` and `html` are only filled for the search index. */
  datatype ApiLink = ApiLink(
    id: int,
    title: string,
    description: string,
    timestamp: int,
    urlText: string,
    domain: string,
    tags: Option<seq<string>>,
    owner: int,
    html: string)

  /** `db.Tag`. */
  datatype Tag = Tag(id: int, name: string, description: string, owner: int)

  /** The zero value of `apiLink`, what a handler decodes into. */
  const EmptyApiLink := ApiLink(0, "", "", 0, "", "", None, 0, "")
}
